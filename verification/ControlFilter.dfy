/** Stripping terminal control responses from local input
    (internal/cli/terminal_filter.go and its read loop in terminal.go). Control
    sequences are those of section 5.4 of ECMA-48. */
module ControlFilter {
  import opened Common

  const ESC: Byte := 0x1b
  const BRACKET: Byte := 0x5b

  predicate IsFinal(b: Byte) { 0x40 <= b <= 0x7E }

  predicate IsControlResponse(s: seq<Byte>) {
    if |s| < 3 || s[0] != ESC || s[1] != BRACKET then false
    else
      var final := s[|s| - 1];
      var body := s[2..|s| - 1];
      if final == 0x63 then |body| > 0 && (body[0] == 0x3f || body[0] == 0x3e)  // c with ? or >
      else if final == 0x52 then true                                           // R
      else if final == 0x49 || final == 0x4f then |body| == 0                   // I, O
      else false
  }

  /** What final byte and parameters decide: device attributes with either marker, any
      sequence ending in R, bare focus events - and not the bare query a user may
      send, nor any other final. */
  lemma DocumentedResponses(params: seq<Byte>)
    ensures IsControlResponse([ESC, BRACKET, 0x3f] + params + [0x63])
    ensures IsControlResponse([ESC, BRACKET, 0x3e] + params + [0x63])
    ensures IsControlResponse([ESC, BRACKET] + params + [0x52])
    ensures IsControlResponse([ESC, BRACKET] + params + [0x49]) <==> params == []
    ensures IsControlResponse([ESC, BRACKET] + params + [0x4f]) <==> params == []
    ensures IsControlResponse([ESC, BRACKET] + params + [0x63]) <==> params != [] && params[0] in {0x3f, 0x3e}
    ensures forall f: Byte :: f !in {0x63, 0x52, 0x49, 0x4f} ==> !IsControlResponse([ESC, BRACKET] + params + [f])
  {
    assert ([ESC, BRACKET, 0x3f] + params + [0x63])[2] == 0x3f;
    assert ([ESC, BRACKET, 0x3e] + params + [0x63])[2] == 0x3e;
    var s := [ESC, BRACKET] + params + [0x63];
    assert s[2..|s| - 1] == params;
  }

  predicate Digits(s: seq<Byte>) { s != [] && forall i :: 0 <= i < |s| ==> 0x30 <= s[i] <= 0x39 }

  predicate RowColumn(body: seq<Byte>) {
    exists k :: 0 <= k < |body| && body[k] == 0x3b && Digits(body[..k]) && Digits(body[k + 1..])
  }

  predicate IsSequence(s: seq<Byte>) { |s| >= 3 && s[0] == ESC && s[1] == BRACKET }

  /** The five documented shapes. */
  predicate Documented(s: seq<Byte>) {
    && IsSequence(s)
    && var body := s[2..|s| - 1];
       match s[|s| - 1]
       case 0x63 => body != [] && body[0] in {0x3f, 0x3e}
       case 0x52 => RowColumn(body)
       case 0x49 => body == []
       case 0x4f => body == []
       case _ => false
  }

  /** Ends like a cursor report without being one. */
  predicate StrayReport(s: seq<Byte>) {
    IsSequence(s) && s[|s| - 1] == 0x52 && !RowColumn(s[2..|s| - 1])
  }

  /** Every documented response is recognised, and beyond those exactly the sequences
      that end in R without a row and a column. */
  lemma RecognisedIff(s: seq<Byte>)
    ensures IsControlResponse(s) <==> Documented(s) || StrayReport(s)
    ensures !(Documented(s) && StrayReport(s))
  {
  }

  // ----- the grammar: what the filter is supposed to recognise -----

  /** A complete unit of input: a plain byte, an escape pair, or a whole control
      sequence up to its final byte. */
  predicate IsToken(t: seq<Byte>) {
    || (|t| == 1 && t[0] != ESC)
    || (|t| == 2 && t[0] == ESC && t[1] != BRACKET)
    || (|t| >= 3 && t[0] == ESC && t[1] == BRACKET && IsFinal(t[|t| - 1]) &&
        forall i :: 2 <= i < |t| - 1 ==> !IsFinal(t[i]))
  }

  /** Too short to classify yet. */
  predicate Unfinished(r: seq<Byte>) {
    || r == []
    || r == [ESC]
    || (|r| >= 2 && r[0] == ESC && r[1] == BRACKET && forall i :: 2 <= i < |r| ==> !IsFinal(r[i]))
  }

  function Flatten(tokens: seq<seq<Byte>>): seq<Byte> {
    if tokens == [] then [] else tokens[0] + Flatten(tokens[1..])
  }

  /** The tokens that are not control responses. */
  function Kept(tokens: seq<seq<Byte>>): seq<seq<Byte>> {
    if tokens == [] then []
    else (if IsControlResponse(tokens[0]) then [] else [tokens[0]]) + Kept(tokens[1..])
  }

  predicate Lexed(input: seq<Byte>, tokens: seq<seq<Byte>>, rest: seq<Byte>) {
    && (forall i :: 0 <= i < |tokens| ==> IsToken(tokens[i]))
    && Unfinished(rest)
    && Flatten(tokens) + rest == input
  }

  // ----- the scan as a function -----

  /** The first index at or after `from` holding a final byte, or the length. */
  function FinalIndex(input: seq<Byte>, from: nat): (e: nat)
    requires from <= |input|
    ensures from <= e <= |input|
    ensures e < |input| ==> IsFinal(input[e])
    ensures forall i :: from <= i < e ==> !IsFinal(input[i])
    decreases |input| - from
  {
    if from == |input| || IsFinal(input[from]) then from else FinalIndex(input, from + 1)
  }

  /** The length of the token at the front; zero when it is incomplete. */
  function TokenLength(input: seq<Byte>): (n: nat)
    requires input != []
    ensures n <= |input|
  {
    if input[0] != ESC then 1
    else if |input| == 1 then 0
    else if input[1] != BRACKET then 2
    else
      var e := FinalIndex(input, 2);
      if e >= |input| then 0 else e + 1
  }

  lemma TokenLengthSound(input: seq<Byte>)
    requires input != []
    ensures var n := TokenLength(input);
            if n > 0 then IsToken(input[..n]) else Unfinished(input)
  {
  }

  datatype Filtered = Filtered(out: seq<Byte>, pending: seq<Byte>)

  function Filter(input: seq<Byte>): Filtered {
    if input == [] then Filtered([], [])
    else
      var n := TokenLength(input);
      if n == 0 then Filtered([], input)
      else
        var rest := Filter(input[n..]);
        Filtered((if IsControlResponse(input[..n]) then [] else input[..n]) + rest.out, rest.pending)
  }

  // ----- the program -----

  method FilterControlResponses(input: seq<Byte>) returns (out: seq<Byte>, pending: seq<Byte>)
    ensures Filtered(out, pending) == Filter(input)
  {
    out := [];
    var i := 0;
    ghost var tokens: seq<seq<Byte>> := [];
    while i < |input|
      invariant 0 <= i <= |input|
      invariant Consumed(input[..i], tokens, out)
    {
      var b := input[i];
      if b != ESC {
        tokens := Consume(input, i, i + 1, tokens, out);
        assert input[i..i + 1] == [b];
        out := out + [b];
        i := i + 1;
        continue;
      }
      if i + 1 >= |input| {
        Conclude(input, i, tokens, out);
        return out, input[i..];
      }
      if input[i + 1] != BRACKET {
        tokens := Consume(input, i, i + 2, tokens, out);
        assert input[i..i + 2] == [input[i], input[i + 1]];
        out := out + [input[i], input[i + 1]];
        i := i + 2;
        continue;
      }
      var end := FindFinal(input, i + 2);
      SequenceAt(input, i, end);
      if end >= |input| {
        Conclude(input, i, tokens, out);
        return out, input[i..];
      }
      tokens := Consume(input, i, end + 1, tokens, out);
      var s := input[i..end + 1];
      if !IsControlResponse(s) {
        out := out + s;
      }
      i := end + 1;
    }
    Conclude(input, i, tokens, out);
    pending := [];
  }

  /** From introducer to final byte is one token; without a final byte, unfinished. */
  lemma SequenceAt(input: seq<Byte>, i: nat, end: nat)
    requires i + 2 <= |input| && input[i] == ESC && input[i + 1] == BRACKET && end == FinalIndex(input, i + 2)
    ensures end < |input| ==> IsToken(input[i..end + 1])
    ensures end == |input| ==> Unfinished(input[i..])
  {
    if end < |input| {
      var t := input[i..end + 1];
      assert t[|t| - 1] == input[end];
      assert forall k :: 2 <= k < |t| - 1 ==> t[k] == input[i + k];
    } else {
      var r := input[i..];
      assert forall k :: 2 <= k < |r| ==> r[k] == input[i + k];
    }
  }

  /** What the loop has read is a list of whole tokens, and what it has emitted are
      those that are not responses. */
  ghost predicate Consumed(done: seq<Byte>, tokens: seq<seq<Byte>>, out: seq<Byte>) {
    && (forall i :: 0 <= i < |tokens| ==> IsToken(tokens[i]))
    && Flatten(tokens) == done
    && Flatten(Kept(tokens)) == out
  }

  function Surviving(s: seq<Byte>): seq<Byte> { if IsControlResponse(s) then [] else s }

  lemma Consume(input: seq<Byte>, i: nat, j: nat, tokens: seq<seq<Byte>>, out: seq<Byte>) returns (more: seq<seq<Byte>>)
    requires i < j <= |input| && IsToken(input[i..j])
    requires Consumed(input[..i], tokens, out)
    ensures Consumed(input[..j], more, out + Surviving(input[i..j]))
    ensures out + [] == out
    ensures j - i < 3 ==> Surviving(input[i..j]) == input[i..j]
  {
    var t := input[i..j];
    more := tokens + [t];
    var one := [t];
    FlattenConcat(tokens, one);
    KeptConcat(tokens, one);
    FlattenConcat(Kept(tokens), Kept(one));
    assert |one[1..]| == 0;
    assert Flatten(one) == t && Flatten(Kept(one)) == Surviving(t);
    assert input[..i] + t == input[..j];
  }

  lemma Conclude(input: seq<Byte>, i: nat, tokens: seq<seq<Byte>>, out: seq<Byte>)
    requires i <= |input| && Unfinished(input[i..])
    requires Consumed(input[..i], tokens, out)
    ensures Filter(input) == Filtered(out, input[i..])
  {
    assert input[..i] + input[i..] == input;
    FilterMeaning(input, tokens, input[i..]);
  }

  /** The inner scan for a control sequence's final byte. */
  method FindFinal(input: seq<Byte>, from: nat) returns (end: nat)
    requires from <= |input|
    ensures end == FinalIndex(input, from)
  {
    end := from;
    while end < |input|
      invariant from <= end <= |input|
      invariant FinalIndex(input, from) == FinalIndex(input, end)
    {
      var c := input[end];
      if c >= 0x40 && c <= 0x7E {
        break;
      }
      end := end + 1;
    }
  }

  // ----- correctness against the grammar -----

  lemma TokenFirst(t: seq<Byte>, s: seq<Byte>)
    requires IsToken(t)
    ensures TokenLength(t + s) == |t|
  {
    var all := t + s;
    assert all[0] == t[0];
    if |t| >= 2 { assert all[1] == t[1]; }
    if |t| >= 3 {
      var e := FinalIndex(all, 2);
      assert all[|t| - 1] == t[|t| - 1];
      assert forall i :: 2 <= i < |t| - 1 ==> all[i] == t[i];
      assert e == |t| - 1;
    }
  }

  /** Whatever way an input is cut into complete tokens and an unfinished rest,
      the filter emits exactly the tokens that are not responses and holds back
      exactly the rest: only whole classified responses are ever removed. */
  lemma {:induction false} FilterMeaning(input: seq<Byte>, tokens: seq<seq<Byte>>, rest: seq<Byte>)
    requires Lexed(input, tokens, rest)
    ensures Filter(input) == Filtered(Flatten(Kept(tokens)), rest)
    decreases |tokens|
  {
    if tokens == [] {
      assert input == rest;
      if rest != [] && TokenLength(rest) > 0 {
        UnfinishedHasNoToken(rest);
        assert false;
      }
    } else {
      var t := tokens[0];
      assert IsToken(t);
      var tail := Flatten(tokens[1..]) + rest;
      assert input == t + tail;
      TokenFirst(t, tail);
      assert input[..|t|] == t && input[|t|..] == tail;
      FilterMeaning(tail, tokens[1..], rest);
      KeptCons(tokens);
    }
  }

  lemma KeptCons(tokens: seq<seq<Byte>>)
    requires tokens != []
    ensures Flatten(Kept(tokens)) ==
            (if IsControlResponse(tokens[0]) then [] else tokens[0]) + Flatten(Kept(tokens[1..]))
  {
    var k := Kept(tokens[1..]);
    if !IsControlResponse(tokens[0]) {
      assert ([tokens[0]] + k)[1..] == k;
    } else {
      assert [] + k == k;
    }
  }

  lemma UnfinishedHasNoToken(r: seq<Byte>)
    requires Unfinished(r) && r != []
    ensures TokenLength(r) == 0
  {
  }

  /** And every input can be cut that way. */
  lemma {:induction false} CanLex(input: seq<Byte>) returns (tokens: seq<seq<Byte>>, rest: seq<Byte>)
    ensures Lexed(input, tokens, rest)
    decreases |input|
  {
    if input == [] || TokenLength(input) == 0 {
      if input != [] { TokenLengthSound(input); }
      tokens, rest := [], input;
    } else {
      TokenLengthSound(input);
      var n := TokenLength(input);
      var more;
      more, rest := CanLex(input[n..]);
      tokens := [input[..n]] + more;
      LexedCons(input, n, more, rest);
    }
  }

  lemma LexedCons(input: seq<Byte>, n: nat, more: seq<seq<Byte>>, rest: seq<Byte>)
    requires n <= |input| && IsToken(input[..n]) && Lexed(input[n..], more, rest)
    ensures Lexed(input, [input[..n]] + more, rest)
  {
    var tokens := [input[..n]] + more;
    assert tokens[1..] == more;
    assert Flatten(tokens) + rest == input[..n] + (Flatten(more) + rest);
  }

  // ----- against the documented shapes -----

  /** The tokens that the documented filter would pass through. */
  function KeptAsDocumented(tokens: seq<seq<Byte>>): seq<seq<Byte>> {
    if tokens == [] then []
    else (if Documented(tokens[0]) then [] else [tokens[0]]) + KeptAsDocumented(tokens[1..])
  }

  function FlatLength(tokens: seq<seq<Byte>>): nat {
    if tokens == [] then 0 else |tokens[0]| + FlatLength(tokens[1..])
  }

  lemma {:induction false} FlattenLength(tokens: seq<seq<Byte>>)
    ensures |Flatten(tokens)| == FlatLength(tokens)
  {
    if tokens != [] { FlattenLength(tokens[1..]); }
  }

  lemma FlatLengthCons(keep: bool, t: seq<Byte>, more: seq<seq<Byte>>)
    ensures FlatLength((if keep then [t] else []) + more) == (if keep then |t| else 0) + FlatLength(more)
  {
    if keep { assert ([t] + more)[1..] == more; } else { assert [] + more == more; }
  }

  lemma {:induction false} StraysAreLost(tokens: seq<seq<Byte>>)
    ensures FlatLength(Kept(tokens)) <= FlatLength(KeptAsDocumented(tokens))
    ensures FlatLength(Kept(tokens)) == FlatLength(KeptAsDocumented(tokens)) <==>
            forall i :: 0 <= i < |tokens| ==> !StrayReport(tokens[i])
    ensures (forall i :: 0 <= i < |tokens| ==> !StrayReport(tokens[i])) ==> Kept(tokens) == KeptAsDocumented(tokens)
  {
    if tokens != [] {
      var t, more := tokens[0], tokens[1..];
      StraysAreLost(more);
      RecognisedIff(t);
      FlatLengthCons(!IsControlResponse(t), t, Kept(more));
      FlatLengthCons(!Documented(t), t, KeptAsDocumented(more));
      assert tokens == [t] + more;
      assert (forall i :: 0 <= i < |tokens| ==> !StrayReport(tokens[i])) <==>
             !StrayReport(t) && forall i :: 0 <= i < |more| ==> !StrayReport(more[i]);
    }
  }

  /** The filter drops exactly what is documented iff no stray report is among the
      input's tokens; otherwise those are lost as well. */
  lemma FilterAsDocumentedIff(input: seq<Byte>, tokens: seq<seq<Byte>>, rest: seq<Byte>)
    requires Lexed(input, tokens, rest)
    ensures Filter(input).out == Flatten(KeptAsDocumented(tokens)) <==>
            forall i :: 0 <= i < |tokens| ==> !StrayReport(tokens[i])
  {
    FilterMeaning(input, tokens, rest);
    StraysAreLost(tokens);
    FlattenLength(Kept(tokens));
    FlattenLength(KeptAsDocumented(tokens));
  }

  /** A witness: the bare final byte. */
  lemma BareReportIsLost()
    ensures StrayReport([ESC, BRACKET, 0x52]) && Filter([ESC, BRACKET, 0x52]) == Filtered([], [])
  {
    var s: seq<Byte> := [ESC, BRACKET, 0x52];
    assert s[2..2] == [];
    assert TokenLength(s) == 3;
    assert s[..3] == s && s[3..] == [];
  }

  // ----- chunking -----

  lemma {:induction false} FlattenConcat(a: seq<seq<Byte>>, b: seq<seq<Byte>>)
    ensures Flatten(a + b) == Flatten(a) + Flatten(b)
  {
    if a == [] {
      assert a + b == b;
    } else {
      assert (a + b)[1..] == a[1..] + b;
      FlattenConcat(a[1..], b);
    }
  }

  lemma {:induction false} KeptConcat(a: seq<seq<Byte>>, b: seq<seq<Byte>>)
    ensures Kept(a + b) == Kept(a) + Kept(b)
  {
    if a == [] {
      assert a + b == b;
    } else {
      assert (a + b)[1..] == a[1..] + b;
      KeptConcat(a[1..], b);
    }
  }

  /** Reading in two pieces, carrying the pending bytes over, is reading at once:
      same total output, same bytes still pending. */
  lemma ChunkInvariant(a: seq<Byte>, b: seq<Byte>)
    ensures var first := Filter(a);
            var second := Filter(first.pending + b);
            Filter(a + b) == Filtered(first.out + second.out, second.pending)
  {
    var ts, rest := CanLex(a);
    var ts', rest' := CanLex(rest + b);
    FlattenConcat(ts, ts');
    KeptConcat(ts, ts');
    FlattenConcat(Kept(ts), Kept(ts'));
    Resplit(Flatten(ts), rest, b, Flatten(ts'), rest');
    FilterMeaning(a, ts, rest);
    FilterMeaning(rest + b, ts', rest');
    FilterMeaning(a + b, ts + ts', rest');
  }

  lemma Resplit(x: seq<Byte>, rest: seq<Byte>, b: seq<Byte>, y: seq<Byte>, rest': seq<Byte>)
    requires rest + b == y + rest'
    ensures x + rest + b == x + y + rest'
  {
    assert x + rest + b == x + (rest + b);
    assert x + y + rest' == x + (y + rest');
  }

  /** The stdin bridge: filter each read behind the carried bytes, forward what
      passes, and at end of input forward what is still pending. */
  method BridgeStdin(chunks: seq<seq<Byte>>) returns (forwarded: seq<Byte>)
    ensures forwarded == Filter(Concat(chunks)).out + Filter(Concat(chunks)).pending
  {
    forwarded := [];
    var pending: seq<Byte> := [];
    for k := 0 to |chunks|
      invariant Filtered(forwarded, pending) == Filter(Concat(chunks[..k]))
    {
      assert chunks[..k + 1][..k] == chunks[..k];
      ChunkInvariant(Concat(chunks[..k]), chunks[k]);
      var input := pending + chunks[k];
      var filtered;
      filtered, pending := FilterControlResponses(input);
      forwarded := forwarded + filtered;
    }
    assert chunks[..|chunks|] == chunks;
    forwarded := forwarded + pending;
  }

  // ----- idempotence -----

  lemma {:induction false} KeptTokens(tokens: seq<seq<Byte>>)
    requires forall i :: 0 <= i < |tokens| ==> IsToken(tokens[i])
    ensures forall i :: 0 <= i < |Kept(tokens)| ==> IsToken(Kept(tokens)[i])
    ensures Kept(Kept(tokens)) == Kept(tokens)
  {
    if tokens != [] {
      var rest := Kept(tokens[1..]);
      KeptTokens(tokens[1..]);
      if !IsControlResponse(tokens[0]) {
        assert ([tokens[0]] + rest)[1..] == rest;
      } else {
        assert [] + rest == rest;
      }
    }
  }

  /** What passed the filter passes again unchanged, with nothing held back:
      removing a response never splices its neighbours into a new sequence. */
  lemma OutputIsFixedPoint(input: seq<Byte>)
    ensures Filter(Filter(input).out) == Filtered(Filter(input).out, [])
  {
    var tokens, rest := CanLex(input);
    FilterMeaning(input, tokens, rest);
    KeptTokens(tokens);
    var kept := Kept(tokens);
    assert Flatten(kept) + [] == Flatten(kept);
    FilterMeaning(Flatten(kept), kept, []);
  }

  // ----- the filter, byte by byte -----

  /** None of the bytes that end a control sequence. */
  predicate NoEnd(s: seq<Byte>) { forall i :: 0 <= i < |s| ==> s[i] < 0x40 || 0x7E < s[i] }

  /** What becomes of a sequence with these parameters and this final byte. */
  predicate Removed(params: seq<Byte>, final: Byte) {
    || final == 0x52
    || (final == 0x63 && params != [] && params[0] in {0x3f, 0x3e})
    || (final in {0x49, 0x4f} && params == [])
  }

  lemma SequenceIsToken(params: seq<Byte>, final: Byte)
    requires NoEnd(params) && 0x40 <= final <= 0x7E
    ensures IsToken([0x1b, 0x5b] + params + [final])
    ensures IsControlResponse([0x1b, 0x5b] + params + [final]) <==> Removed(params, final)
  {
    var s := [0x1b, 0x5b] + params + [final];
    assert s[2..|s| - 1] == params;
    assert forall i :: 2 <= i < |s| - 1 ==> s[i] == params[i - 2];
  }

  lemma FilterToken(t: seq<Byte>, rest: seq<Byte>)
    requires IsToken(t)
    ensures Filter(t + rest) ==
            Filtered((if IsControlResponse(t) then [] else t) + Filter(rest).out, Filter(rest).pending)
  {
    TokenFirst(t, rest);
    assert (t + rest)[..|t|] == t && (t + rest)[|t|..] == rest;
  }

  /** A whole control sequence passes, except the four kinds of response. */
  lemma SequenceFiltered(params: seq<Byte>, final: Byte, rest: seq<Byte>)
    requires NoEnd(params) && 0x40 <= final <= 0x7E
    ensures var s := [0x1b, 0x5b] + params + [final];
            Filter(s + rest) ==
            Filtered((if Removed(params, final) then [] else s) + Filter(rest).out, Filter(rest).pending)
  {
    SequenceIsToken(params, final);
    FilterToken([0x1b, 0x5b] + params + [final], rest);
  }

  /** A plain byte passes, and an escape with anything but a bracket passes with it. */
  lemma OthersPass(b: Byte, rest: seq<Byte>)
    ensures b != 0x1b ==> Filter([b] + rest) == Filtered([b] + Filter(rest).out, Filter(rest).pending)
    ensures b != 0x5b ==> Filter([0x1b, b] + rest) == Filtered([0x1b, b] + Filter(rest).out, Filter(rest).pending)
  {
    if b != 0x1b { FilterToken([b], rest); }
    if b != 0x5b { FilterToken([0x1b, b], rest); }
  }

  /** What is held back at the end: an escape, or a sequence whose end has not come. */
  lemma UnfinishedIsPending(params: seq<Byte>)
    requires NoEnd(params)
    ensures Filter([]) == Filtered([], []) && Filter([0x1b]) == Filtered([], [0x1b])
    ensures Filter([0x1b, 0x5b] + params) == Filtered([], [0x1b, 0x5b] + params)
  {
    var s := [0x1b, 0x5b] + params;
    assert forall i :: 2 <= i < |s| ==> s[i] == params[i - 2];
    assert Unfinished(s);
    UnfinishedHasNoToken(s);
  }

  /** A cursor report in the documented form, and what it takes to be one. */
  lemma ReportsSpelledOut(row: seq<Byte>, column: seq<Byte>, s: seq<Byte>)
    ensures row != [] && column != [] &&
            (forall i :: 0 <= i < |row| ==> 0x30 <= row[i] <= 0x39) &&
            (forall i :: 0 <= i < |column| ==> 0x30 <= column[i] <= 0x39) ==>
              Documented([0x1b, 0x5b] + (row + [0x3b] + column) + [0x52])
    ensures Documented(s) && s[|s| - 1] == 0x52 ==>
              exists k :: 2 < k < |s| - 2 && s[k] == 0x3b &&
                forall i :: 2 <= i < |s| - 1 && i != k ==> 0x30 <= s[i] <= 0x39
  {
    var body := row + [0x3b] + column;
    var report := [0x1b, 0x5b] + body + [0x52];
    assert report[2..|report| - 1] == body;
    assert body[|row|] == 0x3b && body[..|row|] == row && body[|row| + 1..] == column;
    if Documented(s) && s[|s| - 1] == 0x52 {
      ReportShape(s);
    }
  }

  lemma ReportShape(s: seq<Byte>)
    requires Documented(s) && s[|s| - 1] == 0x52
    ensures exists k :: 2 < k < |s| - 2 && s[k] == 0x3b &&
              forall i :: 2 <= i < |s| - 1 && i != k ==> 0x30 <= s[i] <= 0x39
  {
    var body := s[2..|s| - 1];
    var k :| 0 <= k < |body| && body[k] == 0x3b && Digits(body[..k]) && Digits(body[k + 1..]);
    forall i | 2 <= i < |s| - 1 && i != k + 2 ensures 0x30 <= s[i] <= 0x39 {
      if i < k + 2 { assert s[i] == body[..k][i - 2]; } else { assert s[i] == body[k + 1..][i - k - 3]; }
    }
    assert s[k + 2] == 0x3b;
  }
}
