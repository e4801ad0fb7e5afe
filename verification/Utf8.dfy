/** Cutting a byte stream at character boundaries: the publisher's splitter
    (internal/cli/terminal_utf8.go) and the screen model's independent one
    (internal/cliproto/screen.go). UTF-8 is that of sections 3 and 4 of RFC 3629. */
module Utf8 {
  import opened Common

  predicate Tail(b: Byte) { 0x80 <= b <= 0xBF }

  /** The length a lead byte announces. */
  function Expected(lead: Byte): (n: nat)
    ensures 1 <= n <= 4
  {
    if lead < 0x80 then 1 else if lead < 0xE0 then 2 else if lead < 0xF0 then 3 else 4
  }

  /** One character, by the grammar of RFC 3629 section 4. */
  predicate IsRune(s: seq<Byte>) {
    || (|s| == 1 && s[0] <= 0x7F)
    || (|s| == 2 && 0xC2 <= s[0] <= 0xDF && Tail(s[1]))
    || (|s| == 3 && Tail(s[2]) &&
        ((s[0] == 0xE0 && 0xA0 <= s[1] <= 0xBF) || (0xE1 <= s[0] <= 0xEC && Tail(s[1])) ||
         (s[0] == 0xED && 0x80 <= s[1] <= 0x9F) || (0xEE <= s[0] <= 0xEF && Tail(s[1]))))
    || (|s| == 4 && Tail(s[2]) && Tail(s[3]) &&
        ((s[0] == 0xF0 && 0x90 <= s[1] <= 0xBF) || (0xF1 <= s[0] <= 0xF3 && Tail(s[1])) ||
         (s[0] == 0xF4 && 0x80 <= s[1] <= 0x8F)))
  }

  /** The host's DecodeRune succeeds: a whole character at the front. */
  predicate StartsWithRune(s: seq<Byte>) {
    s != [] && |s| >= Expected(s[0]) && IsRune(s[..Expected(s[0])])
  }

  predicate Valid(s: seq<Byte>) {
    s == [] || (StartsWithRune(s) && Valid(s[Expected(s[0])..]))
  }

  /** Some continuation makes it valid: what a read boundary can leave behind. */
  ghost predicate PrefixOfValid(b: seq<Byte>) {
    exists t :: Valid(b + t)
  }

  // ----- the two splitters as functions -----

  /** How many trailing bytes the publisher holds back, scanning from `back`. */
  function HeldFrom(b: seq<Byte>, back: nat): (n: nat)
    requires back >= 1
    ensures n <= 3 && n <= |b|
    decreases 5 - back
  {
    if back > 4 || back > |b| then 0
    else
      var c := b[|b| - back];
      if c < 0x80 then 0
      else if c >= 0xC0 then (if back < Expected(c) then back else 0)
      else HeldFrom(b, back + 1)
  }

  function Held(b: seq<Byte>): (n: nat)
    ensures n <= 3 && n <= |b|
  {
    HeldFrom(b, 1)
  }

  /** The same for the screen model, which asks the decoder instead. */
  function ScreenHeldFrom(b: seq<Byte>, back: nat): (n: nat)
    requires back >= 1
    ensures n <= 4 && n <= |b|
    decreases 5 - back
  {
    if back > 4 || back > |b| then 0
    else
      var i := |b| - back;
      if b[i] < 0x80 then 0
      else if Tail(b[i]) then ScreenHeldFrom(b, back + 1)
      else if StartsWithRune(b[i..]) then 0
      else back
  }

  function ScreenHeld(b: seq<Byte>): (n: nat)
    ensures n <= 4 && n <= |b|
  {
    ScreenHeldFrom(b, 1)
  }

  // ----- the programs -----

  method SplitOnUtf8Boundary(b: seq<Byte>) returns (complete: seq<Byte>, pending: seq<Byte>)
    ensures complete == b[..|b| - Held(b)] && pending == b[|b| - Held(b)..]
  {
    if |b| == 0 {
      return [], [];
    }
    var minScan := if |b| - 4 < 0 then 0 else |b| - 4;
    var i := |b| - 1;
    while i >= minScan
      invariant minScan - 1 <= i < |b|
      invariant Held(b) == HeldFrom(b, |b| - i)
      decreases i
    {
      var c := b[i];
      if c < 0x80 {
        return b, [];
      } else if c >= 0xC0 {
        var expected := 4;
        if c < 0xE0 {
          expected := 2;
        } else if c < 0xF0 {
          expected := 3;
        }
        var actual := |b| - i;
        if actual < expected {
          return b[..i], b[i..];
        }
        return b, [];
      }
      i := i - 1;
    }
    return b, [];
  }

  method SplitTrailingPartialRune(b: seq<Byte>) returns (complete: seq<Byte>, partial: seq<Byte>)
    ensures complete == b[..|b| - ScreenHeld(b)] && partial == b[|b| - ScreenHeld(b)..]
  {
    var back := 1;
    while back <= 4 && back <= |b|
      invariant 1 <= back <= 5
      invariant ScreenHeld(b) == ScreenHeldFrom(b, back)
    {
      var i := |b| - back;
      var c := b[i];
      if c < 0x80 {
        return b, [];
      }
      if !Tail(c) {
        if StartsWithRune(b[i..]) {
          return b, [];
        }
        return b[..i], b[i..];
      }
      back := back + 1;
    }
    return b, [];
  }

  // ----- the reference: greedy decoding from the front -----

  /** The length of the longest prefix made of whole characters. */
  function Cut(b: seq<Byte>): (n: nat)
    ensures n <= |b| && Valid(b[..n])
  {
    if StartsWithRune(b) then
      var n := Expected(b[0]);
      var m := Cut(b[n..]);
      assert b[..n + m][..n] == b[..n];
      assert b[..n + m][n..] == b[n..][..m];
      n + m
    else 0
  }

  /** The beginning of a character, cut short. */
  predicate Partial(r: seq<Byte>) {
    && 1 <= |r| < 4 && r[0] >= 0xC2 && |r| < Expected(r[0])
    && forall i :: 1 <= i < |r| ==> Tail(r[i])
  }

  lemma RuneShape(q: seq<Byte>)
    requires IsRune(q)
    ensures |q| == Expected(q[0]) && (q[0] < 0x80 || q[0] >= 0xC2)
    ensures forall i :: 1 <= i < |q| ==> Tail(q[i])
  {
  }

  lemma CutInside(b: seq<Byte>, n: nat, t: seq<Byte>)
    requires n <= |b|
    ensures (b + t)[..n] == b[..n] && (b + t)[n..] == b[n..] + t
  {
  }

  lemma DropTwice(b: seq<Byte>, n: nat, m: nat)
    requires n <= |b| && m <= |b| - n
    ensures b[n..][m..] == b[n + m..]
  {
  }

  /** What greedy decoding leaves of a prefix of valid text is one cut character. */
  lemma {:induction false} RestIsPartial(b: seq<Byte>, t: seq<Byte>)
    requires Valid(b + t)
    ensures Cut(b) == |b| || Partial(b[Cut(b)..])
    decreases |b|
  {
    if b != [] {
      var all := b + t;
      var n := Expected(b[0]);
      assert all[0] == b[0];
      if |b| >= n {
        CutInside(b, n, t);
        RestIsPartial(b[n..], t);
        DropTwice(b, n, Cut(b[n..]));
      } else {
        RuneShape(all[..n]);
        assert forall i :: 1 <= i < |b| ==> all[..n][i] == b[i];
        assert b[0..] == b;
      }
    }
  }

  /** The last character of valid text. */
  lemma {:induction false} LastRune(v: seq<Byte>) returns (w: seq<Byte>, q: seq<Byte>)
    requires Valid(v) && v != []
    ensures v == w + q && IsRune(q)
    decreases |v|
  {
    var n := Expected(v[0]);
    if |v| == n {
      w, q := [], v;
      assert v[..n] == v;
    } else {
      w, q := LastRune(v[n..]);
      w := v[..n] + w;
      assert v == v[..n] + v[n..];
    }
  }

  /** Both backward scans stop at the last byte that is not a continuation. */
  lemma {:induction false} ScanStops(b: seq<Byte>, k: nat, back: nat)
    requires 1 <= back <= k <= 4 && k <= |b|
    requires !Tail(b[|b| - k])
    requires forall i :: |b| - k < i < |b| ==> Tail(b[i])
    ensures HeldFrom(b, back) == HeldFrom(b, k) && ScreenHeldFrom(b, back) == ScreenHeldFrom(b, k)
    decreases k - back
  {
    if back < k {
      assert Tail(b[|b| - back]);
      ScanStops(b, k, back + 1);
    }
  }

  lemma SplitAtPartial(v: seq<Byte>, r: seq<Byte>)
    requires Partial(r)
    ensures Held(v + r) == ScreenHeld(v + r) == |r|
  {
    LeadOfLast(v, r);
    HeldAtLead(v + r, |r|);
  }

  lemma SplitAfterRune(w: seq<Byte>, q: seq<Byte>)
    requires IsRune(q)
    ensures Held(w + q) == ScreenHeld(w + q) == 0
  {
    RuneShape(q);
    LeadOfLast(w, q);
    HeldAtLead(w + q, |q|);
    assert q[..|q|] == q;
  }

  lemma LeadOfLast(w: seq<Byte>, q: seq<Byte>)
    requires 1 <= |q| <= 4 && !Tail(q[0]) && forall i :: 1 <= i < |q| ==> Tail(q[i])
    ensures LastLead(w + q, |q|) && (w + q)[|w|..] == q
  {
    var b := w + q;
    forall i | |w| < i < |b| ensures Tail(b[i]) { assert b[i] == q[i - |w|]; }
  }

  /** On every prefix of valid text the two independent splitters agree with each
      other and with greedy decoding, and hold back at most three bytes. */
  lemma SplittersAgree(b: seq<Byte>)
    requires PrefixOfValid(b)
    ensures Held(b) == ScreenHeld(b) == |b| - Cut(b)
  {
    CutShape(b);
    var n := Cut(b);
    if n < |b| {
      HeldAt(b, n);
    } else {
      assert b[..n] == b;
      NothingHeld(b);
    }
  }

  lemma CutShape(b: seq<Byte>)
    requires PrefixOfValid(b)
    ensures Cut(b) == |b| || Partial(b[Cut(b)..])
  {
    var t :| Valid(b + t);
    RestIsPartial(b, t);
  }

  lemma HeldAt(b: seq<Byte>, n: nat)
    requires n < |b| && Partial(b[n..])
    ensures Held(b) == ScreenHeld(b) == |b| - n
  {
    assert b == b[..n] + b[n..];
    SplitAtPartial(b[..n], b[n..]);
  }

  lemma NothingHeld(b: seq<Byte>)
    requires Valid(b)
    ensures Held(b) == ScreenHeld(b) == 0
  {
    if b != [] {
      var w, q := LastRune(b);
      SplitAfterRune(w, q);
    }
  }

  // ----- arbitrary bytes -----

  /** The last byte that is not a continuation is the k-th from the end, within
      the four bytes either splitter looks at. */
  predicate LastLead(b: seq<Byte>, k: nat) {
    && 1 <= k <= 4 && k <= |b| && !Tail(b[|b| - k])
    && forall i :: |b| - k < i < |b| ==> Tail(b[i])
  }

  lemma NoLaterLead(b: seq<Byte>, k: nat, j: nat)
    requires LastLead(b, k) && j < k
    ensures !LastLead(b, j)
  {
    assert j >= 1 ==> Tail(b[|b| - j]);
  }

  lemma {:induction false} NoLeadNothingHeld(b: seq<Byte>, back: nat)
    requires 1 <= back <= 5 && forall k: nat :: !LastLead(b, k)
    requires forall i :: 0 <= i < |b| && |b| - back < i ==> Tail(b[i])
    ensures HeldFrom(b, back) == 0 && ScreenHeldFrom(b, back) == 0
    decreases 5 - back
  {
    if back <= 4 && back <= |b| {
      assert !LastLead(b, back);
      NoLeadNothingHeld(b, back + 1);
    }
  }

  /** What each splitter does at the lead byte it stops at. */
  lemma HeldAtLead(b: seq<Byte>, k: nat)
    requires LastLead(b, k)
    ensures Held(b) == if b[|b| - k] >= 0xC0 && k < Expected(b[|b| - k]) then k else 0
    ensures ScreenHeld(b) == if b[|b| - k] >= 0xC0 && !StartsWithRune(b[|b| - k..]) then k else 0
  {
    ScanStops(b, k, 1);
  }

  /** On arbitrary bytes the splitters agree exactly when every finished-looking last
      sequence - one with as many bytes as its lead announces - is a real character.
      Otherwise the screen holds back bytes that no continuation can complete. */
  lemma SplittersAgreeIff(b: seq<Byte>)
    ensures Held(b) == ScreenHeld(b) <==>
            forall k: nat :: LastLead(b, k) && b[|b| - k] >= 0xC0 && k >= Expected(b[|b| - k]) ==>
              StartsWithRune(b[|b| - k..])
  {
    if k: nat :| LastLead(b, k) {
      HeldAtLead(b, k);
      forall j: nat | LastLead(b, j) ensures j == k {
        if j < k { NoLaterLead(b, k, j); } else if k < j { NoLaterLead(b, j, k); }
      }
    } else {
      NoLeadNothingHeld(b, 1);
    }
  }

  /** A witness: a lead byte no character starts with, and its announced tail. */
  lemma SplittersDifferOnJunk()
    ensures Held([0xC0, 0x80]) == 0 && ScreenHeld([0xC0, 0x80]) == 2
  {
    var b: seq<Byte> := [0xC0, 0x80];
    assert b[0..] == b && b[..2] == b;
    HeldAtLead(b, 2);
  }

  // ----- streams -----

  lemma {:induction false} ValidConcat(a: seq<Byte>, b: seq<Byte>)
    requires Valid(a)
    ensures Valid(a + b) <==> Valid(b)
    ensures Cut(a + b) == |a| + Cut(b)
    decreases |a|
  {
    if a == [] {
      assert a + b == b;
    } else {
      var n := Expected(a[0]);
      assert (a + b)[..n] == a[..n];
      assert (a + b)[n..] == a[n..] + b;
      ValidConcat(a[n..], b);
    }
  }

  lemma PrefixStep(a: seq<Byte>, b: seq<Byte>)
    requires Valid(a) && PrefixOfValid(a + b)
    ensures PrefixOfValid(b)
  {
    var t :| Valid(a + b + t);
    assert a + b + t == a + (b + t);
    ValidConcat(a, b + t);
  }

  lemma ShorterPrefix(a: seq<Byte>, b: seq<Byte>)
    requires PrefixOfValid(a + b)
    ensures PrefixOfValid(a)
  {
    var t :| Valid(a + b + t);
    assert a + b + t == a + (b + t);
  }

  /** One step of either carry loop: splitting the carried bytes plus a new chunk
      leaves exactly what greedy decoding of the whole stream leaves. */
  lemma CarryStep(stream: seq<Byte>, chunk: seq<Byte>)
    requires PrefixOfValid(stream + chunk)
    ensures var merged := stream[Cut(stream)..] + chunk;
            && PrefixOfValid(merged)
            && Held(merged) == ScreenHeld(merged) == |merged| - Cut(merged)
            && Cut(stream + chunk) == Cut(stream) + Cut(merged)
            && Valid(merged[..Cut(merged)])
            && merged[Cut(merged)..] == (stream + chunk)[Cut(stream + chunk)..]
  {
    var n := Cut(stream);
    var merged := stream[n..] + chunk;
    SplitAround(stream, n, chunk);
    ValidConcat(stream[..n], merged);
    PrefixStep(stream[..n], merged);
    SplittersAgree(merged);
    DropBoth(stream[..n], merged, Cut(merged));
  }

  lemma SplitAround(stream: seq<Byte>, n: nat, chunk: seq<Byte>)
    requires n <= |stream|
    ensures stream + chunk == stream[..n] + (stream[n..] + chunk)
  {
  }

  lemma DropBoth(a: seq<Byte>, b: seq<Byte>, m: nat)
    requires m <= |b|
    ensures (a + b)[|a| + m..] == b[m..]
  {
  }

  /** A carry loop part-way: everything read has been emitted or is carried, and on
      text the carry is exactly the cut character. */
  ghost predicate Carried(stream: seq<Byte>, emitted: seq<Byte>, pending: seq<Byte>) {
    && emitted + pending == stream
    && (PrefixOfValid(stream) ==> pending == stream[Cut(stream)..])
  }

  /** Either splitter keeps that up, emitting only whole characters. */
  lemma CarryKept(stream: seq<Byte>, emitted: seq<Byte>, pending: seq<Byte>, chunk: seq<Byte>,
                  complete: seq<Byte>, partial: seq<Byte>)
    requires Carried(stream, emitted, pending)
    requires complete + partial == pending + chunk
    requires |partial| == Held(pending + chunk) || |partial| == ScreenHeld(pending + chunk)
    ensures Carried(stream + chunk, emitted + complete, partial)
    ensures PrefixOfValid(stream + chunk) ==> Valid(complete) && |partial| <= 3 && PrefixOfValid(stream)
  {
    assert emitted + complete + partial == emitted + (pending + chunk) == (emitted + pending) + chunk;
    if PrefixOfValid(stream + chunk) {
      ShorterPrefix(stream, chunk);
      CarryStep(stream, chunk);
      var merged := pending + chunk;
      assert merged[..|complete|] == complete && merged[|complete|..] == partial;
    }
  }

  lemma ConcatSnoc(chunks: seq<seq<Byte>>, c: seq<Byte>)
    ensures Concat(chunks + [c]) == Concat(chunks) + c
  {
    assert (chunks + [c])[..|chunks|] == chunks;
  }

  predicate AllValid(chunks: seq<seq<Byte>>) {
    forall i :: 0 <= i < |chunks| ==> Valid(chunks[i])
  }

  lemma CompleteStream(stream: seq<Byte>)
    requires Valid(stream)
    ensures PrefixOfValid(stream) && Cut(stream) == |stream|
  {
    ValidConcat(stream, []);
    assert stream + [] == stream;
  }

  /** The PTY publisher. Whatever the bytes, nothing is lost, added or reordered;
      if the whole stream is valid text then, however the reads fall, every
      published chunk is itself valid text and nothing is left over. */
  method PublishStdout(chunks: seq<seq<Byte>>) returns (published: seq<seq<Byte>>)
    ensures Concat(published) == Concat(chunks)
    ensures forall i :: 0 <= i < |published| ==> published[i] != []
    ensures Valid(Concat(chunks)) ==> AllValid(published)
  {
    published := [];
    var pending: seq<Byte> := [];
    for k := 0 to |chunks|
      invariant Publishing(Concat(chunks[..k]), published, pending)
    {
      assert chunks[..k + 1][..k] == chunks[..k];
      published, pending := PublishOne(published, pending, chunks[k], Concat(chunks[..k]));
    }
    assert chunks[..|chunks|] == chunks;
    if Valid(Concat(chunks)) {
      CompleteStream(Concat(chunks));
    }
    published := Publish(published, pending);
  }

  ghost predicate Publishing(stream: seq<Byte>, published: seq<seq<Byte>>, pending: seq<Byte>) {
    && Carried(stream, Concat(published), pending)
    && (forall i :: 0 <= i < |published| ==> published[i] != [])
    && (PrefixOfValid(stream) ==> AllValid(published))
  }

  /** One read: splice the carry in front, split, publish what is complete. */
  method PublishOne(published: seq<seq<Byte>>, pending: seq<Byte>, chunk: seq<Byte>, ghost stream: seq<Byte>)
    returns (published': seq<seq<Byte>>, pending': seq<Byte>)
    requires Publishing(stream, published, pending)
    ensures Publishing(stream + chunk, published', pending') && |pending'| <= 3
  {
    var merged := pending + chunk;
    var complete;
    complete, pending' := SplitOnUtf8Boundary(merged);
    assert complete + pending' == merged;
    CarryKept(stream, Concat(published), pending, chunk, complete, pending');
    published' := Publish(published, complete);
  }

  method Publish(published: seq<seq<Byte>>, chunk: seq<Byte>) returns (more: seq<seq<Byte>>)
    requires forall i :: 0 <= i < |published| ==> published[i] != []
    ensures Concat(more) == Concat(published) + chunk
    ensures forall i :: 0 <= i < |more| ==> more[i] != []
    ensures AllValid(published) && Valid(chunk) ==> AllValid(more)
  {
    more := published;
    if |chunk| > 0 {
      ConcatSnoc(published, chunk);
      more := more + [chunk];
    }
  }

  lemma Appended(before: seq<Byte>, more: seq<Byte>)
    ensures before <= before + more && (before + more)[|before|..] == more
    ensures more == [] ==> before + more == before
  {
  }

  /** The screen model's feeding side; `fed` is everything its emulator received. */
  class LiveScreen {
    var fed: seq<Byte>
    var pending: seq<Byte>

    constructor ()
      ensures fed == [] && pending == []
    {
      fed, pending := [], [];
    }

    ghost predicate Consistent(stream: seq<Byte>)
      reads this
    {
      Carried(stream, fed, pending)
    }

    /** Conservation for arbitrary bytes, and on valid text the emulator never
        sees a torn character. */
    method Write(p: seq<Byte>, ghost stream: seq<Byte>) returns (n: nat)
      requires Consistent(stream)
      modifies this
      ensures n == |p|
      ensures Consistent(stream + p)
      ensures old(fed) <= fed && |pending| <= 4
      ensures PrefixOfValid(stream + p) ==> Valid(fed[|old(fed)|..]) && |pending| <= 3
    {
      var merged := p;
      if |pending| > 0 {
        merged := pending + p;
      }
      assert merged == pending + p;
      var complete, partial := SplitTrailingPartialRune(merged);
      ghost var before, carried := fed, pending;
      pending := partial;
      if |complete| > 0 {
        fed := fed + complete;
      }
      Appended(before, complete);
      assert fed == before + complete;
      CarryKept(stream, before, carried, p, complete, partial);
      n := |p|;
    }
  }

  /** Fed the same bytes in any two ways, the publisher and the screen carry the
      same pending bytes. */
  lemma CarriesAgree(stream: seq<Byte>, emitted: seq<Byte>, pending: seq<Byte>,
                     emitted': seq<Byte>, pending': seq<Byte>)
    requires PrefixOfValid(stream)
    requires Carried(stream, emitted, pending) && Carried(stream, emitted', pending')
    ensures emitted == emitted' && pending == pending'
  {
    assert emitted == stream[..|stream| - |pending|];
    assert emitted' == stream[..|stream| - |pending'|];
  }

  // ----- characters as numbers -----

  /** A Unicode scalar value. */
  predicate Scalar(c: int) { 0 <= c < 0x11_0000 && !(0xD800 <= c < 0xE000) }

  /** Its encoding, section 3 of RFC 3629: the number's bits, six to a trailing byte. */
  function Encode(c: int): (s: seq<Byte>)
    requires Scalar(c)
    ensures 1 <= |s| <= 4
  {
    if c < 0x80 then [c]
    else if c < 0x800 then [0xC0 + c / 0x40, 0x80 + c % 0x40]
    else if c < 0x1_0000 then [0xE0 + c / 0x1000, 0x80 + c / 0x40 % 0x40, 0x80 + c % 0x40]
    else [0xF0 + c / 0x4_0000, 0x80 + c / 0x1000 % 0x40, 0x80 + c / 0x40 % 0x40, 0x80 + c % 0x40]
  }

  lemma EncodingIsRune(c: int)
    requires Scalar(c)
    ensures IsRune(Encode(c)) && Expected(Encode(c)[0]) == |Encode(c)|
  {
    if c >= 0x1_0000 { WideEncoding(c); } else if c >= 0x800 { MiddleEncoding(c); }
  }

  lemma MiddleEncoding(c: int)
    requires Scalar(c) && 0x800 <= c < 0x1_0000
    ensures IsRune(Encode(c)) && Expected(Encode(c)[0]) == 3
  {
    assert 0 <= c / 0x1000 <= 0xF;
    assert c / 0x40 % 0x40 == c / 0x40 - 0x40 * (c / 0x1000);
  }

  lemma WideEncoding(c: int)
    requires Scalar(c) && 0x1_0000 <= c
    ensures IsRune(Encode(c)) && Expected(Encode(c)[0]) == 4
  {
    assert 0 <= c / 0x4_0000 <= 4;
    assert c / 0x1000 % 0x40 == c / 0x1000 - 0x40 * (c / 0x4_0000);
  }

  /** The number back from its bytes. */
  function Decode(s: seq<Byte>): int
    requires IsRune(s)
  {
    var a: int := s[0];
    if |s| == 1 then a
    else
      var b: int := s[1];
      if |s| == 2 then 0x40 * (a - 0xC0) + (b - 0x80)
      else
        var c: int := s[2];
        if |s| == 3 then 0x1000 * (a - 0xE0) + 0x40 * (b - 0x80) + (c - 0x80)
        else
          var d: int := s[3];
          0x4_0000 * (a - 0xF0) + 0x1000 * (b - 0x80) + 0x40 * (c - 0x80) + (d - 0x80)
  }

  lemma SixBits(high: int, low: int)
    requires 0 <= low < 0x40
    ensures (0x40 * high + low) / 0x40 == high && (0x40 * high + low) % 0x40 == low
  {
  }

  lemma Nested(n: int)
    ensures n / 0x1000 == n / 0x40 / 0x40 && n / 0x4_0000 == n / 0x40 / 0x40 / 0x40
  {
  }

  lemma RuneIsEncoding(s: seq<Byte>)
    requires IsRune(s)
    ensures Scalar(Decode(s)) && Encode(Decode(s)) == s
  {
    if |s| == 2 { TwoBytes(s); } else if |s| == 3 { ThreeBytes(s); } else if |s| == 4 { FourBytes(s); }
  }

  lemma TwoBytes(s: seq<Byte>)
    requires IsRune(s) && |s| == 2
    ensures Scalar(Decode(s)) && Encode(Decode(s)) == s
  {
    var a: int, b: int := s[0], s[1];
    SixBits(a - 0xC0, b - 0x80);
  }

  lemma ThreeBytes(s: seq<Byte>)
    requires IsRune(s) && |s| == 3
    ensures Scalar(Decode(s)) && Encode(Decode(s)) == s
  {
    var a: int, b: int, c: int := s[0], s[1], s[2];
    Nested(Decode(s));
    SixBits(a - 0xE0, b - 0x80);
    SixBits(0x40 * (a - 0xE0) + (b - 0x80), c - 0x80);
  }

  lemma FourBytes(s: seq<Byte>)
    requires IsRune(s) && |s| == 4
    ensures Scalar(Decode(s)) && Encode(Decode(s)) == s
  {
    var a: int, b: int, c: int, d: int := s[0], s[1], s[2], s[3];
    Nested(Decode(s));
    SixBits(a - 0xF0, b - 0x80);
    SixBits(0x40 * (a - 0xF0) + (b - 0x80), c - 0x80);
    SixBits(0x40 * (0x40 * (a - 0xF0) + (b - 0x80)) + (c - 0x80), d - 0x80);
  }

  function EncodeAll(cs: seq<int>): seq<Byte>
    requires forall i :: 0 <= i < |cs| ==> Scalar(cs[i])
  {
    if cs == [] then [] else Encode(cs[0]) + EncodeAll(cs[1..])
  }

  lemma {:induction false} EncodedIsValid(cs: seq<int>)
    requires forall i :: 0 <= i < |cs| ==> Scalar(cs[i])
    ensures Valid(EncodeAll(cs))
  {
    if cs != [] {
      var q, rest := Encode(cs[0]), EncodeAll(cs[1..]);
      EncodingIsRune(cs[0]);
      EncodedIsValid(cs[1..]);
      assert (q + rest)[..|q|] == q && (q + rest)[|q|..] == rest;
    }
  }

  lemma {:induction false} ValidIsEncoded(s: seq<Byte>) returns (cs: seq<int>)
    requires Valid(s)
    ensures forall i :: 0 <= i < |cs| ==> Scalar(cs[i])
    ensures EncodeAll(cs) == s
    decreases |s|
  {
    if s == [] {
      cs := [];
    } else {
      var n := Expected(s[0]);
      var q := s[..n];
      RuneIsEncoding(q);
      var rest := ValidIsEncoded(s[n..]);
      cs := [Decode(q)] + rest;
      assert cs[1..] == rest;
      assert s == q + s[n..];
    }
  }

  /** What the bytes at the end decide: after a lead byte and `tails` continuations, the
      piece is held back iff the lead announces more than that. */
  lemma HeldSpelledOut(w: seq<Byte>, lead: Byte, tails: seq<Byte>)
    requires |tails| <= 3 && (lead < 0x80 || lead >= 0xC0)
    requires forall i :: 0 <= i < |tails| ==> 0x80 <= tails[i] <= 0xBF
    ensures Held(w + ([lead] + tails)) ==
            if (0xC0 <= lead <= 0xDF && |tails| < 1) || (0xE0 <= lead <= 0xEF && |tails| < 2) ||
               (0xF0 <= lead && |tails| < 3)
            then 1 + |tails| else 0
  {
    LeadOfLast(w, [lead] + tails);
    HeldAtLead(w + ([lead] + tails), 1 + |tails|);
  }
}
