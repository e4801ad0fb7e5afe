/** Compiling effective access into bus permissions (internal/acl/compile.go),
    and the proof that either encoding means what the access table says. */
module Compiler {
  import opened Text
  import opened Nats
  import opened Acl

  /** One pipe: its logical path, the subject it rides on, its stream. */
  datatype PipeRef = PipeRef(path: string, subject: string, stream: string)

  /** A principal's permission on one pipe. */
  datatype PipeAccess = PipeAccess(pipe: PipeRef, perm: Perm)

  function WireSubject(r: PipeRef, account: string): string {
    if r.subject != "" then r.subject else account + "." + r.path
  }

  const JS_READ_PATTERNS: seq<string> := [
    "$JS.API.STREAM.INFO.%s",
    "$JS.API.STREAM.MSG.GET.%s",
    "$JS.API.DIRECT.GET.%s",
    "$JS.API.CONSUMER.CREATE.%s.>",
    "$JS.API.CONSUMER.MSG.NEXT.%s.>"
  ]

  const ALWAYS_ALLOWED: seq<string> := ["$JS.API.INFO"]

  const ALWAYS_DENIED: seq<string> := [
    "$JS.API.STREAM.LIST",
    "$JS.API.STREAM.NAMES",
    "$JS.API.STREAM.CREATE.>",
    "$JS.API.STREAM.UPDATE.>",
    "$JS.API.STREAM.DELETE.>",
    "$JS.API.STREAM.PURGE.>"
  ]

  function ExpandRead(pattern: string, stream: string): string {
    ReplaceFirst(pattern, "%s", stream)
  }

  function BroadRead(pattern: string): string {
    ReplaceFirst(TrimSuffix(pattern, ".>"), "%s", ">")
  }

  // ----- the specification of Compile, as functions of the access table -----

  predicate CanWrite(a: PipeAccess) { Write in Effective(a.perm) }

  predicate CanRead(a: PipeAccess) { Read in Effective(a.perm) }

  function Writable(account: string, access: seq<PipeAccess>): seq<string> {
    if access == [] then [] else
      var n := |access| - 1;
      Writable(account, access[..n]) + if CanWrite(access[n]) then [WireSubject(access[n].pipe, account)] else []
  }

  function Listenable(account: string, access: seq<PipeAccess>): seq<string> {
    if access == [] then [] else
      var n := |access| - 1;
      Listenable(account, access[..n]) + if CanRead(access[n]) then [WireSubject(access[n].pipe, account)] else []
  }

  /** The pipes whose readability is `wanted`, in table order. */
  function PipesWhere(access: seq<PipeAccess>, wanted: bool): seq<PipeRef> {
    if access == [] then [] else
      var n := |access| - 1;
      PipesWhere(access[..n], wanted) + if CanRead(access[n]) == wanted then [access[n].pipe] else []
  }

  function ReadEntries(stream: string): (es: seq<string>)
    ensures |es| == |JS_READ_PATTERNS|
  {
    seq(|JS_READ_PATTERNS|, k requires 0 <= k < |JS_READ_PATTERNS| => ExpandRead(JS_READ_PATTERNS[k], stream))
  }

  function BroadEntries(): (es: seq<string>)
    ensures |es| == |JS_READ_PATTERNS|
  {
    seq(|JS_READ_PATTERNS|, k requires 0 <= k < |JS_READ_PATTERNS| => BroadRead(JS_READ_PATTERNS[k]))
  }

  function EntriesFor(pipes: seq<PipeRef>): (es: seq<string>)
    ensures |es| == |JS_READ_PATTERNS| * |pipes|
  {
    if pipes == [] then [] else
      var n := |pipes| - 1;
      EntriesFor(pipes[..n]) + ReadEntries(pipes[n].stream)
  }

  /** The deny-list encoding is chosen only when strictly cheaper. */
  predicate PrefersBroad(access: seq<PipeAccess>) {
    1 + |PipesWhere(access, false)| < |PipesWhere(access, true)|
  }

  function BaseSubscriptions(account: string): seq<string> {
    ["_INBOX.>", account + "._presence.>", account + "._system.>"]
  }

  function Compiled(account: string, access: seq<PipeAccess>): Permissions {
    Permissions(
      ALWAYS_ALLOWED + Writable(account, access) +
        (if PrefersBroad(access) then BroadEntries() else EntriesFor(PipesWhere(access, true))),
      ALWAYS_DENIED + (if PrefersBroad(access) then EntriesFor(PipesWhere(access, false)) else []),
      BaseSubscriptions(account) + Listenable(account, access),
      [])
  }

  // ----- the program -----

  method Compile(account: string, access: seq<PipeAccess>) returns (p: Permissions)
    ensures p == Compiled(account, access)
  {
    var pubDeny := ALWAYS_DENIED;
    var pubAllow, subAllow, readable, excluded := Sort(account, access);
    if 1 + |excluded| < |readable| {
      pubAllow := AppendBroad(pubAllow);
      pubDeny := AppendReads(pubDeny, excluded);
    } else {
      pubAllow := AppendReads(pubAllow, readable);
    }
    p := Permissions(pubAllow, pubDeny, subAllow, []);
  }

  /** The loop over the access table. */
  method Sort(account: string, access: seq<PipeAccess>)
    returns (pubAllow: seq<string>, subAllow: seq<string>, readable: seq<PipeRef>, excluded: seq<PipeRef>)
    ensures pubAllow == ALWAYS_ALLOWED + Writable(account, access)
    ensures subAllow == BaseSubscriptions(account) + Listenable(account, access)
    ensures readable == PipesWhere(access, true) && excluded == PipesWhere(access, false)
  {
    pubAllow := ALWAYS_ALLOWED;
    subAllow := ["_INBOX.>", account + "._presence.>", account + "._system.>"];
    readable, excluded := [], [];
    for i := 0 to |access|
      invariant pubAllow == ALWAYS_ALLOWED + Writable(account, access[..i])
      invariant subAllow == BaseSubscriptions(account) + Listenable(account, access[..i])
      invariant readable == PipesWhere(access[..i], true)
      invariant excluded == PipesWhere(access[..i], false)
    {
      assert access[..i + 1][..i] == access[..i];
      var perm := Effective(access[i].perm);
      if Write in perm {
        pubAllow := pubAllow + [WireSubject(access[i].pipe, account)];
      }
      if Read in perm {
        subAllow := subAllow + [WireSubject(access[i].pipe, account)];
        readable := readable + [access[i].pipe];
      } else {
        excluded := excluded + [access[i].pipe];
      }
    }
    assert access[..|access|] == access;
  }

  method AppendBroad(entries: seq<string>) returns (out: seq<string>)
    ensures out == entries + BroadEntries()
  {
    out := entries;
    ghost var all := BroadEntries();
    for k := 0 to |JS_READ_PATTERNS|
      invariant out == entries + all[..k]
    {
      out := out + [BroadRead(JS_READ_PATTERNS[k])];
    }
  }

  /** The nested loops emitting every read pattern for every listed pipe. */
  method AppendReads(entries: seq<string>, pipes: seq<PipeRef>) returns (out: seq<string>)
    ensures out == entries + EntriesFor(pipes)
  {
    out := entries;
    for i := 0 to |pipes|
      invariant out == entries + EntriesFor(pipes[..i])
    {
      assert pipes[..i + 1][..i] == pipes[..i];
      out := AppendPatterns(out, pipes[i].stream);
    }
    assert pipes[..|pipes|] == pipes;
  }

  method AppendPatterns(entries: seq<string>, stream: string) returns (out: seq<string>)
    ensures out == entries + ReadEntries(stream)
  {
    out := entries;
    ghost var all := ReadEntries(stream);
    for k := 0 to |JS_READ_PATTERNS|
      invariant out == entries + all[..k]
    {
      out := out + [ExpandRead(JS_READ_PATTERNS[k], stream)];
    }
  }

  // ----- the shape of the read patterns -----

  /** Literal tokens in front of the stream token. */
  function Head(k: nat): (h: seq<string>)
    requires k < 5
    ensures |h| >= 4 && Literal(h)
  {
    if k == 0 then ["$JS", "API", "STREAM", "INFO"]
    else if k == 1 then ["$JS", "API", "STREAM", "MSG", "GET"]
    else if k == 2 then ["$JS", "API", "DIRECT", "GET"]
    else if k == 3 then ["$JS", "API", "CONSUMER", "CREATE"]
    else ["$JS", "API", "CONSUMER", "MSG", "NEXT"]
  }

  /** Patterns 3 and 4 continue past the stream. */
  predicate HasRest(k: nat) { k >= 3 }

  /** A request that instantiates read pattern `k` for `stream`; `tail` is what a
      client writes in place of the trailing wildcard. */
  function ReadRequest(k: nat, stream: string, tail: string): string
    requires k < 5
  {
    var pattern := JS_READ_PATTERNS[k];
    if TrimSuffix(pattern, ".>") == pattern then ExpandRead(pattern, stream)
    else ExpandRead(TrimSuffix(pattern, ".>"), stream) + "." + tail
  }

  /** The text in front of the stream token. */
  function Stem(k: nat): string
    requires k < 5
  {
    if k == 0 then "$JS.API.STREAM.INFO"
    else if k == 1 then "$JS.API.STREAM.MSG.GET"
    else if k == 2 then "$JS.API.DIRECT.GET"
    else if k == 3 then "$JS.API.CONSUMER.CREATE"
    else "$JS.API.CONSUMER.MSG.NEXT"
  }

  function Dotted4(a: string, b: string, c: string, d: string): string {
    a + "." + b + "." + c + "." + d
  }

  lemma Dotted4Tokens(a: string, b: string, c: string, d: string)
    requires '.' !in a && '.' !in b && '.' !in c && '.' !in d
    ensures Tokens(Dotted4(a, b, c, d)) == [a, b, c, d]
  {
    SplitToken(a, '.');
    SplitToken(b, '.');
    SplitToken(c, '.');
    SplitToken(d, '.');
    SplitAppend(a, '.', b);
    SplitAppend(a + "." + b, '.', c);
    SplitAppend(a + "." + b + "." + c, '.', d);
  }

  lemma StemTokens(k: nat)
    requires k < 5
    ensures Tokens(Stem(k)) == Head(k)
  {
    if k == 0 { Dotted4Tokens("$JS", "API", "STREAM", "INFO"); InfoStem(); }
    else if k == 1 { Longer("$JS", "API", "STREAM", "MSG", "GET"); GetStem(); }
    else if k == 2 { Dotted4Tokens("$JS", "API", "DIRECT", "GET"); DirectStem(); }
    else if k == 3 { Dotted4Tokens("$JS", "API", "CONSUMER", "CREATE"); CreateStem(); }
    else { Longer("$JS", "API", "CONSUMER", "MSG", "NEXT"); NextStem(); }
  }

  lemma Longer(a: string, b: string, c: string, d: string, e: string)
    requires '.' !in a && '.' !in b && '.' !in c && '.' !in d && '.' !in e
    ensures Tokens(Dotted4(a, b, c, d) + "." + e) == [a, b, c, d, e]
  {
    Dotted4Tokens(a, b, c, d);
    SplitToken(e, '.');
    SplitAppend(Dotted4(a, b, c, d), '.', e);
  }

  lemma InfoStem() ensures Stem(0) == Dotted4("$JS", "API", "STREAM", "INFO") {}
  lemma GetStem() ensures Stem(1) == Dotted4("$JS", "API", "STREAM", "MSG") + "." + "GET" {}
  lemma DirectStem() ensures Stem(2) == Dotted4("$JS", "API", "DIRECT", "GET") {}
  lemma CreateStem() ensures Stem(3) == Dotted4("$JS", "API", "CONSUMER", "CREATE") {}
  lemma NextStem() ensures Stem(4) == Dotted4("$JS", "API", "CONSUMER", "MSG") + "." + "NEXT" {}

  lemma PatternShape(k: nat)
    requires k < 5
    ensures JS_READ_PATTERNS[k] == Stem(k) + "." + "%s" + if HasRest(k) then ".>" else ""
    ensures TrimSuffix(JS_READ_PATTERNS[k], ".>") == Stem(k) + "." + "%s"
    ensures '%' !in Stem(k) + "."
  {
    var p := JS_READ_PATTERNS[k];
    var q := Stem(k) + "." + "%s";
    if HasRest(k) {
      assert p == q + ".>";
      assert p[|p| - 2..] == ".>";
      assert p[..|p| - 2] == q;
    } else {
      assert p == q;
      assert p[|p| - 1] == 's';
    }
  }

  /** The five shapes, as tokens. */
  lemma ReadTokens(k: nat, stream: string, tail: string)
    requires k < 5 && '.' !in stream
    ensures Tokens(ExpandRead(JS_READ_PATTERNS[k], stream)) ==
            Head(k) + [stream] + if HasRest(k) then [">"] else []
    ensures Tokens(BroadRead(JS_READ_PATTERNS[k])) == Head(k) + [">"]
    ensures Tokens(ReadRequest(k, stream, tail)) ==
            Head(k) + [stream] + if HasRest(k) then Tokens(tail) else []
  {
    PatternShape(k);
    StemTokens(k);
    var stem := Stem(k) + ".";
    ReplaceFirstAt(stem, "%s", stream, if HasRest(k) then ".>" else "");
    ReplaceFirstAt(stem, "%s", stream, "");
    ReplaceFirstAt(stem, "%s", ">", "");
    assert stem + "%s" + "" == stem + "%s";
    assert stem + stream + "" == stem + stream;
    assert stem + ">" + "" == stem + ">";
    SplitAppend(Stem(k), '.', stream);
    SplitAppend(Stem(k), '.', ">");
    SplitToken(stream, '.');
    SplitToken(">", '.');
    if HasRest(k) {
      assert stem + stream + ".>" == (stem + stream) + "." + ">";
      SplitAppend(stem + stream, '.', ">");
      SplitAppend(stem + stream, '.', tail);
    }
  }

  lemma HeadsDiffer(i: nat, j: nat) returns (n: nat)
    requires i < 5 && j < 5 && i != j
    ensures n < 4 && Head(i)[n] != Head(j)[n]
  {
    n := if Head(i)[2] != Head(j)[2] then 2 else 3;
  }

  lemma UnlikeHeads(h: seq<string>, h': seq<string>, n: nat, pat: seq<string>, sub: seq<string>)
    requires Literal(h) && n < |h| && n < |h'| && h[n] != h'[n]
    requires h <= pat && h' <= sub
    ensures !TokensMatch(pat, sub)
  {
    forall i | 0 <= i <= n ensures LiteralToken(pat[i]) {
      assert pat[i] == h[i];
    }
    MismatchAt(pat, sub, n);
  }

  lemma LikeHeads(h: seq<string>, s: string, rest: seq<string>, t: string, end: seq<string>)
    requires Literal(h) && LiteralToken(s) && TokensMatch(rest, end)
    ensures TokensMatch(h + [s] + rest, h + [t] + end) <==> s == t
  {
    var p, q := [s] + rest, [t] + end;
    assert h + [s] + rest == h + p && h + [t] + end == h + q;
    MatchUnderPrefix(h, p, q);
    assert p[0] == s && p[1..] == rest && q[1..] == end;
  }

  lemma BroadHead(h: seq<string>, t: string, end: seq<string>)
    requires Literal(h)
    ensures TokensMatch(h + [">"], h + [t] + end)
  {
    assert h + [t] + end == h + ([t] + end);
    MatchUnderPrefix(h, [">"], [t] + end);
  }

  predicate StreamToken(s: string) { s != "" && '.' !in s && LiteralToken(s) }

  lemma ReadEntryMatch(i: nat, s: string, j: nat, t: string, tail: string)
    requires i < 5 && j < 5 && StreamToken(s) && StreamToken(t)
    ensures Matches(ExpandRead(JS_READ_PATTERNS[i], s), ReadRequest(j, t, tail)) <==> i == j && s == t
  {
    ReadTokens(i, s, tail);
    ReadTokens(j, t, tail);
    if i != j {
      var n := HeadsDiffer(i, j);
      UnlikeHeads(Head(i), Head(j), n, Tokens(ExpandRead(JS_READ_PATTERNS[i], s)), Tokens(ReadRequest(j, t, tail)));
    } else if HasRest(i) {
      LikeHeads(Head(i), s, [">"], t, Tokens(tail));
    } else {
      LikeHeads(Head(i), s, [], t, []);
    }
  }

  lemma BroadEntryMatch(j: nat, t: string, tail: string)
    requires j < 5 && StreamToken(t)
    ensures Matches(BroadRead(JS_READ_PATTERNS[j]), ReadRequest(j, t, tail))
  {
    ReadTokens(j, t, tail);
    BroadHead(Head(j), t, if HasRest(j) then Tokens(tail) else []);
  }

  // ----- lists of entries -----

  lemma ReadEntriesMatch(s: string, j: nat, t: string, tail: string)
    requires j < 5 && StreamToken(s) && StreamToken(t)
    ensures AnyMatches(ReadEntries(s), ReadRequest(j, t, tail)) <==> s == t
  {
    var es, req := ReadEntries(s), ReadRequest(j, t, tail);
    forall i | 0 <= i < |es| ensures Matches(es[i], req) <==> i == j && s == t {
      ReadEntryMatch(i, s, j, t, tail);
    }
    assert Matches(es[j], req) <==> s == t;
  }

  lemma BroadEntriesMatch(j: nat, t: string, tail: string)
    requires j < 5 && StreamToken(t)
    ensures AnyMatches(BroadEntries(), ReadRequest(j, t, tail))
  {
    BroadEntryMatch(j, t, tail);
    assert BroadEntries()[j] == BroadRead(JS_READ_PATTERNS[j]);
  }

  predicate Lists(pipes: seq<PipeRef>, stream: string) {
    exists i :: 0 <= i < |pipes| && pipes[i].stream == stream
  }

  /** A request that each stream's own entries answer, and no other's. */
  ghost predicate AnsweredBy(req: string, t: string) {
    forall s :: StreamToken(s) ==> (AnyMatches(ReadEntries(s), req) <==> s == t)
  }

  lemma ListsSnoc(pipes: seq<PipeRef>, t: string)
    requires pipes != []
    ensures Lists(pipes, t) <==> Lists(pipes[..|pipes| - 1], t) || pipes[|pipes| - 1].stream == t
  {
  }

  lemma {:induction false} EntriesForAnswer(pipes: seq<PipeRef>, req: string, t: string)
    requires forall i :: 0 <= i < |pipes| ==> StreamToken(pipes[i].stream)
    requires AnsweredBy(req, t)
    ensures AnyMatches(EntriesFor(pipes), req) <==> Lists(pipes, t)
  {
    if pipes != [] {
      var n := |pipes| - 1;
      EntriesForAnswer(pipes[..n], req, t);
      assert StreamToken(pipes[n].stream);
      AnyMatchesConcat(EntriesFor(pipes[..n]), ReadEntries(pipes[n].stream), req);
      ListsSnoc(pipes, t);
    }
  }

  lemma EntriesForMatch(pipes: seq<PipeRef>, j: nat, t: string, tail: string)
    requires j < 5 && StreamToken(t)
    requires forall i :: 0 <= i < |pipes| ==> StreamToken(pipes[i].stream)
    ensures AnyMatches(EntriesFor(pipes), ReadRequest(j, t, tail)) <==> Lists(pipes, t)
  {
    var req := ReadRequest(j, t, tail);
    forall s | StreamToken(s) ensures AnyMatches(ReadEntries(s), req) <==> s == t {
      ReadEntriesMatch(s, j, t, tail);
    }
    EntriesForAnswer(pipes, req, t);
  }

  lemma {:induction false} PipesWhereLists(access: seq<PipeAccess>, wanted: bool, t: string)
    ensures Lists(PipesWhere(access, wanted), t) <==>
            exists i :: 0 <= i < |access| && access[i].pipe.stream == t && CanRead(access[i]) == wanted
  {
    if access != [] {
      var n := |access| - 1;
      PipesWhereLists(access[..n], wanted, t);
      var before, all := PipesWhere(access[..n], wanted), PipesWhere(access, wanted);
      if Lists(before, t) {
        var i :| 0 <= i < |before| && before[i].stream == t;
        assert all[i] == before[i];
      }
      if CanRead(access[n]) == wanted {
        assert all[|before|] == access[n].pipe;
      }
      if Lists(all, t) {
        var i :| 0 <= i < |all| && all[i].stream == t;
        assert i < |before| ==> before[i].stream == t;
      }
    }
  }

  lemma {:induction false} PipesWhereStreams(access: seq<PipeAccess>, wanted: bool)
    requires forall i :: 0 <= i < |access| ==> StreamToken(access[i].pipe.stream)
    ensures forall i :: 0 <= i < |PipesWhere(access, wanted)| ==> StreamToken(PipesWhere(access, wanted)[i].stream)
    ensures |PipesWhere(access, true)| + |PipesWhere(access, false)| == |access|
  {
    if access != [] {
      PipesWhereStreams(access[..|access| - 1], wanted);
    }
  }

  lemma AnyMatchesOne(listed: bool, pat: string, subject: string)
    ensures AnyMatches(if listed then [pat] else [], subject) <==> listed && Matches(pat, subject)
  {
    if listed { assert [pat][0] == pat; }
  }

  /** Some pipe's wire subject may be published and matches. */
  predicate SomeWritable(account: string, access: seq<PipeAccess>, subject: string) {
    exists i :: 0 <= i < |access| && CanWrite(access[i]) &&
                Matches(WireSubject(access[i].pipe, account), subject)
  }

  lemma SomeWritableSnoc(account: string, access: seq<PipeAccess>, a: PipeAccess, subject: string)
    ensures SomeWritable(account, access + [a], subject) <==>
            SomeWritable(account, access, subject) || (CanWrite(a) && Matches(WireSubject(a.pipe, account), subject))
  {
    var all := access + [a];
    assert all[|access|] == a;
    if SomeWritable(account, access, subject) {
      var i :| 0 <= i < |access| && CanWrite(access[i]) && Matches(WireSubject(access[i].pipe, account), subject);
      assert all[i] == access[i];
    }
  }

  lemma {:induction false} WritableMatch(account: string, access: seq<PipeAccess>, subject: string)
    ensures AnyMatches(Writable(account, access), subject) <==> SomeWritable(account, access, subject)
  {
    if access != [] {
      var n := |access| - 1;
      WritableMatch(account, access[..n], subject);
      var last := if CanWrite(access[n]) then [WireSubject(access[n].pipe, account)] else [];
      AnyMatchesConcat(Writable(account, access[..n]), last, subject);
      AnyMatchesOne(CanWrite(access[n]), WireSubject(access[n].pipe, account), subject);
      SomeWritableSnoc(account, access[..n], access[n], subject);
      assert access == access[..n] + [access[n]];
    }
  }

  /** Some pipe's wire subject may be subscribed and matches. */
  predicate SomeListenable(account: string, access: seq<PipeAccess>, subject: string) {
    exists i :: 0 <= i < |access| && CanRead(access[i]) &&
                Matches(WireSubject(access[i].pipe, account), subject)
  }

  lemma SomeListenableSnoc(account: string, access: seq<PipeAccess>, a: PipeAccess, subject: string)
    ensures SomeListenable(account, access + [a], subject) <==>
            SomeListenable(account, access, subject) || (CanRead(a) && Matches(WireSubject(a.pipe, account), subject))
  {
    var all := access + [a];
    assert all[|access|] == a;
    if SomeListenable(account, access, subject) {
      var i :| 0 <= i < |access| && CanRead(access[i]) && Matches(WireSubject(access[i].pipe, account), subject);
      assert all[i] == access[i];
    }
  }

  lemma {:induction false} ListenableMatch(account: string, access: seq<PipeAccess>, subject: string)
    ensures AnyMatches(Listenable(account, access), subject) <==> SomeListenable(account, access, subject)
  {
    if access != [] {
      var n := |access| - 1;
      ListenableMatch(account, access[..n], subject);
      var last := if CanRead(access[n]) then [WireSubject(access[n].pipe, account)] else [];
      AnyMatchesConcat(Listenable(account, access[..n]), last, subject);
      AnyMatchesOne(CanRead(access[n]), WireSubject(access[n].pipe, account), subject);
      SomeListenableSnoc(account, access[..n], access[n], subject);
      assert access == access[..n] + [access[n]];
    }
  }
}
