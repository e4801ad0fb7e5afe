/** Pipe names on the wire (internal/natsubj) and the enumeration of an
    account's pipes (internal/server/acl_enforce.go). */
module Naming {
  import opened Text
  import opened Nats
  import opened Compiler

  /** A pipe as the account names it; `manifold` and `handle` may be empty. */
  datatype PipeName = PipeName(manifold: string, handle: string, name: string)

  const PRESENCE_PIPE := "heartbeat"
  const PRESENCE_SEGMENT := "_presence"

  predicate SegmentChar(c: char) {
    'a' <= c <= 'z' || '0' <= c <= '9' || c == '-'
  }

  /** Lower-case letters, digits and hyphens. */
  predicate ValidSegment(s: string) {
    s != "" && forall i :: 0 <= i < |s| ==> SegmentChar(s[i])
  }

  predicate ValidManifold(m: string) {
    m == "" || forall t :: t in Split(m, '.') ==> ValidSegment(t)
  }

  /** What the create paths admit; a presence pipe always hangs off a handle. */
  predicate ValidName(n: PipeName) {
    && ValidManifold(n.manifold)
    && (n.handle == "" || ValidSegment(n.handle))
    && ValidSegment(n.name)
    && (n.name == PRESENCE_PIPE ==> n.handle != "")
  }

  function Path(n: PipeName): string {
    var tail := if n.handle != "" then n.handle + "." + n.name else n.name;
    if n.manifold != "" then n.manifold + "." + tail else tail
  }

  function PresenceSubject(account: string, manifold: string, handle: string): string {
    account + "." + PRESENCE_SEGMENT + (if manifold != "" then "." + manifold else "") + "." + handle
  }

  function BuildSubject(account: string, n: PipeName): string {
    if n.name == PRESENCE_PIPE then PresenceSubject(account, n.manifold, n.handle)
    else account + (if n.manifold != "" then "." + n.manifold else "") +
         (if n.handle != "" then "." + n.handle else "") + "." + n.name
  }

  function WithoutHyphens(s: string): string {
    if s == "" then "" else (if s[0] == '-' then "" else [s[0]]) + WithoutHyphens(s[1..])
  }

  function OrgShort(account: string): string {
    var hex := WithoutHyphens(account);
    if |hex| > 8 then hex[..8] else hex
  }

  function BuildStreamName(account: string, n: PipeName): string {
    var manifold := if n.manifold != "" then [ReplaceChar(n.manifold, '.', '_')] else [];
    if n.name == PRESENCE_PIPE then Join(["presence", OrgShort(account)] + manifold + [n.handle], '_')
    else Join(["pipe", OrgShort(account)] + manifold + (if n.handle != "" then [n.handle] else []) + [n.name], '_')
  }

  function RefOf(account: string, n: PipeName): PipeRef {
    PipeRef(Path(n), BuildSubject(account, n), BuildStreamName(account, n))
  }

  predicate HasPath(refs: seq<PipeRef>, path: string) {
    exists i :: 0 <= i < |refs| && refs[i].path == path
  }

  /** The accumulating loop of the enumeration: each nonempty path once, first come. */
  method KeepFirstByPath(candidates: seq<PipeRef>) returns (refs: seq<PipeRef>)
    ensures forall i :: 0 <= i < |refs| ==> refs[i] in candidates
    ensures forall i, j :: 0 <= i < j < |refs| ==> refs[i].path != refs[j].path
    ensures forall i :: 0 <= i < |candidates| && candidates[i].path != "" ==> HasPath(refs, candidates[i].path)
  {
    refs := [];
    var seen: set<string> := {};
    for k := 0 to |candidates|
      invariant forall i :: 0 <= i < |refs| ==> refs[i] in candidates && refs[i].path in seen
      invariant forall i, j :: 0 <= i < j < |refs| ==> refs[i].path != refs[j].path
      invariant forall path :: path in seen ==> HasPath(refs, path)
      invariant forall i :: 0 <= i < k && candidates[i].path != "" ==> candidates[i].path in seen
    {
      var ref := candidates[k];
      if ref.path != "" && ref.path !in seen {
        ghost var before := refs;
        refs := refs + [ref];
        assert refs[|before|] == ref;
        forall path | path in seen ensures HasPath(refs, path) {
          var i :| 0 <= i < |before| && before[i].path == path;
          assert refs[i] == before[i];
        }
        seen := seen + {ref.path};
      }
    }
  }

  function Candidates(account: string, names: seq<PipeName>): (rs: seq<PipeRef>)
    ensures |rs| == |names|
    ensures forall i :: 0 <= i < |names| ==> rs[i] == RefOf(account, names[i])
  {
    seq(|names|, i requires 0 <= i < |names| => RefOf(account, names[i]))
  }

  // ----- normal forms -----

  predicate Presence(n: PipeName) { n.name == PRESENCE_PIPE }

  /** Where a presence pipe lives: its path without the pipe name. */
  function Scope(n: PipeName): string {
    if n.manifold != "" then n.manifold + "." + n.handle else n.handle
  }

  lemma PresencePath(n: PipeName)
    requires ValidName(n) && Presence(n)
    ensures Path(n) == Scope(n) + "." + PRESENCE_PIPE
  {
  }

  lemma SubjectForm(account: string, n: PipeName)
    requires ValidName(n)
    ensures BuildSubject(account, n) ==
            account + "." + if Presence(n) then PRESENCE_SEGMENT + "." + Scope(n) else Path(n)
  {
    if Presence(n) {
      PresenceForm(account, n.manifold, n.handle);
    } else if n.manifold != "" && n.handle != "" {
      Dots(account, n.manifold, n.handle, n.name);
    } else if n.manifold != "" {
      Dot(account, n.manifold, n.name);
    } else if n.handle != "" {
      Dot(account, n.handle, n.name);
    }
  }

  lemma Dot(a: string, b: string, c: string)
    ensures a + ("." + b) + "." + c == a + "." + (b + "." + c)
    ensures a + "." + b + "." + c == a + "." + (b + "." + c)
    ensures a + "" + ("." + b) + "." + c == a + "." + (b + "." + c)
    ensures a + ("." + b) + "" + "." + c == a + "." + (b + "." + c)
  {
  }

  lemma Dots(a: string, b: string, c: string, d: string)
    ensures a + ("." + b) + ("." + c) + "." + d == a + "." + (b + "." + (c + "." + d))
  {
  }

  lemma PresenceForm(account: string, manifold: string, handle: string)
    ensures PresenceSubject(account, manifold, handle) ==
            account + "." + (PRESENCE_SEGMENT + "." + if manifold != "" then manifold + "." + handle else handle)
  {
    if manifold != "" {
      Dots(account, PRESENCE_SEGMENT, manifold, handle);
      assert account + "." + PRESENCE_SEGMENT + ("." + manifold) ==
             account + ("." + PRESENCE_SEGMENT) + ("." + manifold);
    } else {
      Dot(account, PRESENCE_SEGMENT, handle);
      assert account + "." + PRESENCE_SEGMENT + "" == account + "." + PRESENCE_SEGMENT;
    }
  }

  lemma {:induction false} JoinSnoc(parts: seq<string>, last: string, sep: char)
    requires |parts| >= 1
    ensures Join(parts + [last], sep) == Join(parts, sep) + [sep] + last
  {
    if |parts| == 1 {
      assert (parts + [last])[1..] == [last];
    } else {
      assert (parts + [last])[1..] == parts[1..] + [last];
      JoinSnoc(parts[1..], last, sep);
      assert parts[0] + [sep] + (Join(parts[1..], sep) + [sep] + last) == Join(parts, sep) + [sep] + last;
    }
  }

  lemma Flatten(a: string, b: string)
    requires '.' !in b
    ensures ReplaceChar(a + "." + b, '.', '_') == ReplaceChar(a, '.', '_') + "_" + b
  {
    ReplaceConcat(a + ".", b, '.', '_');
    ReplaceConcat(a, ".", '.', '_');
    FlattenToken(b);
  }

  lemma ReplaceConcat(a: string, b: string, from: char, to: char)
    ensures ReplaceChar(a + b, from, to) == ReplaceChar(a, from, to) + ReplaceChar(b, from, to)
  {
  }

  lemma FlattenToken(b: string)
    requires '.' !in b
    ensures ReplaceChar(b, '.', '_') == b
  {
    forall i | 0 <= i < |b| ensures ReplaceChar(b, '.', '_')[i] == b[i] { assert b[i] in b; }
  }

  function StreamPrefix(account: string, presence: bool): string {
    (if presence then "presence" else "pipe") + "_" + OrgShort(account) + "_"
  }

  lemma ValidNoDot(s: string)
    requires ValidSegment(s)
    ensures '.' !in s && '_' !in s && s != ">" && s != "*" && s != "$JS"
  {
    forall i | 0 <= i < |s| ensures s[i] != '.' && s[i] != '_' { assert SegmentChar(s[i]); }
    assert SegmentChar(s[0]);
  }

  lemma JoinPair(a: string, b: string, sep: char)
    ensures Join([a, b], sep) == a + [sep] + b
  {
    assert [a, b][1..] == [b];
  }

  lemma FlatOne(base: seq<string>, x: string)
    requires |base| >= 1 && '.' !in x
    ensures Join(base + [x], '_') == Join(base, '_') + "_" + ReplaceChar(x, '.', '_')
  {
    JoinSnoc(base, x, '_');
    FlattenToken(x);
  }

  lemma JoinTwo(base: seq<string>, f: string, x: string)
    requires |base| >= 1
    ensures Join(base + [f] + [x], '_') == Join(base, '_') + "_" + (f + "_" + x)
  {
    JoinSnoc(base, f, '_');
    JoinSnoc(base + [f], x, '_');
    Reassociate(Join(base, '_'), f, x);
  }

  lemma Reassociate(a: string, b: string, c: string)
    ensures a + "_" + b + "_" + c == a + "_" + (b + "_" + c)
  {
  }

  lemma FlatTwo(base: seq<string>, m: string, x: string)
    requires |base| >= 1 && '.' !in x
    ensures Join(base + [ReplaceChar(m, '.', '_')] + [x], '_') ==
            Join(base, '_') + "_" + ReplaceChar(m + "." + x, '.', '_')
  {
    JoinTwo(base, ReplaceChar(m, '.', '_'), x);
    Flatten(m, x);
  }

  lemma FlattenTwice(m: string, h: string, x: string)
    requires '.' !in h && '.' !in x
    ensures ReplaceChar(m + "." + (h + "." + x), '.', '_') == ReplaceChar(m + "." + h, '.', '_') + "_" + x
  {
    Dot(m, h, x);
    Flatten(m + "." + h, x);
  }

  lemma FlatThree(base: seq<string>, m: string, h: string, x: string)
    requires |base| >= 1 && '.' !in h && '.' !in x
    ensures Join(base + [ReplaceChar(m, '.', '_')] + [h] + [x], '_') ==
            Join(base, '_') + "_" + ReplaceChar(m + "." + (h + "." + x), '.', '_')
  {
    FlatTwo(base, m, h);
    JoinSnoc(base + [ReplaceChar(m, '.', '_')] + [h], x, '_');
    FlattenTwice(m, h, x);
    Reassociate(Join(base, '_'), ReplaceChar(m + "." + h, '.', '_'), x);
  }

  lemma StreamForm(account: string, n: PipeName)
    requires ValidName(n)
    ensures BuildStreamName(account, n) ==
            StreamPrefix(account, Presence(n)) + ReplaceChar(if Presence(n) then Scope(n) else Path(n), '.', '_')
  {
    ValidNoDot(n.name);
    if n.handle != "" { ValidNoDot(n.handle); }
    var base := [if Presence(n) then "presence" else "pipe", OrgShort(account)];
    JoinPair(base[0], OrgShort(account), '_');
    var m := ReplaceChar(n.manifold, '.', '_');
    if Presence(n) {
      if n.manifold == "" {
        assert base + [] == base;
        FlatOne(base, n.handle);
      } else {
        FlatTwo(base, n.manifold, n.handle);
      }
    } else if n.manifold != "" && n.handle != "" {
      FlatThree(base, n.manifold, n.handle, n.name);
    } else if n.manifold != "" {
      assert base + [m] + [] == base + [m];
      FlatTwo(base, n.manifold, n.name);
    } else if n.handle != "" {
      FlattenToken(n.handle);
      assert base + [] == base;
      FlatTwo(base, n.handle, n.name);
    } else {
      assert base + [] + [] == base;
      FlatOne(base, n.name);
    }
  }

  // ----- faithfulness of the naming -----

  predicate PathChars(s: string) {
    s != "" && SegmentChar(s[0]) && forall i :: 0 <= i < |s| ==> SegmentChar(s[i]) || s[i] == '.'
  }

  lemma {:induction false} SplitChars(s: string)
    requires forall t :: t in Split(s, '.') ==> ValidSegment(t)
    ensures PathChars(s)
  {
    var parts := Split(s, '.');
    JoinSplit(s, '.');
    JoinChars(parts);
  }

  lemma {:induction false} JoinChars(parts: seq<string>)
    requires |parts| >= 1 && forall t :: t in parts ==> ValidSegment(t)
    ensures PathChars(Join(parts, '.'))
  {
    assert parts[0] in parts;
    if |parts| > 1 {
      JoinChars(parts[1..]);
    }
  }

  lemma NameChars(n: PipeName)
    requires ValidName(n)
    ensures PathChars(Path(n))
    ensures Presence(n) ==> PathChars(Scope(n))
  {
    if n.manifold != "" { SplitChars(n.manifold); }
  }

  lemma NoUnderscore(s: string)
    requires PathChars(s)
    ensures '_' !in s
  {
    forall i | 0 <= i < |s| ensures s[i] != '_' { assert SegmentChar(s[i]) || s[i] == '.'; }
  }

  /** The pipe name is the last token of the path. */
  lemma PathEndsWithName(n: PipeName)
    requires ValidName(n)
    ensures Tokens(Path(n))[|Tokens(Path(n))| - 1] == n.name
  {
    ValidNoDot(n.name);
    SplitToken(n.name, '.');
    if n.handle != "" {
      SplitAppend(n.handle, '.', n.name);
      if n.manifold != "" { SplitAppend(n.manifold, '.', n.handle + "." + n.name); }
    } else if n.manifold != "" {
      SplitAppend(n.manifold, '.', n.name);
    }
  }

  /** Within an account, logical path, wire subject and stream name identify a
      pipe equally well: flattening dots never merges two pipes. */
  lemma NamingFaithful(account: string, a: PipeName, b: PipeName)
    requires ValidName(a) && ValidName(b)
    ensures BuildSubject(account, a) == BuildSubject(account, b) <==> Path(a) == Path(b)
    ensures BuildStreamName(account, a) == BuildStreamName(account, b) <==> Path(a) == Path(b)
  {
    PathEndsWithName(a);
    PathEndsWithName(b);
    if Presence(a) && Presence(b) {
      PresenceFaithful(account, a, b);
    } else if Presence(a) {
      MixedFamiliesDiffer(account, a, b);
    } else if Presence(b) {
      MixedFamiliesDiffer(account, b, a);
    } else {
      OrdinaryFaithful(account, a, b);
    }
  }

  lemma OrdinaryFaithful(account: string, a: PipeName, b: PipeName)
    requires ValidName(a) && ValidName(b) && !Presence(a) && !Presence(b)
    ensures BuildSubject(account, a) == BuildSubject(account, b) <==> Path(a) == Path(b)
    ensures BuildStreamName(account, a) == BuildStreamName(account, b) <==> Path(a) == Path(b)
  {
    SubjectForm(account, a);
    SubjectForm(account, b);
    StreamForm(account, a);
    StreamForm(account, b);
    NameChars(a);
    NameChars(b);
    NoUnderscore(Path(a));
    NoUnderscore(Path(b));
    SameFamily(account, Path(a), Path(b), false);
  }

  lemma PresenceFaithful(account: string, a: PipeName, b: PipeName)
    requires ValidName(a) && ValidName(b) && Presence(a) && Presence(b)
    ensures BuildSubject(account, a) == BuildSubject(account, b) <==> Path(a) == Path(b)
    ensures BuildStreamName(account, a) == BuildStreamName(account, b) <==> Path(a) == Path(b)
  {
    SubjectForm(account, a);
    SubjectForm(account, b);
    StreamForm(account, a);
    StreamForm(account, b);
    NameChars(a);
    NameChars(b);
    NoUnderscore(Scope(a));
    NoUnderscore(Scope(b));
    SameFamily(account, Scope(a), Scope(b), true);
    PresencePathsAgree(a, b);
  }

  lemma PresencePathsAgree(a: PipeName, b: PipeName)
    requires ValidName(a) && ValidName(b) && Presence(a) && Presence(b)
    ensures Path(a) == Path(b) <==> Scope(a) == Scope(b)
  {
    PresencePath(a);
    PresencePath(b);
    DottedPrefixDecides(Scope(a), Scope(b), PRESENCE_PIPE);
  }

  lemma DottedPrefixDecides(x: string, y: string, post: string)
    ensures x + "." + post == y + "." + post <==> x == y
  {
    PrefixDecides(x, y, "." + post);
    assert x + "." + post == x + ("." + post);
    assert y + "." + post == y + ("." + post);
  }

  lemma PrefixDecides(x: string, y: string, post: string)
    ensures x + post == y + post <==> x == y
  {
    if x + post == y + post {
      assert |x| == |y|;
      assert (x + post)[..|x|] == x;
      assert (y + post)[..|y|] == y;
    }
  }

  lemma SuffixDecides(pre: string, x: string, y: string)
    ensures pre + x == pre + y <==> x == y
  {
    assert (pre + x)[|pre|..] == x;
    assert (pre + y)[|pre|..] == y;
  }

  lemma SameFamily(account: string, x: string, y: string, presence: bool)
    requires '_' !in x && '_' !in y
    ensures x == y <==>
            account + "." + (if presence then PRESENCE_SEGMENT + "." + x else x) ==
            account + "." + (if presence then PRESENCE_SEGMENT + "." + y else y)
    ensures x == y <==>
            StreamPrefix(account, presence) + ReplaceChar(x, '.', '_') ==
            StreamPrefix(account, presence) + ReplaceChar(y, '.', '_')
  {
    if presence {
      SuffixDecides(account + ".", PRESENCE_SEGMENT + "." + x, PRESENCE_SEGMENT + "." + y);
      SuffixDecides(PRESENCE_SEGMENT + ".", x, y);
    } else {
      SuffixDecides(account + ".", x, y);
    }
    var rx, ry := ReplaceChar(x, '.', '_'), ReplaceChar(y, '.', '_');
    SuffixDecides(StreamPrefix(account, presence), rx, ry);
    if rx == ry { ReplaceCharInjective(x, y, '.', '_'); }
  }

  lemma MixedFamiliesDiffer(account: string, a: PipeName, b: PipeName)
    requires ValidName(a) && ValidName(b) && Presence(a) && !Presence(b)
    ensures BuildSubject(account, a) != BuildSubject(account, b)
    ensures BuildStreamName(account, a) != BuildStreamName(account, b)
  {
    SubjectForm(account, a);
    SubjectForm(account, b);
    StreamForm(account, a);
    StreamForm(account, b);
    NameChars(b);
    CharAt(account + ".", PRESENCE_SEGMENT + "." + Scope(a));
    CharAt(account + ".", Path(b));
    PrefixLetter(account, true, ReplaceChar(Scope(a), '.', '_'));
    PrefixLetter(account, false, ReplaceChar(Path(b), '.', '_'));
  }

  lemma CharAt(pre: string, x: string)
    requires x != ""
    ensures (pre + x)[|pre|] == x[0]
  {
  }

  lemma PrefixLetter(account: string, presence: bool, x: string)
    ensures |StreamPrefix(account, presence) + x| > 1
    ensures (StreamPrefix(account, presence) + x)[1] == if presence then 'r' else 'i'
  {
  }

  // ----- the names, piece by piece -----

  /** A path is the nonempty pieces in order, joined by dots. */
  lemma PathSpelledOut(m: string, h: string, x: string)
    ensures Path(PipeName("", "", x)) == x
    ensures h != "" ==> Path(PipeName("", h, x)) == h + "." + x
    ensures m != "" ==> Path(PipeName(m, "", x)) == m + "." + x
    ensures m != "" && h != "" ==> Path(PipeName(m, h, x)) == m + "." + (h + "." + x)
  {
  }

  /** On the wire a pipe is its path under the account; only a heartbeat goes to the
      presence family, under its handle, without its own name. */
  lemma WireSpelledOut(account: string, m: string, h: string, x: string)
    requires ValidName(PipeName(m, h, x))
    ensures x != "heartbeat" ==> BuildSubject(account, PipeName(m, h, x)) == account + "." + Path(PipeName(m, h, x))
    ensures x == "heartbeat" ==>
              BuildSubject(account, PipeName(m, h, x)) ==
              account + "." + ("_presence" + "." + if m != "" then m + "." + h else h)
  {
    SubjectForm(account, PipeName(m, h, x));
  }

  lemma {:induction false} NoHyphens(s: string)
    requires '-' !in s
    ensures WithoutHyphens(s) == s
  {
    if s != "" { NoHyphens(s[1..]); }
  }

  lemma {:induction false} HyphenDropped(a: string, b: string)
    ensures WithoutHyphens(a + "-" + b) == WithoutHyphens(a) + WithoutHyphens(b)
  {
    if a == "" {
      assert ("" + "-" + b)[1..] == b;
    } else {
      assert (a + "-" + b)[1..] == a[1..] + "-" + b;
      HyphenDropped(a[1..], b);
    }
  }

  /** The streams of an account carry the first eight digits of its identifier. */
  lemma AccountDigits(head: string, rest: string)
    requires |head| == 8 && '-' !in head
    ensures OrgShort(head + "-" + rest) == head
  {
    HyphenDropped(head, rest);
    NoHyphens(head);
    assert (head + WithoutHyphens(rest))[..8] == head;
  }

  /** A stream is named after the kind, those digits, and the path with its dots made
      underscores; a heartbeat's after its handle's path. */
  lemma StreamSpelledOut(head: string, rest: string, m: string, h: string, x: string)
    requires |head| == 8 && '-' !in head && ValidName(PipeName(m, h, x))
    ensures var stream := BuildStreamName(head + "-" + rest, PipeName(m, h, x));
            if x == "heartbeat"
            then stream == "presence" + "_" + head + "_" + ReplaceChar(if m != "" then m + "." + h else h, '.', '_')
            else stream == "pipe" + "_" + head + "_" + ReplaceChar(Path(PipeName(m, h, x)), '.', '_')
  {
    AccountDigits(head, rest);
    StreamForm(head + "-" + rest, PipeName(m, h, x));
  }

  /** A name's segment: lower-case letters, digits and hyphens. */
  lemma SegmentAdmitted(s: string)
    requires s != ""
    requires forall i :: 0 <= i < |s| ==> ('a' <= s[i] && s[i] <= 'z') || ('0' <= s[i] && s[i] <= '9') || s[i] == '-'
    ensures ValidSegment(s)
  {
  }

  /** The names the create paths admit: at the root or in a manifold of any depth, and
      with or without a handle - with one, in the case of a heartbeat. */
  lemma NamesAdmitted(a: string, b: string, h: string, x: string)
    requires ValidSegment(a) && ValidSegment(b) && ValidSegment(h) && ValidSegment(x)
    ensures x != "heartbeat" ==> ValidName(PipeName("", "", x)) && ValidName(PipeName(a + "." + b, "", x))
    ensures ValidName(PipeName("", h, x)) && ValidName(PipeName(a, h, x)) && ValidName(PipeName(a + "." + b, h, x))
  {
    ValidNoDot(a);
    ValidNoDot(b);
    SplitToken(a, '.');
    SplitToken(b, '.');
    SplitAppend(a, '.', b);
  }
}
