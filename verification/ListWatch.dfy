/** Wake-up matching for `ppz ls --watch` (internal/daemon/list_watch.go): an
    arrival must wake every watcher whose list would show the pipe. */
module ListWatch {
  import opened Text
  import opened Nats
  import opened Naming
  import opened Credentials

  /** The host's glob matcher, about which nothing is assumed. */
  type Glob = (string, string) -> bool

  function Target(handle: string, pipe: string): string {
    if handle != "" then handle + "." + pipe else pipe
  }

  predicate MatchAnyTarget(glob: Glob, handle: string, pipe: string, patterns: seq<string>) {
    patterns == [] || exists i :: 0 <= i < |patterns| && glob(ReplaceChar(patterns[i], '%', '*'), Target(handle, pipe))
  }

  datatype Interpretation = Interpretation(handle: string, pipe: string)

  /** Every plausible (handle, pipe) reading of a subject's segments after the account. */
  function Readings(rest: seq<string>): seq<Interpretation> {
    var k := |rest| - 1;
    if k < 0 then []
    else if k == 0 then [Interpretation("", rest[0])]
    else if k == 1 then [Interpretation(rest[0], rest[1]), Interpretation("", Join(rest, '.'))]
    else
      [Interpretation(rest[k - 1], rest[k]), Interpretation("", Join(rest, '.')),
       Interpretation(Join(rest[..k], '.'), rest[k])]
  }

  function ParseSubjectInterpretations(subject: string): seq<Interpretation> {
    var parts := Split(subject, '.');
    if |parts| < 2 then [] else Readings(parts[1..])
  }

  /** The callback on each arriving message. */
  predicate Wakes(glob: Glob, subject: string, patterns: seq<string>) {
    var ivs := ParseSubjectInterpretations(subject);
    exists i :: 0 <= i < |ivs| && MatchAnyTarget(glob, ivs[i].handle, ivs[i].pipe, patterns)
  }

  /** The list filter: collared rows match as handle.pipe, uncollared rows by their
      dotted path. */
  predicate RowKept(glob: Glob, n: PipeName, patterns: seq<string>) {
    if n.handle != "" then MatchAnyTarget(glob, n.handle, n.name, patterns)
    else MatchAnyTarget(glob, "", Path(n), patterns)
  }

  /** The row's own target, as a reading. */
  function OwnTarget(n: PipeName): Interpretation {
    if n.handle != "" then Interpretation(n.handle, n.name) else Interpretation("", Path(n))
  }

  lemma PathReadings(n: PipeName) returns (i: nat)
    requires ValidName(n)
    ensures i < |Readings(Tokens(Path(n)))| && Readings(Tokens(Path(n)))[i] == OwnTarget(n)
  {
    var rest := Tokens(Path(n));
    if n.handle != "" {
      i := 0;
      LastTwoSegments(n);
    } else {
      JoinSplit(Path(n), '.');
      i := if |rest| == 1 then 0 else 1;
    }
  }

  lemma LastTwoSegments(n: PipeName)
    requires ValidName(n) && n.handle != ""
    ensures var rest := Tokens(Path(n));
            |rest| >= 2 && rest[|rest| - 2] == n.handle && rest[|rest| - 1] == n.name
  {
    SegmentTokens(n.name);
    SegmentTokens(n.handle);
    SplitAppend(n.handle, '.', n.name);
    if n.manifold != "" {
      SplitAppend(n.manifold, '.', n.handle + "." + n.name);
    }
  }

  lemma ReadingsOf(account: string, subject: string, rest: seq<string>)
    requires rest != [] && Tokens(subject) == [account] + rest
    ensures ParseSubjectInterpretations(subject) == Readings(rest)
  {
    assert Split(subject, '.')[1..] == rest;
  }

  /** Some reading of the subject yields exactly the row's own target. */
  lemma OwnReading(account: string, n: PipeName) returns (i: nat)
    requires ValidSegment(account) && ValidName(n) && !Presence(n)
    ensures var ivs := ParseSubjectInterpretations(BuildSubject(account, n));
            i < |ivs| && ivs[i] == OwnTarget(n)
  {
    SubjectTokens(account, n);
    ReadingsOf(account, BuildSubject(account, n), Tokens(Path(n)));
    i := PathReadings(n);
  }

  /** No missed wake-up: for every ordinary pipe at any depth, any patterns and any
      glob semantics, an arrival the list would show always wakes the watcher. */
  lemma WakeUpComplete(glob: Glob, account: string, n: PipeName, patterns: seq<string>)
    requires ValidSegment(account) && ValidName(n) && !Presence(n)
    requires RowKept(glob, n, patterns)
    ensures Wakes(glob, BuildSubject(account, n), patterns)
  {
    var i := OwnReading(account, n);
  }

  predicate Exact(pattern: string, target: string) { pattern == target }

  /** Whatever the patterns and the glob, an arrival on the pipe that the list would
      show wakes the watcher. */
  ghost predicate AlwaysWoken(account: string, n: PipeName) {
    forall glob: Glob, patterns: seq<string> ::
      RowKept(glob, n, patterns) ==> Wakes(glob, BuildSubject(account, n), patterns)
  }

  function LastSegment(manifold: string): string {
    Split(manifold, '.')[|Split(manifold, '.')| - 1]
  }

  /** The one presence pipe whose subject can be read as its own row: a handle called
      heartbeat, right under a segment called heartbeat. */
  predicate ReadsAsItself(n: PipeName) {
    n.handle == PRESENCE_PIPE && n.manifold != "" && LastSegment(n.manifold) == PRESENCE_PIPE
  }

  /** Exactly which pipes keep the wake-up promise. Presence rides on subjects of its
      own, where a watcher asking for a row is, with the one exception, never woken. */
  lemma WakeUpIff(account: string, n: PipeName)
    requires ValidSegment(account) && ValidName(n)
    ensures AlwaysWoken(account, n) <==> !Presence(n) || ReadsAsItself(n)
  {
    if !Presence(n) {
      forall glob: Glob, patterns | RowKept(glob, n, patterns)
        ensures Wakes(glob, BuildSubject(account, n), patterns)
      {
        WakeUpComplete(glob, account, n, patterns);
      }
    } else if ReadsAsItself(n) {
      PresenceReadings(account, n);
      var ivs := ParseSubjectInterpretations(BuildSubject(account, n));
      assert ivs[0] == Interpretation(n.handle, n.name);
    } else {
      PresenceNotWoken(account, n);
    }
  }

  /** Asking for exactly the row's own name shows the row and misses the arrival. */
  lemma PresenceNotWoken(account: string, n: PipeName)
    requires ValidSegment(account) && ValidName(n) && Presence(n) && !ReadsAsItself(n)
    ensures var patterns := [n.handle + "." + PRESENCE_PIPE];
            RowKept(Exact, n, patterns) && !Wakes(Exact, BuildSubject(account, n), patterns)
  {
    var want := n.handle + "." + PRESENCE_PIPE;
    var patterns := [want];
    PlainPattern(n.handle);
    assert Exact(ReplaceChar(patterns[0], '%', '*'), Target(n.handle, PRESENCE_PIPE));
    var ivs := ParseSubjectInterpretations(BuildSubject(account, n));
    PresenceReadings(account, n);
    forall i | 0 <= i < |ivs| ensures Target(ivs[i].handle, ivs[i].pipe) != want {
      if i == 0 && n.manifold != "" {
        DottedPairDecides(ivs[0].handle, n.handle, n.handle, PRESENCE_PIPE);
      } else {
        assert SegmentChar(n.handle[0]);
      }
    }
  }

  /** The readings of a presence subject: the last two segments, and otherwise only
      names that start with the presence marker's underscore. */
  lemma PresenceReadings(account: string, n: PipeName)
    requires ValidSegment(account) && ValidName(n) && Presence(n)
    ensures var ivs := ParseSubjectInterpretations(BuildSubject(account, n));
            && ivs != []
            && (n.manifold != "" ==>
                  ivs[0] == Interpretation(LastSegment(n.manifold), n.handle) && ValidSegment(ivs[0].handle))
            && forall i :: 0 <= i < |ivs| && (i > 0 || n.manifold == "") ==>
                 Marked(Target(ivs[i].handle, ivs[i].pipe))
  {
    SubjectTokens(account, n);
    ScopeTokens(n);
    ReadingsOf(account, BuildSubject(account, n), [PRESENCE_SEGMENT] + Tokens(Scope(n)));
    MarkedReadings(Tokens(Scope(n)));
  }

  /** The segments of a presence pipe's scope: its manifold's, then its handle. */
  lemma ScopeTokens(n: PipeName)
    requires ValidName(n) && Presence(n)
    ensures var scope := Tokens(Scope(n));
            && scope[|scope| - 1] == n.handle
            && (|scope| == 1 <==> n.manifold == "")
            && (n.manifold != "" ==> scope[|scope| - 2] == LastSegment(n.manifold))
    ensures n.manifold != "" ==> ValidSegment(LastSegment(n.manifold))
  {
    SegmentTokens(n.handle);
    if n.manifold != "" {
      SplitAppend(n.manifold, '.', n.handle);
      assert LastSegment(n.manifold) in Split(n.manifold, '.');
    }
  }

  lemma MarkedReadings(scope: seq<string>)
    requires scope != []
    ensures var ivs := Readings([PRESENCE_SEGMENT] + scope);
            && ivs != []
            && (|scope| >= 2 ==> ivs[0] == Interpretation(scope[|scope| - 2], scope[|scope| - 1]))
            && forall i :: 0 <= i < |ivs| && (i > 0 || |scope| == 1) ==>
                 Marked(Target(ivs[i].handle, ivs[i].pipe))
  {
    var rest, k := [PRESENCE_SEGMENT] + scope, |scope|;
    var whole, front := Join(rest, '.'), Join(rest[..k], '.');
    JoinMarked(rest);
    JoinMarked(rest[..k]);
    if k == 1 {
      MarkedHandle(PRESENCE_SEGMENT, rest[1]);
    } else {
      MarkedHandle(front, rest[k]);
    }
  }

  /** Starts with the underscore no name can start with. */
  predicate Marked(s: string) { s != "" && s[0] == '_' }

  lemma MarkedHandle(handle: string, pipe: string)
    requires Marked(handle)
    ensures Marked(Target(handle, pipe))
  {
  }

  lemma JoinMarked(parts: seq<string>)
    requires parts != [] && Marked(parts[0])
    ensures Marked(Join(parts, '.'))
  {
  }

  lemma DottedPairDecides(a: string, b: string, c: string, d: string)
    requires '.' !in a && '.' !in b && '.' !in c && '.' !in d
    ensures a + "." + b == c + "." + d <==> a == c && b == d
  {
    SplitAppend(a, '.', b);
    SplitAppend(c, '.', d);
    SplitToken(a, '.');
    SplitToken(b, '.');
    SplitToken(c, '.');
    SplitToken(d, '.');
    if a + "." + b == c + "." + d {
      assert [a] + [b] == [c] + [d];
      assert ([a] + [b])[0] == ([c] + [d])[0] && ([a] + [b])[1] == ([c] + [d])[1];
    }
  }

  lemma PlainChars(handle: string, s: string)
    requires ValidSegment(handle) && s == handle + "." + PRESENCE_PIPE
    ensures forall i :: 0 <= i < |s| ==> s[i] != '%'
  {
    forall i | 0 <= i < |s| ensures s[i] != '%' {
      if i < |handle| { assert SegmentChar(handle[i]); }
    }
  }

  lemma PlainPattern(handle: string)
    requires ValidSegment(handle)
    ensures ReplaceChar(handle + "." + PRESENCE_PIPE, '%', '*') == handle + "." + PRESENCE_PIPE
  {
    var s := handle + "." + PRESENCE_PIPE;
    var r := ReplaceChar(s, '%', '*');
    PlainChars(handle, s);
    assert forall i :: 0 <= i < |s| ==> r[i] == s[i];
  }

  // ----- patterns and readings, spelled out -----

  /** What the list keeps: every row without patterns; otherwise the rows whose target -
      handle and pipe, or the whole path - some pattern matches, percent signs standing
      for stars. */
  lemma KeptSpelledOut(glob: Glob, n: PipeName, patterns: seq<string>)
    ensures RowKept(glob, n, patterns) <==>
            patterns == [] ||
            exists pattern :: pattern in patterns &&
              glob(ReplaceChar(pattern, '%', '*'), if n.handle != "" then n.handle + "." + n.name else Path(n))
  {
    var target := if n.handle != "" then n.handle + "." + n.name else Path(n);
    if i :| 0 <= i < |patterns| && glob(ReplaceChar(patterns[i], '%', '*'), target) {
      assert patterns[i] in patterns;
    }
  }

  /** How a subject is read: its last segment as a pipe of the one before, the whole as a
      path, and the last as a pipe of all before. */
  lemma ReadingsSpelledOut(front: seq<string>, x: string, y: string)
    ensures Readings([y]) == [Interpretation("", y)]
    ensures Readings([x, y]) == [Interpretation(x, y), Interpretation("", x + "." + y)]
    ensures front != [] ==>
              Readings(front + [x, y]) ==
              [Interpretation(x, y), Interpretation("", Join(front + [x, y], '.')),
               Interpretation(Join(front + [x], '.'), y)]
  {
    JoinPair(x, y, '.');
    var rest := front + [x, y];
    assert rest[..|rest| - 1] == front + [x];
  }
}
