/** The rotating connection-event log (internal/daemon/nats_events_persistence.go),
    on file contents; renames succeed. */
module EventLog {
  import opened Common

  /** One persisted line: its timestamp and its length in bytes. */
  datatype Line = Line(at: Time, size: nat)

  const GENERATIONS := 2
  const MAX_BYTES: nat := 10 * 1024 * 1024

  /** Files by generation: 0 is active, 1 and 2 are rotated. */
  type Files = map<nat, seq<Line>>

  function Size(f: seq<Line>): nat {
    if f == [] then 0 else Size(f[..|f| - 1]) + f[|f| - 1].size
  }

  function Content(files: Files, g: nat): seq<Line> { if g in files then files[g] else [] }

  /** What the files hold, oldest first. */
  function Retained(files: Files): seq<Line> { Content(files, 2) + Content(files, 1) + Content(files, 0) }

  predicate TooBig(files: Files) { 0 in files && Size(files[0]) >= MAX_BYTES }

  /** One pass of the rename loop. */
  function Shift(files: Files, g: nat): Files
    requires g > 0
  {
    if g - 1 in files then files[g := files[g - 1]] - {g - 1} else files
  }

  function Rotated(files: Files): Files {
    if TooBig(files) then Shift(Shift(files, 2), 1) else files
  }

  function Appended(files: Files, line: Line): Files {
    var r := Rotated(files);
    r[0 := Content(r, 0) + [line]]
  }

  function Since(lines: seq<Line>, since: Time): seq<Line> {
    if lines == [] then []
    else Since(lines[..|lines| - 1], since) + if lines[|lines| - 1].at < since then [] else [lines[|lines| - 1]]
  }

  /** The generations behind generation `g`. */
  function OlderThan(files: Files, g: nat): seq<Line> {
    if g >= 2 then [] else if g == 1 then Content(files, 2) else Content(files, 2) + Content(files, 1)
  }

  class Log {
    var files: Files

    constructor ()
      ensures files == map[]
    {
      files := map[];
    }

    method RotateIfTooBig()
      modifies this
      ensures files == Rotated(old(files))
    {
      if 0 !in files {
        return;
      }
      if Size(files[0]) < MAX_BYTES {
        return;
      }
      var g := GENERATIONS;
      while g >= 1
        invariant 0 <= g <= 2
        invariant files == if g == 2 then old(files) else if g == 1 then Shift(old(files), 2) else Rotated(old(files))
      {
        if g - 1 in files {
          files := files[g := files[g - 1]] - {g - 1};
        }
        g := g - 1;
      }
    }

    method Append(line: Line)
      modifies this
      ensures files == Appended(old(files), line)
    {
      RotateIfTooBig();
      files := files[0 := (if 0 in files then files[0] else []) + [line]];
    }

    /** All lines from `since` on, across the generations. */
    method Scan(since: Time) returns (out: seq<Line>)
      ensures out == Since(Retained(files), since)
    {
      out := [];
      var g := GENERATIONS;
      while g >= 1
        invariant 0 <= g <= 2
        invariant out == Since(OlderThan(files, g), since)
      {
        out := AppendSince(out, Content(files, g), since, OlderThan(files, g));
        assert [] + Content(files, 2) == Content(files, 2);
        g := g - 1;
      }
      out := AppendSince(out, Content(files, 0), since, Content(files, 2) + Content(files, 1));
    }

    method AppendSince(out: seq<Line>, file: seq<Line>, since: Time, ghost done: seq<Line>) returns (out': seq<Line>)
      requires out == Since(done, since)
      ensures out' == Since(done + file, since)
    {
      out' := out;
      assert done + file[..0] == done;
      for i := 0 to |file|
        invariant out' == Since(done + file[..i], since)
      {
        assert (done + file[..i + 1])[..|done| + i] == done + file[..i];
        if file[i].at < since {
          continue;
        }
        out' := out' + [file[i]];
      }
      assert file[..|file|] == file;
    }
  }

  // ----- runs -----

  function Run(history: seq<Line>): Files {
    if history == [] then map[] else Appended(Run(history[..|history| - 1]), history[|history| - 1])
  }

  /** A file overshoots the threshold by at most its last line. */
  predicate Bounded(f: seq<Line>) { f != [] && Size(f[..|f| - 1]) < MAX_BYTES }

  predicate WellKept(files: Files) {
    && (forall g :: g in files ==> g <= 2 && Bounded(files[g]))
    && (forall g :: g in files && g > 0 ==> Size(files[g]) >= MAX_BYTES)
    && (2 in files ==> 1 in files)
  }

  /** What rotation gives up: the oldest generation, if there is one. */
  function Discarded(files: Files): seq<Line> { if TooBig(files) then Content(files, 2) else [] }

  /** A full rotation in one look: everything moves one generation back. */
  lemma RotatedShape(files: Files)
    requires TooBig(files)
    ensures var r := Rotated(files);
            && 0 !in r && 1 in r && r[1] == files[0]
            && (2 in r <==> 1 in files || 2 in files)
            && (1 in files ==> r[2] == files[1])
            && (1 !in files && 2 in files ==> r[2] == files[2])
            && (forall g :: g > 2 ==> (g in r <==> g in files))
  {
  }

  lemma RotateKept(files: Files)
    requires WellKept(files)
    ensures WellKept(Rotated(files))
    ensures 0 in Rotated(files) ==> Size(Rotated(files)[0]) < MAX_BYTES
    ensures Discarded(files) != [] ==> 1 in Rotated(files) && 2 in Rotated(files)
  {
    if TooBig(files) {
      RotatedShape(files);
      var r := Rotated(files);
      forall g | g in r ensures g <= 2 && Bounded(r[g]) && (g > 0 ==> Size(r[g]) >= MAX_BYTES) {
        assert g == 1 || g == 2;
      }
    }
  }

  lemma RotateRetains(files: Files)
    requires WellKept(files)
    ensures Retained(files) == Discarded(files) + Retained(Rotated(files))
  {
    if TooBig(files) {
      RotatedShape(files);
      var r := Rotated(files);
      assert Content(r, 0) == [] && Content(r, 1) == Content(files, 0) && Content(r, 2) == Content(files, 1);
      OldestApart(Content(files, 2), Content(files, 1), Content(files, 0));
    }
  }

  lemma AppendLine(files: Files, line: Line)
    requires WellKept(files) && (0 in files ==> Size(files[0]) < MAX_BYTES)
    ensures WellKept(files[0 := Content(files, 0) + [line]])
    ensures Retained(files[0 := Content(files, 0) + [line]]) == Retained(files) + [line]
  {
    var f := Content(files, 0);
    assert (f + [line])[..|f|] == f;
  }

  lemma TwoGenerations(files: Files)
    requires WellKept(files) && 1 in files && 2 in files
    ensures Size(Retained(files)) >= 2 * MAX_BYTES
  {
    SizeConcat(files[2], files[1]);
    SizeConcat(files[2] + files[1], Content(files, 0));
  }

  lemma {:induction false} SizeConcat(a: seq<Line>, b: seq<Line>)
    ensures Size(a + b) == Size(a) + Size(b)
  {
    if b == [] {
      assert a + b == a;
    } else {
      assert (a + b)[..|a + b| - 1] == a + b[..|b| - 1];
      SizeConcat(a, b[..|b| - 1]);
    }
  }

  /** The files hold a suffix of everything written, each below the threshold but
      for its last line, and nothing is dropped unless two full generations (twice
      the threshold) are still on disk behind the active file. */
  ghost predicate NewestKept(history: seq<Line>, lost: seq<Line>, files: Files) {
    && WellKept(files)
    && history == lost + Retained(files)
    && (lost != [] ==> 1 in files && 2 in files && Size(Retained(files)) >= 2 * MAX_BYTES)
  }

  /** Rotation loses only the oldest events, after any run of appends. */
  lemma {:induction false} KeepsTheNewest(history: seq<Line>) returns (lost: seq<Line>)
    ensures NewestKept(history, lost, Run(history))
  {
    if history == [] {
      lost := [];
    } else {
      var before, line := history[..|history| - 1], history[|history| - 1];
      assert history == before + [line];
      var init := KeepsTheNewest(before);
      var files := Run(before);
      AppendOne(before, init, files, line);
      lost := init + Discarded(files);
    }
  }

  lemma AppendOne(history: seq<Line>, lost: seq<Line>, files: Files, line: Line)
    requires NewestKept(history, lost, files)
    ensures NewestKept(history + [line], lost + Discarded(files), Appended(files, line))
  {
    RotateKept(files);
    RotateRetains(files);
    AppendLine(Rotated(files), line);
    Regroup(lost, Discarded(files), Retained(Rotated(files)), [line]);
    if lost + Discarded(files) != [] {
      StillTwo(files);
      TwoGenerations(Appended(files, line));
    }
  }

  lemma OldestApart(a: seq<Line>, b: seq<Line>, c: seq<Line>)
    ensures a + b + c == a + (b + c + [])
  {
  }

  lemma Regroup(a: seq<Line>, b: seq<Line>, c: seq<Line>, d: seq<Line>)
    ensures a + (b + c) + d == (a + b) + (c + d)
  {
  }

  lemma StillTwo(files: Files)
    requires WellKept(files)
    requires (1 in files && 2 in files) || Discarded(files) != []
    ensures 1 in Rotated(files) && 2 in Rotated(files)
  {
    RotateKept(files);
  }

  lemma {:induction false} SinceConcat(a: seq<Line>, b: seq<Line>, since: Time)
    ensures Since(a + b, since) == Since(a, since) + Since(b, since)
  {
    if b == [] {
      assert a + b == a;
    } else {
      assert (a + b)[..|a + b| - 1] == a + b[..|b| - 1];
      SinceConcat(a, b[..|b| - 1], since);
    }
  }

  /** A scan is complete for any window that nothing lost falls into. */
  lemma ScanComplete(history: seq<Line>, lost: seq<Line>, since: Time)
    requires history == lost + Retained(Run(history))
    requires Since(lost, since) == []
    ensures Since(Retained(Run(history)), since) == Since(history, since)
  {
    SinceConcat(lost, Retained(Run(history)), since);
  }

  // ----- the scan and the threshold, from the lines alone -----

  /** A scan keeps the lines stamped at or after `since`, in order: it goes through the
      log piece by piece, and of a single line keeps just such a one. */
  lemma SinceSpelledOut(a: seq<Line>, b: seq<Line>, line: Line, since: Time)
    ensures Since([], since) == []
    ensures Since([line], since) == if line.at >= since then [line] else []
    ensures Since(a + b, since) == Since(a, since) + Since(b, since)
  {
    assert [line][..0] == [];
    SinceConcat(a, b, since);
  }

  /** Appending to a log whose active file has reached ten mebibytes starts a new file,
      keeps the two newest old ones and drops the rest; otherwise it only adds the line. */
  lemma AppendSpelledOut(files: Files, line: Line)
    ensures 0 !in files || Size(files[0]) < 10_485_760 ==>
              Appended(files, line) == files[0 := Content(files, 0) + [line]]
    ensures 0 in files && Size(files[0]) >= 10_485_760 ==>
              var t := Appended(files, line);
              && Content(t, 0) == [line] && Content(t, 1) == files[0]
              && Content(t, 2) == if 1 in files then files[1] else Content(files, 2)
  {
  }

  /** The size of a file is the bytes of its lines. */
  lemma {:induction false} SizeSpelledOut(a: seq<Line>, b: seq<Line>, line: Line)
    ensures Size([]) == 0 && Size([line]) == line.size
    ensures Size(a + b) == Size(a) + Size(b)
  {
    assert [line][..0] == [];
    if b == [] {
      assert a + b == a;
    } else {
      var n := |b| - 1;
      SizeSpelledOut(a, b[..n], line);
      assert (a + b)[..|a + b| - 1] == a + b[..n];
    }
  }
}
