/** The subscription-alert state machine
    (internal/cli/terminal_subs_alert.go): when to nudge a parked agent. */
module SubsAlert {
  import opened Common
  import opened Ints
  import opened Text
  import opened AlertLadder

  /** The zero time means "never". */
  const ZERO: Time := 0

  // ----- the snapshot rows -----

  datatype PipeInfo = PipeInfo(pipe: string, total: nat, unread: nat, lastAt: Option<Time>)
  datatype Source = Source(manifold: string, handle: string, pipeInfos: seq<PipeInfo>)
  datatype UncollaredPipe = UncollaredPipe(manifold: string, name: string, info: PipeInfo)
  datatype ListReply = ListReply(sources: seq<Source>, uncollared: seq<UncollaredPipe>)

  /** Per-pipe consumption: how many messages have been read. */
  type Watermarks = map<string, nat>

  datatype Row = Row(key: string, info: PipeInfo)

  function SourceKey(manifold: string, handle: string, pipe: string): string {
    "s/" + manifold + "/" + handle + "/" + pipe
  }

  function UncollaredKey(manifold: string, name: string): string { "u/" + manifold + "/" + name }

  predicate Slashless(s: string) { '/' !in s }

  lemma SourceKeyParts(m: string, h: string, p: string)
    requires Slashless(m) && Slashless(h) && Slashless(p)
    ensures Split(SourceKey(m, h, p), '/') == ["s", m, h, p]
  {
    SplitToken("s", '/');
    SplitToken(m, '/');
    SplitToken(h, '/');
    SplitToken(p, '/');
    assert "s/" + m == "s" + "/" + m;
    SplitAppend("s", '/', m);
    SplitAppend("s/" + m, '/', h);
    SplitAppend("s/" + m + "/" + h, '/', p);
  }

  lemma UncollaredKeyParts(m: string, name: string)
    requires Slashless(m) && Slashless(name)
    ensures Split(UncollaredKey(m, name), '/') == ["u", m, name]
  {
    SplitToken("u", '/');
    SplitToken(m, '/');
    SplitToken(name, '/');
    assert "u/" + m == "u" + "/" + m;
    SplitAppend("u", '/', m);
    SplitAppend("u/" + m, '/', name);
  }

  /** No pipe's reads can shadow another's: keys identify the row, families never
      meet, and equal handles in different manifolds stay apart. */
  lemma KeysDistinct(m: string, h: string, p: string, m': string, h': string, p': string)
    requires Slashless(m) && Slashless(h) && Slashless(p) && Slashless(m') && Slashless(h') && Slashless(p')
    ensures SourceKey(m, h, p) == SourceKey(m', h', p') ==> m == m' && h == h' && p == p'
    ensures UncollaredKey(m, p) == UncollaredKey(m', p') ==> m == m' && p == p'
    ensures SourceKey(m, h, p) != UncollaredKey(m', p')
  {
    SourceKeyParts(m, h, p);
    SourceKeyParts(m', h', p');
    UncollaredKeyParts(m, p);
    UncollaredKeyParts(m', p');
  }

  function SourceRows(src: Source): (rows: seq<Row>)
    ensures |rows| == |src.pipeInfos|
  {
    seq(|src.pipeInfos|, i requires 0 <= i < |src.pipeInfos| =>
      Row(SourceKey(src.manifold, src.handle, src.pipeInfos[i].pipe), src.pipeInfos[i]))
  }

  function AllSourceRows(sources: seq<Source>): seq<Row> {
    if sources == [] then [] else AllSourceRows(sources[..|sources| - 1]) + SourceRows(sources[|sources| - 1])
  }

  function UncollaredRows(us: seq<UncollaredPipe>): (rows: seq<Row>)
    ensures |rows| == |us|
  {
    seq(|us|, i requires 0 <= i < |us| => Row(UncollaredKey(us[i].manifold, us[i].name), us[i].info))
  }

  /** Both row families in walking order. */
  function Rows(reply: ListReply): seq<Row> {
    AllSourceRows(reply.sources) + UncollaredRows(reply.uncollared)
  }

  /** Unread above Total (a mid-update race) clamps to zero instead of underflowing. */
  function Clamped(info: PipeInfo): nat { if info.unread > info.total then 0 else info.total - info.unread }

  function WatermarksOf(rows: seq<Row>): Watermarks {
    if rows == [] then map[] else
      var n := |rows| - 1;
      WatermarksOf(rows[..n])[rows[n].key := Clamped(rows[n].info)]
  }

  lemma WatermarksSnoc(rows: seq<Row>, row: Row)
    ensures WatermarksOf(rows + [row]) == WatermarksOf(rows)[row.key := Clamped(row.info)]
  {
    assert (rows + [row])[..|rows|] == rows;
  }

  method SubsReplyWatermarks(reply: ListReply) returns (wm: Watermarks)
    ensures wm == WatermarksOf(Rows(reply))
  {
    wm := map[];
    for i := 0 to |reply.sources|
      invariant wm == WatermarksOf(AllSourceRows(reply.sources[..i]))
    {
      wm := AddSource(wm, reply.sources[i], AllSourceRows(reply.sources[..i]));
      assert reply.sources[..i + 1][..i] == reply.sources[..i];
    }
    assert reply.sources[..|reply.sources|] == reply.sources;
    wm := AddUncollared(wm, reply.uncollared, AllSourceRows(reply.sources));
  }

  /** The inner loop over one source's pipes. */
  method AddSource(wm: Watermarks, src: Source, ghost done: seq<Row>) returns (wm': Watermarks)
    requires wm == WatermarksOf(done)
    ensures wm' == WatermarksOf(done + SourceRows(src))
  {
    wm' := wm;
    ghost var rows := done;
    for j := 0 to |src.pipeInfos|
      invariant rows == done + SourceRows(src)[..j] && wm' == WatermarksOf(rows)
    {
      var p := src.pipeInfos[j];
      var row := Row(SourceKey(src.manifold, src.handle, p.pipe), p);
      WatermarksSnoc(rows, row);
      wm' := wm'[row.key := Clamped(p)];
      rows := rows + [row];
    }
    assert rows == done + SourceRows(src);
  }

  method AddUncollared(wm: Watermarks, us: seq<UncollaredPipe>, ghost done: seq<Row>) returns (wm': Watermarks)
    requires wm == WatermarksOf(done)
    ensures wm' == WatermarksOf(done + UncollaredRows(us))
  {
    wm' := wm;
    ghost var rows := done;
    for i := 0 to |us|
      invariant rows == done + UncollaredRows(us)[..i] && wm' == WatermarksOf(rows)
    {
      var row := Row(UncollaredKey(us[i].manifold, us[i].name), us[i].info);
      WatermarksSnoc(rows, row);
      wm' := wm'[row.key := Clamped(row.info)];
      rows := rows + [row];
    }
    assert rows == done + UncollaredRows(us);
  }

  predicate HasUnread(rows: seq<Row>) { exists i :: 0 <= i < |rows| && rows[i].info.unread > 0 }

  predicate StampedUnread(row: Row) { row.info.unread > 0 && row.info.lastAt.Some? }

  /** The newest stamp on an unread row; zero when youth cannot be proved. */
  function NewestUnread(rows: seq<Row>): (t: Time)
    ensures t >= ZERO
    ensures forall i :: 0 <= i < |rows| && StampedUnread(rows[i]) ==> rows[i].info.lastAt.value <= t
    ensures t != ZERO ==> exists i :: 0 <= i < |rows| && StampedUnread(rows[i]) && rows[i].info.lastAt.value == t
  {
    if rows == [] then ZERO else
      var n := |rows| - 1;
      var t := NewestUnread(rows[..n]);
      if StampedUnread(rows[n]) && rows[n].info.lastAt.value > t then rows[n].info.lastAt.value else t
  }

  /** Some pipe present in both snapshots was read further. */
  ghost predicate Advanced(baseline: Option<Watermarks>, next: Watermarks) {
    baseline.Some? && exists k :: k in next && k in baseline.value && next[k] > baseline.value[k]
  }

  method WatermarkAdvanced(baseline: Option<Watermarks>, next: Watermarks) returns (adv: bool)
    ensures adv <==> Advanced(baseline, next)
  {
    var left := next.Keys;
    while left != {}
      invariant left <= next.Keys
      invariant baseline.Some? ==>
        forall k :: k in next.Keys - left && k in baseline.value ==> next[k] <= baseline.value[k]
      decreases left
    {
      var k :| k in left;
      if baseline.Some? && k in baseline.value && next[k] > baseline.value[k] {
        return true;
      }
      left := left - {k};
    }
    adv := false;
  }

  // ----- the same, from the reply alone -----

  /** `row` is one of the reply's pipes, under the key its place gives it. */
  predicate Lists(reply: ListReply, row: Row) {
    || (exists i, j ::
          && 0 <= i < |reply.sources| && 0 <= j < |reply.sources[i].pipeInfos|
          && row.info == reply.sources[i].pipeInfos[j]
          && row.key == "s/" + reply.sources[i].manifold + "/" + reply.sources[i].handle + "/" + row.info.pipe)
    || (exists i ::
          && 0 <= i < |reply.uncollared| && row.info == reply.uncollared[i].info
          && row.key == "u/" + reply.uncollared[i].manifold + "/" + reply.uncollared[i].name)
  }

  lemma {:induction false} SourceRowsExact(sources: seq<Source>, row: Row)
    ensures row in AllSourceRows(sources) <==>
            exists i, j :: 0 <= i < |sources| && 0 <= j < |sources[i].pipeInfos| &&
                           row.info == sources[i].pipeInfos[j] &&
                           row.key == SourceKey(sources[i].manifold, sources[i].handle, row.info.pipe)
  {
    if sources != [] {
      var n := |sources| - 1;
      var before, last := sources[..n], SourceRows(sources[n]);
      SourceRowsExact(before, row);
      assert row in AllSourceRows(sources) <==> row in AllSourceRows(before) || row in last;
      if row in last {
        var j :| 0 <= j < |last| && last[j] == row;
        assert row.info == sources[n].pipeInfos[j];
      }
      if i, j :| 0 <= i < |sources| && 0 <= j < |sources[i].pipeInfos| && row.info == sources[i].pipeInfos[j] &&
                 row.key == SourceKey(sources[i].manifold, sources[i].handle, row.info.pipe) {
        if i == n { assert last[j] == row; } else { assert before[i] == sources[i]; }
      }
    }
  }

  lemma UncollaredRowsExact(us: seq<UncollaredPipe>, row: Row)
    ensures row in UncollaredRows(us) <==>
            exists i :: 0 <= i < |us| && row.info == us[i].info && row.key == UncollaredKey(us[i].manifold, us[i].name)
  {
    if i :| 0 <= i < |us| && row.info == us[i].info && row.key == UncollaredKey(us[i].manifold, us[i].name) {
      assert UncollaredRows(us)[i] == row;
    }
  }

  /** Every pipe of the reply is walked, and nothing else. */
  lemma RowsExact(reply: ListReply, row: Row)
    ensures row in Rows(reply) <==> Lists(reply, row)
  {
    SourceRowsExact(reply.sources, row);
    UncollaredRowsExact(reply.uncollared, row);
  }

  /** The last row under a key decides its watermark. */
  lemma {:induction false} LastRowDecides(rows: seq<Row>, i: nat)
    requires i < |rows| && forall j :: i < j < |rows| ==> rows[j].key != rows[i].key
    ensures rows[i].key in WatermarksOf(rows)
    ensures var info := rows[i].info;
            if info.unread <= info.total then WatermarksOf(rows)[rows[i].key] + info.unread == info.total
            else WatermarksOf(rows)[rows[i].key] == 0
  {
    var n := |rows| - 1;
    if i < n {
      LastRowDecides(rows[..n], i);
    }
  }

  lemma {:induction false} WatermarkKeys(rows: seq<Row>, key: string)
    ensures key in WatermarksOf(rows) <==> exists i :: 0 <= i < |rows| && rows[i].key == key
    ensures key in WatermarksOf(rows) ==>
              exists i :: 0 <= i < |rows| && rows[i].key == key && forall j :: i < j < |rows| ==> rows[j].key != key
  {
    if rows != [] {
      var n := |rows| - 1;
      WatermarkKeys(rows[..n], key);
      if rows[n].key != key && key in WatermarksOf(rows[..n]) {
        var i :| 0 <= i < n && rows[..n][i].key == key && forall j :: i < j < n ==> rows[..n][j].key != key;
        assert rows[i].key == key;
        assert forall j :: i < j < |rows| ==> rows[j].key != key;
      }
    }
  }

  predicate KeysUnique(reply: ListReply) {
    forall i, j :: 0 <= i < j < |Rows(reply)| ==> Rows(reply)[i].key != Rows(reply)[j].key
  }

  /** A snapshot's watermarks: one per pipe, the messages of it that have been read,
      or zero where the counts contradict each other. */
  lemma WatermarksSpelledOut(reply: ListReply, row: Row)
    requires KeysUnique(reply) && Lists(reply, row)
    ensures var wm := WatermarksOf(Rows(reply));
            row.key in wm &&
            if row.info.unread <= row.info.total then wm[row.key] + row.info.unread == row.info.total
            else wm[row.key] == 0
  {
    RowsExact(reply, row);
    var i :| 0 <= i < |Rows(reply)| && Rows(reply)[i] == row;
    LastRowDecides(Rows(reply), i);
  }

  lemma WatermarkOwner(reply: ListReply, key: string) returns (row: Row)
    requires key in WatermarksOf(Rows(reply))
    ensures Lists(reply, row) && row.key == key
    ensures if row.info.unread <= row.info.total
            then WatermarksOf(Rows(reply))[key] + row.info.unread == row.info.total
            else WatermarksOf(Rows(reply))[key] == 0
  {
    var rows := Rows(reply);
    WatermarkKeys(rows, key);
    var i :| 0 <= i < |rows| && rows[i].key == key && forall j :: i < j < |rows| ==> rows[j].key != key;
    LastRowDecides(rows, i);
    row := rows[i];
    RowsExact(reply, row);
  }

  /** New mail alone proves nothing: while no pipe has more read messages than before,
      no snapshot counts as advanced. */
  lemma NothingReadNothingAdvanced(a: ListReply, b: ListReply)
    requires forall x, y :: Lists(a, x) && Lists(b, y) && x.key == y.key ==>
               x.info.unread <= x.info.total && y.info.total - y.info.unread <= x.info.total - x.info.unread
    ensures !Advanced(Some(WatermarksOf(Rows(a))), WatermarksOf(Rows(b)))
  {
    var base, next := WatermarksOf(Rows(a)), WatermarksOf(Rows(b));
    forall key | key in base && key in next ensures next[key] <= base[key] {
      var x := WatermarkOwner(a, key);
      var y := WatermarkOwner(b, key);
    }
  }

  /** And one read message does: a pipe in both snapshots with more read than before. */
  lemma OneReadAdvances(a: ListReply, b: ListReply, x: Row, y: Row)
    requires KeysUnique(a) && KeysUnique(b) && Lists(a, x) && Lists(b, y) && x.key == y.key
    requires x.info.unread <= x.info.total && y.info.unread <= y.info.total
    requires y.info.total - y.info.unread > x.info.total - x.info.unread
    ensures Advanced(Some(WatermarksOf(Rows(a))), WatermarksOf(Rows(b)))
  {
    WatermarksSpelledOut(a, x);
    WatermarksSpelledOut(b, y);
  }

  /** Something is unread iff some pipe says so, and the newest stamp is that of an
      unread pipe, or zero when none is stamped. */
  lemma UnreadSpelledOut(reply: ListReply)
    ensures HasUnread(Rows(reply)) <==> exists row :: Lists(reply, row) && row.info.unread > 0
    ensures var t := NewestUnread(Rows(reply));
            && t >= 0
            && (forall row :: Lists(reply, row) && row.info.unread > 0 && row.info.lastAt.Some? ==>
                  row.info.lastAt.value <= t)
            && (t != 0 ==> exists row :: Lists(reply, row) && row.info.unread > 0 && row.info.lastAt == Some(t))
  {
    var rows := Rows(reply);
    forall row ensures row in rows <==> Lists(reply, row) { RowsExact(reply, row); }
    if HasUnread(rows) {
      var i :| 0 <= i < |rows| && rows[i].info.unread > 0;
      assert rows[i] in rows;
    }
    if NewestUnread(rows) != 0 {
      var i :| 0 <= i < |rows| && StampedUnread(rows[i]) && rows[i].info.lastAt.value == NewestUnread(rows);
      assert rows[i] in rows;
    }
    forall row | Lists(reply, row) && row.info.unread > 0 && row.info.lastAt.Some?
      ensures row.info.lastAt.value <= NewestUnread(rows)
    {
      var i :| 0 <= i < |rows| && rows[i] == row;
      assert StampedUnread(rows[i]);
    }
  }

  // ----- configuration and state -----

  datatype Config = Config(idleAfter: Time, cooldown: Time, cooldownMax: Time, message: string)

  const MINUTE: Time := 60 * SECOND
  const DEFAULT_MESSAGE := "Please run 'ppz subs read' and action messages\n"

  function Normalised(cfg: Config): Config {
    Config(
      if cfg.idleAfter <= 0 then 60 * SECOND else cfg.idleAfter,
      if cfg.cooldown <= 0 then 5 * MINUTE else cfg.cooldown,
      if cfg.cooldownMax <= 0 then 30 * MINUTE else cfg.cooldownMax,
      if cfg.message == "" then DEFAULT_MESSAGE else cfg.message)
  }

  /** A configuration the constructor produces, with durations in range and a
      ladder that does not overflow. */
  predicate Sane(cfg: Config) {
    && cfg.idleAfter > 0 && cfg.cooldown > 0 && cfg.cooldownMax > 0 && cfg.message != ""
    && Int64(cfg.cooldown) && Int64(cfg.cooldownMax)
    && TopRung(cfg.cooldown, Ceiling(cfg.cooldown, cfg.cooldownMax)) <= MAX64
  }

  function Gap(cfg: Config, unacked: nat): Time { Cooldown(cfg.cooldown, cfg.cooldownMax, unacked) }

  datatype State = State(
    pending: bool, pendingSince: Time, lastUserInput: Time, lastAlert: Time,
    unacked: nat, baseline: Option<Watermarks>, deferUntil: Time)

  const INITIAL := State(false, ZERO, ZERO, ZERO, 0, None, ZERO)

  predicate Ready(cfg: Config, s: State, now: Time) {
    && s.pending
    && !(s.lastUserInput != ZERO && now - s.lastUserInput < cfg.idleAfter)
    && !(s.lastUserInput == ZERO && s.pendingSince != ZERO && now - s.pendingSince < cfg.idleAfter)
    && !(Gap(cfg, s.unacked) > 0 && s.lastAlert != ZERO && now - s.lastAlert < Gap(cfg, s.unacked))
    && !(now < s.deferUntil)
  }

  /** What a successful fire-time confirm contributes to the decision. */
  datatype Sample = Sample(wm: Watermarks, newest: Time)

  function SampleOf(reply: ListReply): Sample { Sample(WatermarksOf(Rows(reply)), NewestUnread(Rows(reply))) }

  datatype Outcome = Quiet | Blocked | Suppressed | Deferred | Injected

  /** The agent read something in this window and what is left unread is young. */
  ghost predicate ShouldDefer(cfg: Config, s: State, now: Time, sample: Option<Sample>) {
    && sample.Some? && Advanced(s.baseline, sample.value.wm)
    && sample.value.newest != ZERO && now - sample.value.newest < cfg.idleAfter
  }

  ghost predicate ProvesConsumption(s: State, sample: Option<Sample>) {
    sample.Some? && Advanced(s.baseline, sample.value.wm)
  }

  // ----- one critical section each -----

  function Armed(s: State, now: Time): State {
    s.(pending := true, pendingSince := if s.pending then s.pendingSince else now)
  }

  function ArmedWith(s: State, now: Time, wm: Watermarks): State {
    Armed(s, now).(baseline := if s.baseline.None? then Some(wm) else s.baseline)
  }

  function Cleared(s: State): State { s.(pending := false, unacked := 0) }

  ghost function Decided(cfg: Config, s: State, now: Time, sample: Option<Sample>): (State, Outcome) {
    if !Ready(cfg, s, now) then (s, Blocked)
    else if ShouldDefer(cfg, s, now, sample) then
      (s.(deferUntil := now + cfg.idleAfter, baseline := Some(sample.value.wm), unacked := 0), Deferred)
    else
      (s.(pending := false, lastAlert := now,
          unacked := (if ProvesConsumption(s, sample) then 0 else s.unacked) + 1,
          baseline := if sample.Some? then Some(sample.value.wm) else s.baseline), Injected)
  }

  /** One line of a run's history. `proof`: this step proved the agent consumed
      something. */
  datatype Entry = Entry(outcome: Outcome, now: Time, proof: bool)

  /** The end of an attempt: nothing unread suppresses, a failed confirm fires
      anyway, everything else is decided on the sample. */
  ghost function FinishStep(cfg: Config, s: State, now: Time, confirmed: Option<ListReply>): (State, Entry) {
    if confirmed.Some? && !HasUnread(Rows(confirmed.value)) then
      (Cleared(s), Entry(Suppressed, now, true))
    else
      var sample := if confirmed.Some? then Some(SampleOf(confirmed.value)) else None;
      var (s', outcome) := Decided(cfg, s, now, sample);
      (s', Entry(outcome, now, outcome != Blocked && ProvesConsumption(s, sample)))
  }

  /** The mutable machine. `ReadyAlert` holds the lock in two separate stretches
      with the confirm round trip between them; each stretch is one method. */
  class StateMachine {
    const cfg: Config
    var pending: bool
    var pendingSince: Time
    var lastUserInput: Time
    var lastAlert: Time
    var unacked: nat
    var baseline: Option<Watermarks>
    var deferUntil: Time

    constructor (cfg: Config)
      ensures this.cfg == Normalised(cfg) && Current() == INITIAL
    {
      this.cfg := Normalised(cfg);
      pending, pendingSince, lastUserInput, lastAlert := false, ZERO, ZERO, ZERO;
      unacked, baseline, deferUntil := 0, None, ZERO;
    }

    function Current(): State
      reads this
    {
      State(pending, pendingSince, lastUserInput, lastAlert, unacked, baseline, deferUntil)
    }

    method ObserveUserInput(now: Time, input: seq<int>)
      modifies this
      ensures Current() == if input == [] then old(Current()) else old(Current()).(lastUserInput := now)
    {
      if input == [] {
        return;
      }
      lastUserInput := now;
    }

    method ObserveSubsUnread(now: Time)
      modifies this
      ensures Current() == Armed(old(Current()), now)
    {
      if !pending {
        pendingSince := now;
      }
      pending := true;
    }

    method ObserveSubsUnreadSnapshot(now: Time, reply: ListReply)
      modifies this
      ensures Current() == ArmedWith(old(Current()), now, WatermarksOf(Rows(reply)))
    {
      if !pending {
        pendingSince := now;
      }
      pending := true;
      if baseline.None? {
        var wm := SubsReplyWatermarks(reply);
        baseline := Some(wm);
      }
    }

    method IsReady(now: Time) returns (ok: bool)
      requires Int64(cfg.cooldown) && Int64(cfg.cooldownMax)
      ensures ok <==> Ready(cfg, Current(), now)
    {
      if !pending {
        return false;
      }
      if lastUserInput != ZERO && now - lastUserInput < cfg.idleAfter {
        return false;
      }
      if lastUserInput == ZERO && pendingSince != ZERO && now - pendingSince < cfg.idleAfter {
        return false;
      }
      var gap, _ := RepeatCooldown(cfg.cooldown, cfg.cooldownMax, unacked);
      if gap > 0 && lastAlert != ZERO && now - lastAlert < gap {
        return false;
      }
      ok := !(now < deferUntil);
    }

    /** The confirm came back with nothing unread. */
    method Suppress()
      modifies this
      ensures Current() == Cleared(old(Current()))
    {
      pending := false;
      unacked := 0;
    }

    /** The second locked stretch: re-check, then defer or inject. */
    method Decide(now: Time, sample: Option<Sample>) returns (alert: string)
      requires Int64(cfg.cooldown) && Int64(cfg.cooldownMax)
      modifies this
      ensures Current() == Decided(cfg, old(Current()), now, sample).0
      ensures alert == if Decided(cfg, old(Current()), now, sample).1 == Injected then cfg.message else ""
    {
      var ok := IsReady(now);
      if !ok {
        return "";
      }
      var advanced := false;
      if sample.Some? {
        advanced := WatermarkAdvanced(baseline, sample.value.wm);
      }
      if advanced && sample.value.newest != ZERO && now - sample.value.newest < cfg.idleAfter {
        deferUntil := now + cfg.idleAfter;
        baseline := Some(sample.value.wm);
        unacked := 0;
        return "";
      }
      pending := false;
      lastAlert := now;
      if sample.Some? {
        if advanced {
          unacked := 0;
        }
        baseline := Some(sample.value.wm);
      }
      unacked := unacked + 1;
      alert := cfg.message;
    }

    /** Everything an attempt does once its confirm has returned. */
    method Conclude(now: Time, confirmed: Option<ListReply>) returns (alert: string)
      requires Int64(cfg.cooldown) && Int64(cfg.cooldownMax)
      modifies this
      ensures Current() == FinishStep(cfg, old(Current()), now, confirmed).0
      ensures alert == if FinishStep(cfg, old(Current()), now, confirmed).1.outcome == Injected then cfg.message else ""
    {
      if confirmed.None? {
        alert := Decide(now, None);
        return;
      }
      var rows := Rows(confirmed.value);
      if !HasUnread(rows) {
        Suppress();
        return "";
      }
      var wm := SubsReplyWatermarks(confirmed.value);
      alert := Decide(now, Some(Sample(wm, NewestUnread(rows))));
    }
  }

  // ----- the decision, from the state and the reply alone -----

  /** The shipped values stand in for whatever is not positive, or empty. */
  lemma DefaultsSpelledOut(cfg: Config)
    ensures var c := Normalised(cfg);
            && (cfg.idleAfter > 0 ==> c.idleAfter == cfg.idleAfter)
            && (cfg.idleAfter <= 0 ==> c.idleAfter == 60_000_000_000)
            && (cfg.cooldown > 0 ==> c.cooldown == cfg.cooldown)
            && (cfg.cooldown <= 0 ==> c.cooldown == 300_000_000_000)
            && (cfg.cooldownMax > 0 ==> c.cooldownMax == cfg.cooldownMax)
            && (cfg.cooldownMax <= 0 ==> c.cooldownMax == 1_800_000_000_000)
            && c.message ==
               if cfg.message == "" then "Please run 'ppz subs read' and action messages\n" else cfg.message
  {
  }

  /** When the gates are open: something is pending; the last keystroke, or without one
      the start of the episode, is an idle window back; the last alert is a ladder gap
      back; and a deferral has passed. */
  lemma GatesSpelledOut(cfg: Config, s: State, now: Time)
    requires Sane(cfg)
    ensures Ready(cfg, s, now) <==>
            && s.pending
            && (s.lastUserInput == 0 || s.lastUserInput + cfg.idleAfter <= now)
            && (s.lastUserInput != 0 || s.pendingSince == 0 || s.pendingSince + cfg.idleAfter <= now)
            && (s.lastAlert == 0 || s.lastAlert + Ladder(cfg.cooldown, cfg.cooldownMax, s.unacked) <= now)
            && s.deferUntil <= now
  {
    var gap := Ladder(cfg.cooldown, cfg.cooldownMax, s.unacked);
    LoopIsLadderIff(cfg.cooldown, cfg.cooldownMax);
    assert Gap(cfg, s.unacked) == gap;
    LadderPositive(cfg.cooldown, cfg.cooldownMax, s.unacked);
  }

  /** What an attempt with open gates does. Nothing unread ends the episode; a read
      since the baseline and a young rest put the alert off by an idle window; anything
      else fires, on the first rung after a read and one rung up otherwise. */
  lemma AttemptSpelledOut(cfg: Config, s: State, now: Time, reply: ListReply)
    requires Ready(cfg, s, now)
    ensures var (t, entry) := FinishStep(cfg, s, now, Some(reply));
            var wm, newest := WatermarksOf(Rows(reply)), NewestUnread(Rows(reply));
            var read := Advanced(s.baseline, wm);
            if forall row :: Lists(reply, row) ==> row.info.unread == 0 then
              entry.outcome == Suppressed && t == s.(pending := false, unacked := 0)
            else if read && newest != 0 && now < newest + cfg.idleAfter then
              && entry.outcome == Deferred
              && t == s.(deferUntil := now + cfg.idleAfter, baseline := Some(wm), unacked := 0)
            else
              && entry.outcome == Injected
              && t == s.(pending := false, lastAlert := now, baseline := Some(wm),
                         unacked := if read then 1 else s.unacked + 1)
  {
    UnreadSpelledOut(reply);
    DecisionSpelledOut(cfg, s, now, SampleOf(reply));
  }

  lemma DecisionSpelledOut(cfg: Config, s: State, now: Time, sample: Sample)
    requires Ready(cfg, s, now)
    ensures var read := Advanced(s.baseline, sample.wm);
            Decided(cfg, s, now, Some(sample)) ==
            if read && sample.newest != 0 && now < sample.newest + cfg.idleAfter
            then (s.(deferUntil := now + cfg.idleAfter, baseline := Some(sample.wm), unacked := 0), Deferred)
            else (s.(pending := false, lastAlert := now, baseline := Some(sample.wm),
                     unacked := if read then 1 else s.unacked + 1), Injected)
  {
  }

  /** A confirm that failed fires all the same and leaves the baseline alone; closed
      gates change nothing, unless nothing is unread. */
  lemma OtherAttemptsSpelledOut(cfg: Config, s: State, now: Time, confirmed: Option<ListReply>)
    ensures Ready(cfg, s, now) && confirmed.None? ==>
              FinishStep(cfg, s, now, None) ==
              (s.(pending := false, lastAlert := now, unacked := s.unacked + 1), Entry(Injected, now, false))
    ensures !Ready(cfg, s, now) ==>
              FinishStep(cfg, s, now, confirmed) ==
              if confirmed.Some? && (forall row :: Lists(confirmed.value, row) ==> row.info.unread == 0)
              then (s.(pending := false, unacked := 0), Entry(Suppressed, now, true))
              else (s, Entry(Blocked, now, false))
  {
    if confirmed.Some? { UnreadSpelledOut(confirmed.value); }
  }

  /** An observation starts an episode or joins the one that is pending, and seeds the
      baseline only when there is none. */
  lemma ArmingSpelledOut(s: State, now: Time, wm: Watermarks)
    ensures Armed(s, now) == if s.pending then s else s.(pending := true, pendingSince := now)
    ensures ArmedWith(s, now, wm) ==
            if s.baseline.None? then Armed(s, now).(baseline := Some(wm)) else Armed(s, now)
  {
  }
}
