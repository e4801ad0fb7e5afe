/** Whole runs of the alert machine. The flushing thread's attempt takes three
    steps - locked readiness check, unlocked confirm, locked decision - and
    observations by other threads may land between any two of them. */
module AlertRuns {
  import opened Common
  import opened AlertLadder
  import opened SubsAlert

  /** Where the flushing thread is. `confirmed` is None when the confirm failed or
      none is configured. */
  datatype Flusher =
    | Idle
    | Confirming(now: Time)
    | Deciding(now: Time, confirmed: Option<ListReply>)

  datatype System = System(alert: State, flusher: Flusher)

  datatype Event =
    | UserInput(now: Time, input: seq<int>)
    | Arm(now: Time)
    | ArmSnapshot(now: Time, reply: ListReply)
    | Attempt(now: Time)
    | Confirm(confirmed: Option<ListReply>)
    | Finish

  const NOTHING := Entry(Quiet, ZERO, false)

  /** One step. An event the flushing thread is not at does nothing. */
  ghost function Step(cfg: Config, y: System, e: Event): (System, Entry) {
    match e
    case UserInput(now, input) =>
      (y.(alert := if input == [] then y.alert else y.alert.(lastUserInput := now)), NOTHING)
    case Arm(now) => (y.(alert := Armed(y.alert, now)), NOTHING)
    case ArmSnapshot(now, reply) => (y.(alert := ArmedWith(y.alert, now, WatermarksOf(Rows(reply)))), NOTHING)
    case Attempt(now) =>
      if y.flusher.Idle? && Ready(cfg, y.alert, now) then (y.(flusher := Confirming(now)), NOTHING) else (y, NOTHING)
    case Confirm(reply) =>
      if y.flusher.Confirming? then (y.(flusher := Deciding(y.flusher.now, reply)), NOTHING) else (y, NOTHING)
    case Finish =>
      if y.flusher.Deciding? then
        var (s, entry) := FinishStep(cfg, y.alert, y.flusher.now, y.flusher.confirmed);
        (System(s, Idle), entry)
      else (y, NOTHING)
  }

  const START := System(INITIAL, Idle)

  ghost function Run(cfg: Config, events: seq<Event>): System {
    if events == [] then START else
      var n := |events| - 1;
      Step(cfg, Run(cfg, events[..n]), events[n]).0
  }

  ghost function History(cfg: Config, events: seq<Event>): (h: seq<Entry>)
    ensures |h| == |events|
  {
    if events == [] then [] else
      var n := |events| - 1;
      History(cfg, events[..n]) + [Step(cfg, Run(cfg, events[..n]), events[n]).1]
  }

  /** The wall clock is past the zero time. */
  predicate Clocked(events: seq<Event>) {
    forall i :: 0 <= i < |events| && events[i].Attempt? ==> events[i].now > ZERO
  }

  function Injections(h: seq<Entry>): nat {
    if h == [] then 0 else
      Injections(h[..|h| - 1]) + if h[|h| - 1].outcome == Injected then 1 else 0
  }

  function Deferrals(h: seq<Entry>): nat {
    if h == [] then 0 else
      Deferrals(h[..|h| - 1]) + if h[|h| - 1].outcome == Deferred then 1 else 0
  }

  /** A deferral, or an injection that returned the ladder to its first rung: both
      rest on the agent having read something since the baseline. */
  predicate Credited(entry: Entry) { entry.proof && entry.outcome != Suppressed }

  function Credits(h: seq<Entry>): nat {
    if h == [] then 0 else Credits(h[..|h| - 1]) + if Credited(h[|h| - 1]) then 1 else 0
  }

  /** No step at index `from` or later proved consumption. */
  predicate NoProof(h: seq<Entry>, from: nat) {
    forall i :: from <= i < |h| ==> !h[i].proof
  }

  // ----- the rung counts unacknowledged alerts -----

  /** In every run the rung equals the alerts injected since the last proof of
      consumption (all of them, if there never was one). An injection that itself
      proved consumption is the first of its own stretch. */
  lemma {:induction false} RungCountsUnacknowledged(cfg: Config, events: seq<Event>, last: nat)
    requires last <= |events|
    requires last == 0 || History(cfg, events)[last - 1].proof
    requires NoProof(History(cfg, events), last)
    ensures Run(cfg, events).alert.unacked ==
            Injections(History(cfg, events)[StretchStart(History(cfg, events), last)..])
  {
    if events != [] {
      var n := |events| - 1;
      var before, entry := History(cfg, events[..n]), Step(cfg, Run(cfg, events[..n]), events[n]).1;
      StepRung(cfg, Run(cfg, events[..n]), events[n]);
      assert History(cfg, events) == before + [entry];
      if last <= n {
        StretchSnoc(before, entry, last);
        RungCountsUnacknowledged(cfg, events[..n], last);
      } else {
        LastIsProof(before + [entry]);
      }
    }
  }

  lemma StretchSnoc(h: seq<Entry>, entry: Entry, last: nat)
    requires last <= |h| && NoProof(h + [entry], last)
    ensures NoProof(h, last) && !entry.proof
    ensures last > 0 ==> (h + [entry])[last - 1] == h[last - 1]
    ensures Injections((h + [entry])[StretchStart(h + [entry], last)..]) ==
            Injections(h[StretchStart(h, last)..]) + if entry.outcome == Injected then 1 else 0
  {
    var all := h + [entry];
    assert all[..|h|] == h && all[|h|] == entry;
    forall i | last <= i < |h| ensures !h[i].proof { assert all[i] == h[i]; }
    InjectionsSnoc(all, StretchStart(all, last));
  }

  /** Where the stretch after proof number `last - 1` begins. */
  function StretchStart(h: seq<Entry>, last: nat): nat
    requires last <= |h|
  {
    if last > 0 && h[last - 1].outcome == Injected then last - 1 else last
  }

  lemma InjectionsSnoc(h: seq<Entry>, from: nat)
    requires from < |h|
    ensures Injections(h[from..]) ==
            Injections(h[..|h| - 1][from..]) + if h[|h| - 1].outcome == Injected then 1 else 0
  {
    var s := h[from..];
    assert s[..|s| - 1] == h[..|h| - 1][from..];
  }

  lemma LastIsProof(h: seq<Entry>)
    requires h != []
    ensures Injections(h[StretchStart(h, |h|)..]) == if h[|h| - 1].outcome == Injected then 1 else 0
  {
    var n := |h| - 1;
    if h[n].outcome == Injected {
      InjectionsSnoc(h, n);
      assert h[..n][n..] == [];
    } else {
      assert h[|h|..] == [];
    }
  }

  /** How one step moves the rung. */
  lemma StepRung(cfg: Config, y: System, e: Event)
    ensures var (y', entry) := Step(cfg, y, e);
            var i := if entry.outcome == Injected then 1 else 0;
            y'.alert.unacked == (if entry.proof then 0 else y.alert.unacked) + i
  {
  }

  // ----- spacing -----

  /** The flushing thread only carries a clock reading it was given. */
  lemma {:induction false} CarriesClock(cfg: Config, events: seq<Event>)
    requires Clocked(events)
    ensures var f := Run(cfg, events).flusher; f.Idle? || f.now > ZERO
    ensures Run(cfg, events).alert.lastAlert >= ZERO
  {
    if events != [] {
      CarriesClock(cfg, events[..|events| - 1]);
    }
  }

  /** The first and last injection of the history from `a` on. */
  function FirstInjection(h: seq<Entry>): Time
    requires Injections(h) > 0
  {
    if Injections(h[..|h| - 1]) > 0 then FirstInjection(h[..|h| - 1]) else h[|h| - 1].now
  }

  function LastInjection(h: seq<Entry>): Time
    requires Injections(h) > 0
  {
    if h[|h| - 1].outcome == Injected then h[|h| - 1].now else LastInjection(h[..|h| - 1])
  }

  /** Every injection waits out the gap of the rung it finds. */
  lemma StepSpacing(cfg: Config, y: System, e: Event)
    requires Sane(cfg)
    ensures var (y', entry) := Step(cfg, y, e);
            entry.outcome == Injected ==>
              && y'.alert.lastAlert == entry.now
              && (y.alert.lastAlert != ZERO ==>
                  entry.now - y.alert.lastAlert >= Ladder(cfg.cooldown, cfg.cooldownMax, y.alert.unacked))
    ensures var (y', entry) := Step(cfg, y, e);
            entry.outcome != Injected ==> y'.alert.lastAlert == y.alert.lastAlert
  {
    LoopIsLadderIff(cfg.cooldown, cfg.cooldownMax);
    assert Gap(cfg, y.alert.unacked) == Ladder(cfg.cooldown, cfg.cooldownMax, y.alert.unacked);
    LadderPositive(cfg.cooldown, cfg.cooldownMax, y.alert.unacked);
  }

  /** A stretch of history that respects the ladder, given the state it ends in. */
  ghost predicate Spaced(cfg: Config, h: seq<Entry>, lastAlert: Time, unacked: nat) {
    Injections(h) > 0 ==>
      && LadderSum(cfg.cooldown, cfg.cooldownMax, Injections(h) - 1) <= LastInjection(h) - FirstInjection(h)
      && lastAlert == LastInjection(h) > ZERO
      && unacked >= Injections(h)
  }

  lemma SpacedSnoc(cfg: Config, h: seq<Entry>, entry: Entry,
                   lastAlert: Time, unacked: nat, lastAlert': Time, unacked': nat)
    requires cfg.cooldown > 0 && Spaced(cfg, h, lastAlert, unacked)
    requires entry.proof ==> h == []
    requires entry.outcome != Injected ==> lastAlert' == lastAlert && (entry.proof || unacked' == unacked)
    requires entry.outcome == Injected ==>
      && lastAlert' == entry.now > ZERO
      && unacked' == (if entry.proof then 0 else unacked) + 1
      && (lastAlert != ZERO ==> entry.now - lastAlert >= Ladder(cfg.cooldown, cfg.cooldownMax, unacked))
    ensures Spaced(cfg, h + [entry], lastAlert', unacked')
  {
    var all := h + [entry];
    assert all[..|all| - 1] == h;
    if entry.outcome == Injected && Injections(h) > 0 {
      LadderMonotone(cfg.cooldown, cfg.cooldownMax, Injections(h), unacked);
    }
  }

  /** The back-off bound, over any stretch of any run in which nothing after the
      stretch's first step proves consumption: N injections span at least the sum
      of the first N-1 rungs, whatever is observed in between. */
  lemma {:induction false} BackOffBound(cfg: Config, events: seq<Event>, a: nat)
    requires Sane(cfg) && Clocked(events) && a <= |events|
    requires NoProof(History(cfg, events), a + 1)
    ensures Spaced(cfg, History(cfg, events)[a..], Run(cfg, events).alert.lastAlert, Run(cfg, events).alert.unacked)
  {
    var h := History(cfg, events);
    if a < |events| {
      var n := |events| - 1;
      var before := History(cfg, events[..n]);
      assert before == h[..n];
      var y := Run(cfg, events[..n]);
      forall i | a + 1 <= i < n ensures !before[i].proof { assert before[i] == h[i]; }
      BackOffBound(cfg, events[..n], a);
      assert h[a..] == before[a..] + [h[n]];
      StepSpaced(cfg, events[..n], events[n], before[a..]);
    }
  }

  lemma StepSpaced(cfg: Config, events: seq<Event>, e: Event, h: seq<Entry>)
    requires Sane(cfg) && Clocked(events)
    requires var y := Run(cfg, events); Spaced(cfg, h, y.alert.lastAlert, y.alert.unacked)
    requires Step(cfg, Run(cfg, events), e).1.proof ==> h == []
    ensures var (y', entry) := Step(cfg, Run(cfg, events), e);
            Spaced(cfg, h + [entry], y'.alert.lastAlert, y'.alert.unacked)
  {
    var y := Run(cfg, events);
    var (y', entry) := Step(cfg, y, e);
    CarriesClock(cfg, events);
    StepSpacing(cfg, y, e);
    StepRung(cfg, y, e);
    StepClock(cfg, y, e);
    SpacedSnoc(cfg, h, entry, y.alert.lastAlert, y.alert.unacked, y'.alert.lastAlert, y'.alert.unacked);
  }

  lemma StepClock(cfg: Config, y: System, e: Event)
    ensures var entry := Step(cfg, y, e).1;
            entry.outcome == Injected ==> y.flusher.Deciding? && entry.now == y.flusher.now
  {
  }

  const SHIPPED := Normalised(Config(0, 0, 0, ""))

  lemma ShippedIsSane()
    ensures Sane(SHIPPED)
  {
    ModestCeilingIsSafe(SHIPPED.cooldown, SHIPPED.cooldownMax);
  }

  lemma {:induction false} ShippedSum(n: nat)
    requires n >= 3
    ensures LadderSum(5 * MINUTE, 30 * MINUTE, n) == 35 * MINUTE + (n - 3) * (30 * MINUTE)
  {
    if n == 3 {
      assert Pow2(1) == 2 && Pow2(2) == 4;
      assert LadderSum(5 * MINUTE, 30 * MINUTE, 0) == 0;
      assert LadderSum(5 * MINUTE, 30 * MINUTE, 1) == 5 * MINUTE;
      assert LadderSum(5 * MINUTE, 30 * MINUTE, 2) == 15 * MINUTE;
    } else {
      ShippedSum(n - 1);
      Pow2Monotone(3, n - 1);
      assert Pow2(3) == 8;
    }
  }

  lemma TwelveFit(n: nat)
    requires n > 0 && LadderSum(5 * MINUTE, 30 * MINUTE, n - 1) <= 300 * MINUTE
    ensures n <= 12
  {
    if n >= 4 {
      ShippedSum(n - 1);
      assert (n - 4) * (30 * MINUTE) <= 265 * MINUTE;
    }
  }

  /** The promise the ladder was introduced for: an agent blocked for five hours
      with something unread is nudged at most twelve times, not six hundred. */
  lemma FiveHourBlock(events: seq<Event>, a: nat)
    requires Clocked(events) && a <= |events|
    requires NoProof(History(SHIPPED, events), a + 1)
    requires var h := History(SHIPPED, events)[a..];
             Injections(h) > 0 ==> LastInjection(h) - FirstInjection(h) <= 300 * MINUTE
    ensures Injections(History(SHIPPED, events)[a..]) <= 12
  {
    ShippedIsSane();
    BackOffBound(SHIPPED, events, a);
    var n := Injections(History(SHIPPED, events)[a..]);
    if n > 0 {
      TwelveFit(n);
    }
  }

  // ----- the idle gates -----

  lemma StepGates(cfg: Config, y: System, e: Event)
    ensures var (y', entry) := Step(cfg, y, e);
            && (entry.outcome in {Injected, Deferred} ==>
                  && entry.now >= y.alert.deferUntil
                  && (y.alert.lastUserInput != ZERO ==> entry.now - y.alert.lastUserInput >= cfg.idleAfter))
            && y'.alert.deferUntil ==
               (if entry.outcome == Deferred then entry.now + cfg.idleAfter else y.alert.deferUntil)
            && y'.alert.lastUserInput ==
               (if e.UserInput? && e.input != [] then e.now else y.alert.lastUserInput)
  {
  }

  /** A deferral buys a full idle window: nothing is injected before it has passed,
      whatever is observed meanwhile. */
  lemma {:induction false} DeferralHonoured(cfg: Config, events: seq<Event>, i: nat)
    requires cfg.idleAfter > 0 && i < |events| && History(cfg, events)[i].outcome == Deferred
    ensures Run(cfg, events).alert.deferUntil >= History(cfg, events)[i].now + cfg.idleAfter
    ensures forall j :: i < j < |events| && History(cfg, events)[j].outcome == Injected ==>
              History(cfg, events)[j].now >= History(cfg, events)[i].now + cfg.idleAfter
  {
    var n := |events| - 1;
    var h, before := History(cfg, events), History(cfg, events[..n]);
    assert before == h[..n];
    StepGates(cfg, Run(cfg, events[..n]), events[n]);
    if i < n {
      assert before[i] == h[i];
      DeferralHonoured(cfg, events[..n], i);
      forall j | i < j < n && h[j].outcome == Injected ensures h[j].now >= h[i].now + cfg.idleAfter {
        assert before[j] == h[j];
      }
    }
  }

  /** Keystrokes carry a running clock. */
  predicate TypedInOrder(events: seq<Event>) {
    && (forall i :: 0 <= i < |events| && events[i].UserInput? ==> events[i].now > ZERO)
    && (forall i, j :: 0 <= i < j < |events| && events[i].UserInput? && events[j].UserInput? ==>
          events[i].now <= events[j].now)
  }

  /** No alert is decided over a typing user: every injection comes at least an idle
      window after every earlier keystroke, including one that landed while the
      confirm was in flight. */
  lemma {:induction false} TypingHonoured(cfg: Config, events: seq<Event>, i: nat)
    requires TypedInOrder(events) && i < |events| && events[i].UserInput? && events[i].input != []
    ensures Run(cfg, events).alert.lastUserInput >= events[i].now
    ensures forall j :: i < j < |events| && History(cfg, events)[j].outcome == Injected ==>
              History(cfg, events)[j].now - events[i].now >= cfg.idleAfter
  {
    var n := |events| - 1;
    var h, before := History(cfg, events), History(cfg, events[..n]);
    assert before == h[..n];
    StepGates(cfg, Run(cfg, events[..n]), events[n]);
    if i < n {
      TypingHonoured(cfg, events[..n], i);
      forall j | i < j < n && h[j].outcome == Injected ensures h[j].now - events[i].now >= cfg.idleAfter {
        assert before[j] == h[j];
      }
    }
  }

  predicate Arms(e: Event) { e.Arm? || e.ArmSnapshot? }

  function ArmCount(events: seq<Event>): nat {
    if events == [] then 0 else ArmCount(events[..|events| - 1]) + if Arms(events[|events| - 1]) then 1 else 0
  }

  /** Every alert answers an arming of its own: an injection uses the pending bit up. */
  lemma {:induction false} InjectionsNeedArming(cfg: Config, events: seq<Event>)
    ensures Injections(History(cfg, events)) + (if Run(cfg, events).alert.pending then 1 else 0) <= ArmCount(events)
  {
    if events != [] {
      var n := |events| - 1;
      InjectionsNeedArming(cfg, events[..n]);
      StepArming(cfg, Run(cfg, events[..n]), events[n]);
      assert History(cfg, events)[..n] == History(cfg, events[..n]);
    }
  }

  lemma StepArming(cfg: Config, y: System, e: Event)
    ensures var (y', entry) := Step(cfg, y, e);
            && (entry.outcome == Injected ==> y.alert.pending && !y'.alert.pending)
            && (y'.alert.pending && !y.alert.pending ==> Arms(e))
            && (Arms(e) ==> entry.outcome != Injected)
  {
  }

  predicate Unattended(events: seq<Event>) {
    forall i :: 0 <= i < |events| && events[i].UserInput? ==> events[i].input == []
  }

  /** Step `k` opened the episode that is still pending after all of `events`. */
  ghost predicate Opens(cfg: Config, events: seq<Event>, k: nat) {
    && k < |events| && Arms(events[k]) && !Run(cfg, events[..k]).alert.pending
    && forall i :: k < i <= |events| ==> Run(cfg, events[..i]).alert.pending
  }

  lemma OpensSnoc(cfg: Config, events: seq<Event>, e: Event, k: nat)
    requires Run(cfg, events + [e]).alert.pending
    requires if k < |events| then Opens(cfg, events, k) else k == |events| && Arms(e) && !Run(cfg, events).alert.pending
    ensures Opens(cfg, events + [e], k)
  {
    var all := events + [e];
    assert all[..k] == events[..k] && events[..|events|] == events;
    forall i | k < i <= |all| ensures Run(cfg, all[..i]).alert.pending {
      if i == |all| { assert all[..i] == all; } else { assert all[..i] == events[..i]; }
    }
  }

  lemma StepOpens(cfg: Config, y: System, e: Event)
    ensures var s := Step(cfg, y, e).0.alert;
            && (s.pending && y.alert.pending ==> s.pendingSince == y.alert.pendingSince)
            && (s.pending && !y.alert.pending ==> Arms(e) && s.pendingSince == e.now)
    ensures (e.UserInput? ==> e.input == []) ==> Step(cfg, y, e).0.alert.lastUserInput == y.alert.lastUserInput
  {
  }

  predicate ArmsAreStamped(events: seq<Event>) {
    forall i :: 0 <= i < |events| && Arms(events[i]) ==> events[i].now > ZERO
  }

  lemma {:induction false} PendingSinceOpening(cfg: Config, events: seq<Event>)
    requires Unattended(events) && ArmsAreStamped(events)
    ensures var s := Run(cfg, events).alert;
            && s.lastUserInput == ZERO
            && (s.pending ==> s.pendingSince > ZERO)
            && (s.pending ==> exists k: nat :: Opens(cfg, events, k) && events[k].now == s.pendingSince)
  {
    if events != [] {
      var n := |events| - 1;
      var init, y := events[..n], Run(cfg, events[..n]);
      PendingSinceOpening(cfg, init);
      StepOpens(cfg, y, events[n]);
      assert init + [events[n]] == events;
      if Run(cfg, events).alert.pending {
        if y.alert.pending {
          var k: nat :| Opens(cfg, init, k) && init[k].now == y.alert.pendingSince;
          OpensSnoc(cfg, init, events[n], k);
        } else {
          OpensSnoc(cfg, init, events[n], n);
        }
      }
    }
  }

  /** With nobody at the keyboard an episode is never younger than an idle window
      when it is announced: every alert, repeats included, comes that long after the
      arming that opened its own episode. */
  lemma UnattendedGrace(cfg: Config, events: seq<Event>, j: nat)
    requires Unattended(events) && ArmsAreStamped(events)
    requires j < |events| && History(cfg, events)[j].outcome == Injected
    ensures exists k: nat :: Opens(cfg, events[..j], k) && History(cfg, events)[j].now - events[k].now >= cfg.idleAfter
  {
    var before := events[..j];
    PendingSinceOpening(cfg, before);
    HistoryAt(cfg, events, j);
    StepGrace(cfg, Run(cfg, before), events[j]);
    var k: nat :| Opens(cfg, before, k) && before[k].now == Run(cfg, before).alert.pendingSince;
    assert events[k] == before[k];
  }

  /** A line of the history is the step at that point. */
  lemma {:induction false} HistoryAt(cfg: Config, events: seq<Event>, j: nat)
    requires j < |events|
    ensures History(cfg, events)[j] == Step(cfg, Run(cfg, events[..j]), events[j]).1
  {
    var n := |events| - 1;
    if j < n {
      HistoryAt(cfg, events[..n], j);
      assert events[..n][..j] == events[..j];
    }
  }

  lemma StepGrace(cfg: Config, y: System, e: Event)
    requires y.alert.lastUserInput == ZERO && (y.alert.pending ==> y.alert.pendingSince > ZERO)
    ensures Step(cfg, y, e).1.outcome == Injected ==>
              y.alert.pending && Step(cfg, y, e).1.now - y.alert.pendingSince >= cfg.idleAfter
  {
  }

  // ----- what reads buy -----

  /** Everything sampled from the daemon, in sampling order. */
  function Samples(events: seq<Event>): seq<Watermarks> {
    if events == [] then [] else Samples(events[..|events| - 1]) + SampledBy(events[|events| - 1])
  }

  function SampledBy(e: Event): seq<Watermarks> {
    match e
    case ArmSnapshot(_, reply) => [WatermarksOf(Rows(reply))]
    case Confirm(reply) => if reply.Some? then [WatermarksOf(Rows(reply.value))] else []
    case _ => []
  }

  predicate Over(keys: seq<string>, wm: Watermarks) {
    forall i :: 0 <= i < |keys| ==> keys[i] in wm
  }

  predicate AtMost(keys: seq<string>, a: Watermarks, b: Watermarks)
    requires Over(keys, a) && Over(keys, b)
  {
    forall i :: 0 <= i < |keys| ==> a[keys[i]] <= b[keys[i]]
  }

  function Total(keys: seq<string>, wm: Watermarks): nat
    requires Over(keys, wm)
  {
    if keys == [] then 0 else Total(keys[..|keys| - 1], wm) + wm[keys[|keys| - 1]]
  }

  lemma {:induction false} TotalMonotone(keys: seq<string>, a: Watermarks, b: Watermarks)
    requires Over(keys, a) && Over(keys, b) && AtMost(keys, a, b)
    ensures Total(keys, a) <= Total(keys, b)
    ensures (exists i :: 0 <= i < |keys| && a[keys[i]] < b[keys[i]]) ==> Total(keys, a) < Total(keys, b)
  {
    if keys != [] {
      var n := |keys| - 1;
      TotalMonotone(keys[..n], a, b);
      assert keys[..n] + [keys[n]] == keys;
      if exists i :: 0 <= i < |keys| && a[keys[i]] < b[keys[i]] {
        var i :| 0 <= i < |keys| && a[keys[i]] < b[keys[i]];
        if i < n { assert keys[..n][i] == keys[i]; }
      }
    }
  }

  /** A fixed set of pipes, each only ever read further. */
  predicate SteadyReads(keys: seq<string>, samples: seq<Watermarks>) {
    && (forall i :: 0 <= i < |samples| ==> Over(keys, samples[i]) && forall k :: k in samples[i] ==> k in keys)
    && (forall i, j :: 0 <= i <= j < |samples| ==> AtMost(keys, samples[i], samples[j]))
  }

  /** What the credits are charged against: `floor` is a past sample that the
      baseline and any reply in flight have reached. */
  ghost predicate Charged(keys: seq<string>, samples: seq<Watermarks>, y: System, credits: nat, floor: Watermarks)
    requires SteadyReads(keys, samples)
  {
    if samples == [] then
      credits == 0 && y.alert.baseline.None? && !(y.flusher.Deciding? && y.flusher.confirmed.Some?)
    else
      var last := samples[|samples| - 1];
      && Over(keys, floor) && AtMost(keys, samples[0], floor) && AtMost(keys, floor, last)
      && credits + Total(keys, samples[0]) <= Total(keys, floor)
      && (y.alert.baseline.Some? ==> Reached(keys, floor, y.alert.baseline.value))
      && (y.flusher.Deciding? && y.flusher.confirmed.Some? ==>
            var wm := WatermarksOf(Rows(y.flusher.confirmed.value));
            Reached(keys, floor, wm) && AtMost(keys, wm, last))
  }

  predicate Reached(keys: seq<string>, floor: Watermarks, wm: Watermarks)
    requires Over(keys, floor)
  {
    Over(keys, wm) && AtMost(keys, floor, wm) && forall k :: k in wm ==> k in keys
  }

  lemma PrefixSteady(keys: seq<string>, samples: seq<Watermarks>, n: nat)
    requires SteadyReads(keys, samples) && n <= |samples|
    ensures SteadyReads(keys, samples[..n])
  {
    var p := samples[..n];
    forall i, j | 0 <= i <= j < |p| ensures AtMost(keys, p[i], p[j]) {
      assert AtMost(keys, samples[i], samples[j]);
    }
  }

  /** The sampling half of a step keeps the charge. */
  lemma ChargeSample(keys: seq<string>, samples: seq<Watermarks>, y: System, d: nat, floor: Watermarks,
                     more: seq<Watermarks>) returns (floor': Watermarks)
    requires SteadyReads(keys, samples + more) && |more| <= 1
    requires SteadyReads(keys, samples) && Charged(keys, samples, y, d, floor)
    ensures Charged(keys, samples + more, y, d, floor')
    ensures more != [] ==> Over(keys, floor') && Reached(keys, floor', more[0])
  {
    var all := samples + more;
    if more == [] {
      assert all == samples;
      floor' := floor;
    } else if samples == [] {
      floor' := more[0];
      assert all[0] == more[0];
      assert AtMost(keys, all[0], all[0]);
    } else {
      floor' := floor;
      var n := |samples|;
      assert all[n] == more[0] && all[n - 1] == samples[n - 1] && all[0] == samples[0];
      assert AtMost(keys, all[n - 1], all[n]);
    }
  }

  /** A credit is paid for by a strict rise. */
  lemma ChargeCredit(keys: seq<string>, samples: seq<Watermarks>, y: System, d: nat, floor: Watermarks)
    requires SteadyReads(keys, samples) && Charged(keys, samples, y, d, floor)
    requires y.flusher.Deciding? && y.flusher.confirmed.Some?
    requires Advanced(y.alert.baseline, WatermarksOf(Rows(y.flusher.confirmed.value)))
    ensures samples != []
    ensures var wm := WatermarksOf(Rows(y.flusher.confirmed.value));
            && Reached(keys, floor, wm) && AtMost(keys, samples[0], wm)
            && AtMost(keys, wm, samples[|samples| - 1])
            && d + 1 + Total(keys, samples[0]) <= Total(keys, wm)
  {
    var wm := WatermarksOf(Rows(y.flusher.confirmed.value));
    var base := y.alert.baseline.value;
    var k :| k in wm && k in base && wm[k] > base[k];
    assert k in keys;
    var i :| 0 <= i < |keys| && keys[i] == k;
    assert floor[keys[i]] < wm[keys[i]];
    TotalMonotone(keys, floor, wm);
  }

  lemma {:induction false} CreditCharge(cfg: Config, events: seq<Event>, keys: seq<string>) returns (floor: Watermarks)
    requires SteadyReads(keys, Samples(events))
    ensures Charged(keys, Samples(events), Run(cfg, events), Credits(History(cfg, events)), floor)
  {
    if events == [] {
      floor := map[];
      return;
    }
    var n := |events| - 1;
    var before := History(cfg, events[..n]);
    assert History(cfg, events)[..n] == before;
    PrefixSteady(keys, Samples(events), |Samples(events[..n])|);
    assert Samples(events)[..|Samples(events[..n])|] == Samples(events[..n]);
    floor := CreditCharge(cfg, events[..n], keys);
    floor := ChargeEvent(cfg, keys, Samples(events[..n]), Run(cfg, events[..n]), Credits(before), floor, events[n]);
  }

  lemma ChargeEvent(cfg: Config, keys: seq<string>, samples: seq<Watermarks>, y: System, d: nat,
                    floor: Watermarks, e: Event)
    returns (floor': Watermarks)
    requires SteadyReads(keys, samples) && SteadyReads(keys, samples + SampledBy(e))
    requires Charged(keys, samples, y, d, floor)
    ensures var (y', entry) := Step(cfg, y, e);
            Charged(keys, samples + SampledBy(e), y', d + if Credited(entry) then 1 else 0, floor')
  {
    var more := SampledBy(e);
    floor' := ChargeSample(keys, samples, y, d, floor, more);
    if more != [] {
      assert (samples + more)[|samples|] == more[0];
      assert AtMost(keys, (samples + more)[|samples|], (samples + more)[|samples|]);
    }
    floor' := ChargeStep(cfg, keys, samples + more, y, d, floor', e);
  }

  /** The acting half of a step keeps the charge. */
  lemma ChargeStep(cfg: Config, keys: seq<string>, samples: seq<Watermarks>, y: System, d: nat,
                   floor: Watermarks, e: Event)
    returns (floor': Watermarks)
    requires SteadyReads(keys, samples) && Charged(keys, samples, y, d, floor)
    requires e.ArmSnapshot? ==> samples != [] && Reached(keys, floor, WatermarksOf(Rows(e.reply)))
    requires e.Confirm? && e.confirmed.Some? ==>
               && samples != []
               && Reached(keys, floor, WatermarksOf(Rows(e.confirmed.value)))
               && AtMost(keys, WatermarksOf(Rows(e.confirmed.value)), samples[|samples| - 1])
    ensures var (y', entry) := Step(cfg, y, e);
            Charged(keys, samples, y', d + if Credited(entry) then 1 else 0, floor')
  {
    floor' := floor;
    if e.Finish? && y.flusher.Deciding? {
      floor' := ChargeFinish(cfg, keys, samples, y, d, floor);
    }
  }

  /** Where the end of an attempt leaves the baseline, and what a credit rests on. */
  lemma FinishBaseline(cfg: Config, s: State, now: Time, confirmed: Option<ListReply>)
    ensures var (t, entry) := FinishStep(cfg, s, now, confirmed);
            && (t.baseline == s.baseline ||
                (confirmed.Some? && t.baseline == Some(WatermarksOf(Rows(confirmed.value)))))
            && (Credited(entry) ==> confirmed.Some? && Advanced(s.baseline, WatermarksOf(Rows(confirmed.value)))
                                    && t.baseline == Some(WatermarksOf(Rows(confirmed.value))))
  {
  }

  lemma ChargeKept(keys: seq<string>, samples: seq<Watermarks>, y: System, d: nat, floor: Watermarks, t: State)
    requires SteadyReads(keys, samples) && Charged(keys, samples, y, d, floor) && y.flusher.Deciding?
    requires t.baseline == y.alert.baseline ||
             (y.flusher.confirmed.Some? && t.baseline == Some(WatermarksOf(Rows(y.flusher.confirmed.value))))
    ensures Charged(keys, samples, System(t, Idle), d, floor)
  {
  }

  lemma ChargePaid(keys: seq<string>, samples: seq<Watermarks>, d: nat, wm: Watermarks, t: State)
    requires SteadyReads(keys, samples) && samples != [] && t.baseline == Some(wm)
    requires Over(keys, wm) && (forall k :: k in wm ==> k in keys)
    requires AtMost(keys, samples[0], wm) && AtMost(keys, wm, samples[|samples| - 1])
    requires d + Total(keys, samples[0]) <= Total(keys, wm)
    ensures Charged(keys, samples, System(t, Idle), d, wm)
  {
    assert AtMost(keys, wm, wm);
  }

  lemma ChargeFinish(cfg: Config, keys: seq<string>, samples: seq<Watermarks>, y: System, d: nat, floor: Watermarks)
    returns (floor': Watermarks)
    requires SteadyReads(keys, samples) && Charged(keys, samples, y, d, floor) && y.flusher.Deciding?
    ensures var (y', entry) := Step(cfg, y, Finish);
            Charged(keys, samples, y', d + if Credited(entry) then 1 else 0, floor')
  {
    var (t, entry) := FinishStep(cfg, y.alert, y.flusher.now, y.flusher.confirmed);
    FinishBaseline(cfg, y.alert, y.flusher.now, y.flusher.confirmed);
    if Credited(entry) {
      ChargeCredit(keys, samples, y, d, floor);
      floor' := WatermarksOf(Rows(y.flusher.confirmed.value));
      ChargePaid(keys, samples, d + 1, floor', t);
    } else {
      floor' := floor;
      ChargeKept(keys, samples, y, d, floor, t);
    }
  }

  lemma DeferralIsCredit(cfg: Config, y: System, e: Event)
    ensures Step(cfg, y, e).1.outcome == Deferred ==> Credited(Step(cfg, y, e).1)
  {
  }

  lemma TallySnoc(h: seq<Entry>, entry: Entry)
    ensures Deferrals(h + [entry]) == Deferrals(h) + if entry.outcome == Deferred then 1 else 0
    ensures Credits(h + [entry]) == Credits(h) + if Credited(entry) then 1 else 0
  {
    assert (h + [entry])[..|h|] == h;
  }

  lemma {:induction false} DeferralsAreCredits(cfg: Config, events: seq<Event>)
    ensures Deferrals(History(cfg, events)) <= Credits(History(cfg, events))
  {
    if events != [] {
      var n := |events| - 1;
      var y := Run(cfg, events[..n]);
      DeferralsAreCredits(cfg, events[..n]);
      DeferralIsCredit(cfg, y, events[n]);
      TallySnoc(History(cfg, events[..n]), Step(cfg, y, events[n]).1);
    }
  }

  /** One read buys at most one deferral or one ladder reset: over any run on a fixed
      set of pipes, deferrals and crediting injections together never exceed the
      total number of messages read between the first and the last sample. */
  lemma CreditsBoughtByReads(cfg: Config, events: seq<Event>, keys: seq<string>)
    requires SteadyReads(keys, Samples(events))
    ensures var samples := Samples(events);
            var credits := Credits(History(cfg, events));
            && Deferrals(History(cfg, events)) <= credits
            && if samples == [] then credits == 0
               else credits <= Total(keys, samples[|samples| - 1]) - Total(keys, samples[0])
  {
    DeferralsAreCredits(cfg, events);
    var floor := CreditCharge(cfg, events, keys);
    var samples := Samples(events);
    if samples != [] {
      TotalMonotone(keys, floor, samples[|samples| - 1]);
    }
  }

  // ----- no starvation, no erased reads -----

  /** Once seeded, the baseline moves only when an attempt finishes: re-arming
      snapshots never erase a read. */
  lemma {:induction false} SnapshotsNeverMoveBaseline(cfg: Config, y: System, events: seq<Event>)
    requires y.alert.baseline.Some?
    requires forall i :: 0 <= i < |events| ==> !events[i].Finish?
    ensures RunFrom(cfg, y, events).alert.baseline == y.alert.baseline
    ensures RunFrom(cfg, y, events).alert.unacked == y.alert.unacked
    ensures RunFrom(cfg, y, events).alert.lastAlert == y.alert.lastAlert
  {
    if events != [] {
      var n := |events| - 1;
      SnapshotsNeverMoveBaseline(cfg, y, events[..n]);
      OnlyFinishMoves(cfg, RunFrom(cfg, y, events[..n]), events[n]);
    }
  }

  lemma OnlyFinishMoves(cfg: Config, y: System, e: Event)
    requires y.alert.baseline.Some? && !e.Finish?
    ensures var s := Step(cfg, y, e).0.alert;
            s.baseline == y.alert.baseline && s.unacked == y.alert.unacked && s.lastAlert == y.alert.lastAlert
  {
  }

  ghost function RunFrom(cfg: Config, y: System, events: seq<Event>): System {
    if events == [] then y else
      var n := |events| - 1;
      Step(cfg, RunFrom(cfg, y, events[..n]), events[n]).0
  }

  /** The system an attempt at `now` leaves behind after its confirm returned
      `reply`, with arming events of other threads around the confirm. */
  ghost function Confirmed(cfg: Config, y: System, now: Time, reply: ListReply,
                           before: seq<Event>, after: seq<Event>): System
  {
    var y1 := Step(cfg, y, Attempt(now)).0;
    var y2 := RunFrom(cfg, y1, before);
    var y3 := Step(cfg, y2, Confirm(Some(reply))).0;
    RunFrom(cfg, y3, after)
  }

  predicate OnlyArms(events: seq<Event>) {
    forall i :: 0 <= i < |events| ==> events[i].Arm? || events[i].ArmSnapshot?
  }

  /** The baseline after arming events: the first snapshot seeds a missing one. */
  function Seeded(baseline: Option<Watermarks>, events: seq<Event>): Option<Watermarks> {
    if events == [] then baseline else
      var n := |events| - 1;
      var before := Seeded(baseline, events[..n]);
      if before.None? && events[n].ArmSnapshot? then Some(WatermarksOf(Rows(events[n].reply))) else before
  }

  /** From any state in which the gates are open at `now`, with arming events of other
      threads landing anywhere around the confirm: an attempt whose confirm shows
      unread injects exactly unless something was read since the baseline in force and
      what is left unread is young. */
  lemma OpenGatesInjectIff(
    cfg: Config, y: System, now: Time, reply: ListReply, before: seq<Event>, after: seq<Event>)
    requires y.flusher.Idle? && Ready(cfg, y.alert, now)
    requires OnlyArms(before) && OnlyArms(after) && HasUnread(Rows(reply))
    ensures var baseline := Seeded(Seeded(y.alert.baseline, before), after);
            var newest := NewestUnread(Rows(reply));
            Step(cfg, Confirmed(cfg, y, now, reply, before, after), Finish).1.outcome == Injected <==>
            !(Advanced(baseline, WatermarksOf(Rows(reply))) && newest != ZERO && now - newest < cfg.idleAfter)
  {
    var baseline := Seeded(y.alert.baseline, before);
    ArmingOnly(cfg, y.(flusher := Confirming(now)), before);
    var y3 := System(y.alert.(baseline := baseline), Deciding(now, Some(reply)));
    ArmingOnly(cfg, y3, after);
    FinishInjectsIff(cfg, y3.(alert := y3.alert.(baseline := Seeded(baseline, after))), now, reply);
  }

  /** So an unread message is never starved: when nothing was read since the baseline
      in force - in particular when there is none - the attempt injects. */
  lemma UnreadWithoutReadsInjects(
    cfg: Config, y: System, now: Time, reply: ListReply, before: seq<Event>, after: seq<Event>)
    requires y.flusher.Idle? && Ready(cfg, y.alert, now)
    requires OnlyArms(before) && OnlyArms(after) && HasUnread(Rows(reply))
    requires var baseline := Seeded(Seeded(y.alert.baseline, before), after);
             !Advanced(baseline, WatermarksOf(Rows(reply)))
    ensures Step(cfg, Confirmed(cfg, y, now, reply, before, after), Finish).1.outcome == Injected
  {
    OpenGatesInjectIff(cfg, y, now, reply, before, after);
  }

  lemma FinishInjectsIff(cfg: Config, y: System, now: Time, reply: ListReply)
    requires y.flusher == Deciding(now, Some(reply)) && Ready(cfg, y.alert, now) && HasUnread(Rows(reply))
    ensures Step(cfg, y, Finish).1.outcome == Injected <==>
            !ShouldDefer(cfg, y.alert, now, Some(SampleOf(reply)))
  {
    DecidedInjectsIff(cfg, y.alert, now, Some(SampleOf(reply)));
  }

  lemma DecidedInjectsIff(cfg: Config, s: State, now: Time, sample: Option<Sample>)
    requires Ready(cfg, s, now)
    ensures Decided(cfg, s, now, sample).1 == Injected <==> !ShouldDefer(cfg, s, now, sample)
  {
  }

  /** Arming an already pending machine does nothing but seed a missing baseline. */
  lemma {:induction false} ArmingOnly(cfg: Config, y: System, events: seq<Event>)
    requires y.alert.pending && OnlyArms(events)
    ensures RunFrom(cfg, y, events) == y.(alert := y.alert.(baseline := Seeded(y.alert.baseline, events)))
  {
    if events != [] {
      ArmingOnly(cfg, y, events[..|events| - 1]);
    }
  }

  // ----- what the bounds count -----

  /** Injections, deferrals, and the attempts among them that a read paid for; armings;
      and the rungs added up. */
  lemma TalliesSpelledOut(h: seq<Entry>, entry: Entry, events: seq<Event>, e: Event)
    ensures Injections([]) == 0 && Deferrals([]) == 0 && Credits([]) == 0 && ArmCount([]) == 0
    ensures Injections(h + [entry]) == Injections(h) + if entry.outcome == Injected then 1 else 0
    ensures Deferrals(h + [entry]) == Deferrals(h) + if entry.outcome == Deferred then 1 else 0
    ensures Credits(h + [entry]) == Credits(h) + if entry.proof && entry.outcome != Suppressed then 1 else 0
    ensures ArmCount(events + [e]) == ArmCount(events) + if e.Arm? || e.ArmSnapshot? then 1 else 0
  {
    assert (h + [entry])[..|h|] == h && (events + [e])[..|events|] == events;
  }

  /** The shortest stretch that n alerts without a read can take after the first: with
      the shipped settings 5, 15, 35 minutes, and half an hour more for each. */
  lemma StretchSpelledOut(n: nat)
    ensures LadderSum(SHIPPED.cooldown, SHIPPED.cooldownMax, 0) == 0
    ensures LadderSum(SHIPPED.cooldown, SHIPPED.cooldownMax, n + 1) ==
            LadderSum(SHIPPED.cooldown, SHIPPED.cooldownMax, n) +
            if n == 0 then 300_000_000_000 else if n == 1 then 600_000_000_000
            else if n == 2 then 1_200_000_000_000 else 1_800_000_000_000
  {
    ShippedGaps(n + 1);
  }
}
