/** The alert machine and the alert pump together (internal/cli/terminal_subs_alert.go).
    The flushing thread decides under the machine's lock and enters alert mode under the
    pump's; the input thread notes a keystroke under the first and forwards it under the
    second. Anything may land between those steps. */
module AlertedTerminal {
  import opened Common
  import SubsAlert
  import AlertRuns
  import AlertPump

  const ZERO := SubsAlert.ZERO

  /** A keystroke, when it was noted, and how many alerts had been decided by then. */
  datatype Key = Key(at: Time, input: seq<Byte>, decided: nat)

  /** Where the flushing thread is with an alert decided at `at`. */
  datatype Phase = Watching | Decided(at: Time) | Alerting(at: Time)

  /** `hand` is the keystroke the input thread has noted and not yet forwarded; `shown`
      are those on the PTY and `held` those the pump keeps back, in order. */
  datatype State = State(
    machine: AlertRuns.System, pump: AlertPump.State, phase: Phase, decisions: nat,
    hand: Option<Key>, shown: seq<Key>, held: seq<Key>)

  const START := State(AlertRuns.START, AlertPump.INITIAL, Watching, 0, None, [], [])

  datatype Event =
    | Watch(step: AlertRuns.Event)            // arming threads, and the attempt up to its decision
    | Note(now: Time, input: seq<Byte>)       // input thread, the machine's lock
    | Pass                                    // input thread, the pump's lock
    | Receive(input: seq<Byte>)               // remote input, no lock
    | Begin | Write(text: seq<Byte>) | End    // flushing thread, once it has decided

  /** A machine step of a thread other than the input's; the flushing thread starts no
      attempt before the last alert is out. */
  predicate Enabled(s: State, step: AlertRuns.Event) {
    !step.UserInput? && (s.phase.Watching? || !(step.Attempt? || step.Finish?))
  }

  ghost function Watched(cfg: SubsAlert.Config, s: State, step: AlertRuns.Event): State {
    var (machine, entry) := AlertRuns.Step(cfg, s.machine, step);
    if entry.outcome == SubsAlert.Injected
    then s.(machine := machine, phase := Decided(entry.now), decisions := s.decisions + 1)
    else s.(machine := machine)
  }

  ghost function Noted(cfg: SubsAlert.Config, s: State, now: Time, input: seq<Byte>): State {
    s.(machine := AlertRuns.Step(cfg, s.machine, AlertRuns.UserInput(now, input)).0,
       hand := Some(Key(now, input, s.decisions)))
  }

  function Passed(s: State): State {
    if s.hand.None? then s else
      var key := s.hand.value;
      var t := s.(hand := None, pump := AlertPump.Forwarded(s.pump, key.input));
      if s.pump.alert then t.(held := s.held + [key]) else t.(shown := s.shown + [key])
  }

  ghost function Step(cfg: SubsAlert.Config, s: State, e: Event): State {
    match e
    case Watch(step) => if Enabled(s, step) then Watched(cfg, s, step) else s
    case Note(now, input) => if s.hand.Some? || input == [] then s else Noted(cfg, s, now, input)
    case Pass => Passed(s)
    case Receive(input) => s.(pump := s.pump.(pty := s.pump.pty + AlertPump.Sent(input)))
    case Begin =>
      if s.phase.Decided? then s.(phase := Alerting(s.phase.at), pump := AlertPump.Begun(s.pump)) else s
    case Write(text) => if s.phase.Alerting? then s.(pump := AlertPump.Wrote(s.pump, text)) else s
    case End =>
      if s.phase.Alerting?
      then s.(phase := Watching, pump := AlertPump.Ended(s.pump), shown := s.shown + s.held, held := [])
      else s
  }

  ghost function Run(cfg: SubsAlert.Config, events: seq<Event>): State {
    if events == [] then START else Step(cfg, Run(cfg, events[..|events| - 1]), events[|events| - 1])
  }

  // ----- each lock sees its own part -----

  /** What the machine sees of a step. */
  function MachineStep(s: State, e: Event): seq<AlertRuns.Event> {
    match e
    case Watch(step) => if Enabled(s, step) then [step] else []
    case Note(now, input) => if s.hand.Some? || input == [] then [] else [AlertRuns.UserInput(now, input)]
    case _ => []
  }

  ghost function MachineSteps(cfg: SubsAlert.Config, events: seq<Event>): seq<AlertRuns.Event> {
    if events == [] then [] else
      var n := |events| - 1;
      MachineSteps(cfg, events[..n]) + MachineStep(Run(cfg, events[..n]), events[n])
  }

  /** And what the pump sees. */
  function PumpStep(s: State, e: Event): seq<AlertPump.Event> {
    match e
    case Pass => if s.hand.Some? then [AlertPump.Forward(s.hand.value.input)] else []
    case Receive(input) => [AlertPump.Receive(input)]
    case Begin => if s.phase.Decided? then [AlertPump.Begin] else []
    case Write(text) => if s.phase.Alerting? then [AlertPump.Write(text)] else []
    case End => if s.phase.Alerting? then [AlertPump.End] else []
    case _ => []
  }

  ghost function PumpSteps(cfg: SubsAlert.Config, events: seq<Event>): seq<AlertPump.Event> {
    if events == [] then [] else
      var n := |events| - 1;
      PumpSteps(cfg, events[..n]) + PumpStep(Run(cfg, events[..n]), events[n])
  }

  lemma MachineRunMore(cfg: SubsAlert.Config, steps: seq<AlertRuns.Event>, more: seq<AlertRuns.Event>)
    requires |more| <= 1
    ensures AlertRuns.Run(cfg, steps + more) ==
            if more == [] then AlertRuns.Run(cfg, steps) else AlertRuns.Step(cfg, AlertRuns.Run(cfg, steps), more[0]).0
  {
    if more == [] { assert steps + more == steps; } else { assert (steps + more)[..|steps|] == steps; }
  }

  lemma PumpRunMore(steps: seq<AlertPump.Event>, more: seq<AlertPump.Event>)
    requires |more| <= 1
    ensures AlertPump.Run(steps + more) ==
            if more == [] then AlertPump.Run(steps) else AlertPump.Step(AlertPump.Run(steps), more[0])
  {
    if more == [] { assert steps + more == steps; } else { assert (steps + more)[..|steps|] == steps; }
  }

  lemma StepParts(cfg: SubsAlert.Config, s: State, e: Event)
    requires s.pump.alert <==> s.phase.Alerting?
    ensures var t := Step(cfg, s, e);
            && (t.pump.alert <==> t.phase.Alerting?)
            && t.machine == (var m := MachineStep(s, e);
                             if m == [] then s.machine else AlertRuns.Step(cfg, s.machine, m[0]).0)
            && t.pump == (var m := PumpStep(s, e); if m == [] then s.pump else AlertPump.Step(s.pump, m[0]))
  {
  }

  lemma {:induction false} AlertModeIsAlerting(cfg: SubsAlert.Config, events: seq<Event>)
    ensures Run(cfg, events).pump.alert <==> Run(cfg, events).phase.Alerting?
  {
    if events != [] {
      AlertModeIsAlerting(cfg, events[..|events| - 1]);
      StepParts(cfg, Run(cfg, events[..|events| - 1]), events[|events| - 1]);
    }
  }

  lemma {:induction false} MachinePart(cfg: SubsAlert.Config, events: seq<Event>)
    ensures Run(cfg, events).machine == AlertRuns.Run(cfg, MachineSteps(cfg, events))
  {
    if events != [] {
      var n := |events| - 1;
      var s := Run(cfg, events[..n]);
      MachinePart(cfg, events[..n]);
      AlertModeIsAlerting(cfg, events[..n]);
      StepParts(cfg, s, events[n]);
      MachineRunMore(cfg, MachineSteps(cfg, events[..n]), MachineStep(s, events[n]));
    }
  }

  lemma {:induction false} PumpPart(cfg: SubsAlert.Config, events: seq<Event>)
    ensures Run(cfg, events).pump == AlertPump.Run(PumpSteps(cfg, events))
  {
    if events != [] {
      var n := |events| - 1;
      var s := Run(cfg, events[..n]);
      PumpPart(cfg, events[..n]);
      AlertModeIsAlerting(cfg, events[..n]);
      StepParts(cfg, s, events[n]);
      PumpRunMore(PumpSteps(cfg, events[..n]), PumpStep(s, events[n]));
    }
  }

  /** The joint run is a run of the machine and a run of the pump, so all that holds
      of their runs holds of it; the pump is in alert mode while an alert is going out. */
  lemma JointRun(cfg: SubsAlert.Config, events: seq<Event>)
    ensures var s := Run(cfg, events);
            && s.machine == AlertRuns.Run(cfg, MachineSteps(cfg, events))
            && s.pump == AlertPump.Run(PumpSteps(cfg, events))
            && (s.pump.alert <==> s.phase.Alerting?)
  {
    MachinePart(cfg, events);
    PumpPart(cfg, events);
    AlertModeIsAlerting(cfg, events);
  }

  function Bytes(keys: seq<Key>): seq<Byte> {
    if keys == [] then [] else Bytes(keys[..|keys| - 1]) + keys[|keys| - 1].input
  }

  lemma BytesSnoc(keys: seq<Key>, key: Key)
    ensures Bytes(keys + [key]) == Bytes(keys) + key.input
  {
    assert (keys + [key])[..|keys|] == keys;
  }

  lemma Associate<T>(a: seq<T>, b: seq<T>, c: seq<T>)
    ensures a + b + c == a + (b + c)
  {
  }

  lemma {:induction false} BytesConcat(a: seq<Key>, b: seq<Key>)
    ensures Bytes(a + b) == Bytes(a) + Bytes(b)
  {
    if b == [] {
      assert a + b == a;
    } else {
      var n := |b| - 1;
      var init, last := b[..n], b[n];
      assert b == init + [last];
      BytesConcat(a, init);
      Associate(a, init, [last]);
      BytesSnoc(a + init, last);
      BytesSnoc(init, last);
      Associate(Bytes(a), Bytes(init), last.input);
    }
  }

  /** The keystrokes on the PTY and in the buffer, byte for byte. */
  predicate Accounted(s: State) {
    AlertPump.UserBytes(s.pump.pty) == Bytes(s.shown) && s.pump.buffer == Bytes(s.held)
  }

  lemma PassAccounted(s: State)
    requires Accounted(s) && s.hand.Some?
    ensures Accounted(Passed(s))
  {
    var key := s.hand.value;
    if s.pump.alert {
      BytesSnoc(s.held, key);
    } else {
      AlertPump.UserBytesTyped(s.pump.pty, key.input);
      BytesSnoc(s.shown, key);
    }
  }

  lemma StepAccounted(cfg: SubsAlert.Config, s: State, e: Event)
    requires Accounted(s)
    ensures Accounted(Step(cfg, s, e))
  {
    match e
    case Pass => if s.hand.Some? { PassAccounted(s); }
    case Receive(input) => AlertPump.UserBytesOthers(s.pump.pty, AlertPump.Sent(input));
    case Write(text) => AlertPump.UserBytesOthers(s.pump.pty, AlertPump.Announced(s.pump.alerts, text));
    case End =>
      AlertPump.UserBytesTyped(s.pump.pty, s.pump.buffer);
      BytesConcat(s.shown, s.held);
    case _ =>
  }

  lemma {:induction false} ShownIsOnThePty(cfg: SubsAlert.Config, events: seq<Event>)
    ensures Accounted(Run(cfg, events))
  {
    if events != [] {
      ShownIsOnThePty(cfg, events[..|events| - 1]);
      StepAccounted(cfg, Run(cfg, events[..|events| - 1]), events[|events| - 1]);
    }
  }

  // ----- the idle window, up to the alert's first byte -----

  /** Keystrokes carry a running clock. */
  predicate NotedInOrder(events: seq<Event>) {
    && (forall i :: 0 <= i < |events| && events[i].Note? ==> events[i].now > ZERO)
    && (forall i, j :: 0 <= i < j < |events| && events[i].Note? && events[j].Note? ==> events[i].now <= events[j].now)
  }

  /** Noted before the alert now decided, a key is an idle window older than that. */
  predicate KeyOk(cfg: SubsAlert.Config, s: State, key: Key) {
    && key.decided <= s.decisions
    && ZERO < key.at <= s.machine.alert.lastUserInput
    && (!s.phase.Watching? && key.decided < s.decisions ==> s.phase.at - key.at >= cfg.idleAfter)
  }

  predicate KeysOk(cfg: SubsAlert.Config, s: State) {
    && (s.hand.Some? ==> KeyOk(cfg, s, s.hand.value))
    && (forall i :: 0 <= i < |s.shown| ==> KeyOk(cfg, s, s.shown[i]))
    && (forall i :: 0 <= i < |s.held| ==> KeyOk(cfg, s, s.held[i]))
  }

  /** The machine's last keystroke is one of the run's. */
  predicate LastIsNoted(events: seq<Event>, t: Time) {
    t == ZERO || exists i :: 0 <= i < |events| && events[i].Note? && events[i].now == t
  }

  lemma StepDecides(cfg: SubsAlert.Config, s: State, step: AlertRuns.Event)
    requires Enabled(s, step)
    ensures var t := Watched(cfg, s, step);
            && t.machine.alert.lastUserInput == s.machine.alert.lastUserInput
            && ((t.phase == s.phase && t.decisions == s.decisions) ||
                (t.phase.Decided? && t.decisions == s.decisions + 1 && s.phase.Watching? &&
                 (s.machine.alert.lastUserInput != ZERO ==>
                    t.phase.at - s.machine.alert.lastUserInput >= cfg.idleAfter)))
  {
    AlertRuns.StepGates(cfg, s.machine, step);
    OnlyFinishInjects(cfg, s.machine, step);
  }

  lemma OnlyFinishInjects(cfg: SubsAlert.Config, y: AlertRuns.System, step: AlertRuns.Event)
    ensures var entry := AlertRuns.Step(cfg, y, step).1;
            entry.outcome == SubsAlert.Injected ==>
              step.Finish? && !y.flusher.Idle? && entry.now == y.flusher.now
  {
  }

  lemma StepKeysOk(cfg: SubsAlert.Config, s: State, e: Event)
    requires KeysOk(cfg, s)
    requires e.Note? ==> e.now > ZERO && e.now >= s.machine.alert.lastUserInput
    ensures KeysOk(cfg, Step(cfg, s, e))
  {
    match e
    case Watch(step) => if Enabled(s, step) { StepDecides(cfg, s, step); }
    case _ =>
  }

  lemma {:induction false} AlwaysKeysOk(cfg: SubsAlert.Config, events: seq<Event>)
    requires NotedInOrder(events)
    ensures KeysOk(cfg, Run(cfg, events))
    ensures LastIsNoted(events, Run(cfg, events).machine.alert.lastUserInput)
  {
    if events != [] {
      var n := |events| - 1;
      var s, e := Run(cfg, events[..n]), events[n];
      AlwaysKeysOk(cfg, events[..n]);
      StepKeysOk(cfg, s, e);
      LastNoted(cfg, s, events[..n], e);
      assert events[..n] + [e] == events;
    }
  }

  lemma LastNoted(cfg: SubsAlert.Config, s: State, events: seq<Event>, e: Event)
    requires LastIsNoted(events, s.machine.alert.lastUserInput)
    ensures LastIsNoted(events + [e], Step(cfg, s, e).machine.alert.lastUserInput)
  {
    var all, t := events + [e], s.machine.alert.lastUserInput;
    if t != ZERO {
      var i :| 0 <= i < |events| && events[i].Note? && events[i].now == t;
      assert all[i].Note? && all[i].now == t;
    }
    assert all[|events|] == e;
    if e.Watch? && Enabled(s, e.step) { StepDecides(cfg, s, e.step); }
  }

  /** A typing user is not interrupted: when an alert's bytes go out, every keystroke
      before them on the PTY that was noted before the decision is an idle window
      older than it. */
  lemma IdleUnlessNotedAfter(cfg: SubsAlert.Config, events: seq<Event>, i: nat)
    requires NotedInOrder(events)
    requires var s := Run(cfg, events);
             s.phase.Alerting? && i < |s.shown| && s.shown[i].decided < s.decisions
    ensures Run(cfg, events).phase.at - Run(cfg, events).shown[i].at >= cfg.idleAfter
  {
    AlwaysKeysOk(cfg, events);
  }

  // ----- the gap between the decision and alert mode -----

  /** Step `i` falls between the d-th decision and its alert mode. */
  ghost predicate InGap(cfg: SubsAlert.Config, events: seq<Event>, i: nat, d: nat) {
    && i < |events|
    && Run(cfg, events[..i]).phase.Decided? && Run(cfg, events[..i]).decisions == d
  }

  ghost predicate NotesAt(cfg: SubsAlert.Config, events: seq<Event>, i: nat) {
    i < |events| && events[i].Note? && events[i].input != [] && Run(cfg, events[..i]).hand.None?
  }

  ghost predicate PassesAt(cfg: SubsAlert.Config, events: seq<Event>, k: nat) {
    k < |events| && events[k].Pass? && Run(cfg, events[..k]).hand.Some?
  }

  ghost predicate NotedInGap(cfg: SubsAlert.Config, events: seq<Event>, d: nat) {
    exists i: nat :: NotesAt(cfg, events, i) && InGap(cfg, events, i, d)
  }

  /** A keystroke was both noted and forwarded in that gap. */
  ghost predicate TypedInGap(cfg: SubsAlert.Config, events: seq<Event>, d: nat) {
    exists i: nat, k: nat ::
      && i < k && NotesAt(cfg, events, i) && InGap(cfg, events, i, d)
      && PassesAt(cfg, events, k) && InGap(cfg, events, k, d)
  }

  lemma EarlierSteps(cfg: SubsAlert.Config, es: seq<Event>, e: Event, i: nat, d: nat)
    ensures var s := Run(cfg, es);
            && (InGap(cfg, es + [e], i, d) <==>
                  InGap(cfg, es, i, d) || (i == |es| && s.phase.Decided? && s.decisions == d))
            && (NotesAt(cfg, es + [e], i) <==>
                  NotesAt(cfg, es, i) || (i == |es| && e.Note? && e.input != [] && s.hand.None?))
            && (PassesAt(cfg, es + [e], i) <==>
                  PassesAt(cfg, es, i) || (i == |es| && e.Pass? && s.hand.Some?))
  {
    var all := es + [e];
    assert i <= |es| ==> all[..i] == es[..i];
    assert es[..|es|] == es;
  }

  /** Step `e` from `s` notes, or forwards, a keystroke in the d-th gap. */
  predicate NotesNow(s: State, e: Event, d: nat) {
    e.Note? && e.input != [] && s.hand.None? && s.phase.Decided? && s.decisions == d
  }

  predicate PassesNow(s: State, e: Event, d: nat) {
    e.Pass? && s.hand.Some? && s.phase.Decided? && s.decisions == d
  }

  lemma NotedInGapSnoc(cfg: SubsAlert.Config, es: seq<Event>, e: Event, d: nat)
    ensures NotedInGap(cfg, es + [e], d) <==> NotedInGap(cfg, es, d) || NotesNow(Run(cfg, es), e, d)
  {
    var all, s := es + [e], Run(cfg, es);
    if NotedInGap(cfg, all, d) {
      var i: nat :| NotesAt(cfg, all, i) && InGap(cfg, all, i, d);
      EarlierSteps(cfg, es, e, i, d);
    }
    if NotedInGap(cfg, es, d) {
      var i: nat :| NotesAt(cfg, es, i) && InGap(cfg, es, i, d);
      EarlierSteps(cfg, es, e, i, d);
    }
    EarlierSteps(cfg, es, e, |es|, d);
  }

  lemma TypedInGapSnoc(cfg: SubsAlert.Config, es: seq<Event>, e: Event, d: nat)
    ensures TypedInGap(cfg, es + [e], d) <==>
            TypedInGap(cfg, es, d) || (PassesNow(Run(cfg, es), e, d) && NotedInGap(cfg, es, d))
  {
    var all, s := es + [e], Run(cfg, es);
    if TypedInGap(cfg, all, d) {
      var i: nat, k: nat :|
        i < k && NotesAt(cfg, all, i) && InGap(cfg, all, i, d) && PassesAt(cfg, all, k) && InGap(cfg, all, k, d);
      EarlierSteps(cfg, es, e, i, d);
      EarlierSteps(cfg, es, e, k, d);
    }
    if TypedInGap(cfg, es, d) {
      var i: nat, k: nat :|
        i < k && NotesAt(cfg, es, i) && InGap(cfg, es, i, d) && PassesAt(cfg, es, k) && InGap(cfg, es, k, d);
      EarlierSteps(cfg, es, e, i, d);
      EarlierSteps(cfg, es, e, k, d);
    } else if PassesNow(s, e, d) && NotedInGap(cfg, es, d) {
      var i: nat :| NotesAt(cfg, es, i) && InGap(cfg, es, i, d);
      EarlierSteps(cfg, es, e, i, d);
      EarlierSteps(cfg, es, e, |es|, d);
    }
  }

  predicate NewOnes(keys: seq<Key>, d: nat) { exists i :: 0 <= i < |keys| && keys[i].decided == d }

  predicate AllUpTo(keys: seq<Key>, d: nat) { forall i :: 0 <= i < |keys| ==> keys[i].decided <= d }

  /** What the counters say, told by the events. */
  ghost predicate Told(cfg: SubsAlert.Config, es: seq<Event>, s: State) {
    && (s.pump.alert <==> s.phase.Alerting?)
    && (s.hand.Some? ==> s.hand.value.decided <= s.decisions)
    && AllUpTo(s.shown, s.decisions) && AllUpTo(s.held, s.decisions)
    && (forall d: nat :: d > s.decisions ==> !NotedInGap(cfg, es, d) && !TypedInGap(cfg, es, d))
    && (s.phase.Decided? && s.hand.Some? ==>
          (s.hand.value.decided == s.decisions <==> NotedInGap(cfg, es, s.decisions)))
    && (!s.phase.Watching? ==> (NewOnes(s.shown, s.decisions) <==> TypedInGap(cfg, es, s.decisions)))
  }

  lemma NewOnesSnoc(keys: seq<Key>, key: Key, d: nat)
    ensures NewOnes(keys + [key], d) <==> NewOnes(keys, d) || key.decided == d
    ensures AllUpTo(keys + [key], d) <==> AllUpTo(keys, d) && key.decided <= d
  {
    var all := keys + [key];
    assert all[|keys|] == key;
    assert forall i :: 0 <= i < |keys| ==> all[i] == keys[i];
    if NewOnes(keys, d) {
      var i :| 0 <= i < |keys| && keys[i].decided == d;
      assert all[i].decided == d;
    }
  }

  /** The gaps after one more step. */
  ghost predicate GapsMove(cfg: SubsAlert.Config, es: seq<Event>, s: State, e: Event) {
    && (forall d: nat :: NotedInGap(cfg, es + [e], d) <==> NotedInGap(cfg, es, d) || NotesNow(s, e, d))
    && (forall d: nat :: TypedInGap(cfg, es + [e], d) <==>
          TypedInGap(cfg, es, d) || (PassesNow(s, e, d) && NotedInGap(cfg, es, d)))
  }

  lemma GapsMoveOn(cfg: SubsAlert.Config, es: seq<Event>, e: Event)
    ensures GapsMove(cfg, es, Run(cfg, es), e)
  {
    var s := Run(cfg, es);
    forall d: nat ensures NotedInGap(cfg, es + [e], d) <==> NotedInGap(cfg, es, d) || NotesNow(s, e, d) {
      NotedInGapSnoc(cfg, es, e, d);
    }
    forall d: nat
      ensures TypedInGap(cfg, es + [e], d) <==>
              TypedInGap(cfg, es, d) || (PassesNow(s, e, d) && NotedInGap(cfg, es, d))
    {
      TypedInGapSnoc(cfg, es, e, d);
    }
  }

  lemma ToldWatch(cfg: SubsAlert.Config, es: seq<Event>, s: State, step: AlertRuns.Event)
    requires Told(cfg, es, s) && GapsMove(cfg, es, s, Watch(step)) && Enabled(s, step)
    ensures Told(cfg, es + [Watch(step)], Watched(cfg, s, step))
  {
    StepDecides(cfg, s, step);
  }

  lemma ToldPass(cfg: SubsAlert.Config, es: seq<Event>, s: State)
    requires Told(cfg, es, s) && GapsMove(cfg, es, s, Pass) && s.hand.Some?
    ensures Told(cfg, es + [Pass], Passed(s))
  {
    NewOnesSnoc(s.shown, s.hand.value, s.decisions);
    NewOnesSnoc(s.held, s.hand.value, s.decisions);
  }

  lemma StepTold(cfg: SubsAlert.Config, es: seq<Event>, e: Event)
    requires Told(cfg, es, Run(cfg, es))
    ensures Told(cfg, es + [e], Step(cfg, Run(cfg, es), e))
  {
    var s := Run(cfg, es);
    GapsMoveOn(cfg, es, e);
    match e
    case Watch(step) => if Enabled(s, step) { ToldWatch(cfg, es, s, step); }
    case Pass => if s.hand.Some? { ToldPass(cfg, es, s); }
    case _ =>
  }

  lemma {:induction false} AlwaysTold(cfg: SubsAlert.Config, events: seq<Event>)
    ensures Told(cfg, events, Run(cfg, events))
  {
    if events != [] {
      var n := |events| - 1;
      AlwaysTold(cfg, events[..n]);
      StepTold(cfg, events[..n], events[n]);
      assert events == events[..n] + [events[n]];
    }
  }

  // ----- the gap is the exact exception -----

  predicate Stamped(e: Event) { e.Note? || (e.Watch? && e.step.Attempt?) }

  function StampOf(e: Event): Time
    requires Stamped(e)
  {
    if e.Note? then e.now else e.step.now
  }

  /** Keystrokes and attempts read one running clock. */
  predicate Clocked(events: seq<Event>) {
    && (forall i :: 0 <= i < |events| && Stamped(events[i]) ==> StampOf(events[i]) > ZERO)
    && (forall i, j :: 0 <= i < j < |events| && Stamped(events[i]) && Stamped(events[j]) ==>
          StampOf(events[i]) <= StampOf(events[j]))
  }

  predicate SomeStamp(events: seq<Event>, t: Time) {
    exists i :: 0 <= i < |events| && Stamped(events[i]) && StampOf(events[i]) == t
  }

  predicate NotBefore(keys: seq<Key>, d: nat, t: Time) {
    forall i :: 0 <= i < |keys| && keys[i].decided == d ==> keys[i].at >= t
  }

  /** Keys noted since the decision are not older than it. */
  predicate FreshOk(s: State) {
    && AllUpTo(s.shown, s.decisions) && AllUpTo(s.held, s.decisions)
    && (s.hand.Some? ==> s.hand.value.decided <= s.decisions)
    && (!s.phase.Watching? ==>
          && NotBefore(s.shown, s.decisions, s.phase.at) && NotBefore(s.held, s.decisions, s.phase.at)
          && (s.hand.Some? && s.hand.value.decided == s.decisions ==> s.hand.value.at >= s.phase.at))
  }

  /** The times the flushing thread carries were read in the run. */
  predicate TimesOk(events: seq<Event>, s: State) {
    && (!s.machine.flusher.Idle? ==> SomeStamp(events, s.machine.flusher.now))
    && (!s.phase.Watching? ==> SomeStamp(events, s.phase.at))
  }

  lemma SomeStampSnoc(events: seq<Event>, e: Event, t: Time)
    ensures SomeStamp(events + [e], t) <==> SomeStamp(events, t) || (Stamped(e) && StampOf(e) == t)
  {
    var all := events + [e];
    assert all[|events|] == e;
    if SomeStamp(events, t) {
      var i :| 0 <= i < |events| && Stamped(events[i]) && StampOf(events[i]) == t;
      assert all[i] == events[i];
    }
  }

  lemma StepFlusher(cfg: SubsAlert.Config, y: AlertRuns.System, step: AlertRuns.Event)
    ensures var f := AlertRuns.Step(cfg, y, step).0.flusher;
            !f.Idle? ==> if y.flusher.Idle? then step.Attempt? && f.now == step.now else f.now == y.flusher.now
  {
  }

  lemma StepTimes(cfg: SubsAlert.Config, events: seq<Event>, s: State, e: Event)
    requires TimesOk(events, s)
    ensures TimesOk(events + [e], Step(cfg, s, e))
  {
    var t := Step(cfg, s, e);
    if !s.phase.Watching? { SomeStampSnoc(events, e, s.phase.at); }
    if !s.machine.flusher.Idle? { SomeStampSnoc(events, e, s.machine.flusher.now); }
    match e
    case Watch(step) =>
      StepFlusher(cfg, s.machine, step);
      OnlyFinishInjects(cfg, s.machine, step);
      if step.Attempt? { SomeStampSnoc(events, e, step.now); }
    case Note(now, input) => StepFlusher(cfg, s.machine, AlertRuns.UserInput(now, input));
    case _ =>
  }

  lemma StepFresh(cfg: SubsAlert.Config, s: State, e: Event)
    requires FreshOk(s) && (e.Note? && !s.phase.Watching? ==> e.now >= s.phase.at)
    ensures FreshOk(Step(cfg, s, e))
  {
    match e
    case Watch(step) => if Enabled(s, step) { StepDecides(cfg, s, step); }
    case _ =>
  }

  lemma {:induction false} AlwaysFresh(cfg: SubsAlert.Config, events: seq<Event>)
    requires Clocked(events)
    ensures FreshOk(Run(cfg, events)) && TimesOk(events, Run(cfg, events))
  {
    if events != [] {
      var n := |events| - 1;
      var s := Run(cfg, events[..n]);
      AlwaysFresh(cfg, events[..n]);
      StepTimes(cfg, events[..n], s, events[n]);
      assert events == events[..n] + [events[n]];
      StepFresh(cfg, s, events[n]);
    }
  }

  /** Over every joint run: when an alert's bytes go out, every keystroke before them on
      the PTY is an idle window older than the alert - exactly unless one was noted and
      forwarded between its decision and its alert mode. */
  lemma IdleBeforeAlertIff(cfg: SubsAlert.Config, events: seq<Event>)
    requires cfg.idleAfter > 0 && Clocked(events) && Run(cfg, events).phase.Alerting?
    ensures var s := Run(cfg, events);
            (forall i :: 0 <= i < |s.shown| ==> s.phase.at - s.shown[i].at >= cfg.idleAfter) <==>
            !TypedInGap(cfg, events, s.decisions)
  {
    AlwaysTold(cfg, events);
    AlwaysFresh(cfg, events);
    AlwaysKeysOk(cfg, events);
  }

  /** A witness: an alert decided with nobody typing, a keystroke, then the alert. */
  lemma KeystrokeInTheGap(cfg: SubsAlert.Config, input: seq<Byte>, text: seq<Byte>)
    requires cfg.idleAfter > 0 && input != []
    ensures var t := 1 + cfg.idleAfter;
            var events := [Watch(AlertRuns.Arm(1)), Watch(AlertRuns.Attempt(t)), Watch(AlertRuns.Confirm(None)),
                           Watch(AlertRuns.Finish), Note(t, input), Pass, Begin, Write(text)];
            Run(cfg, events).pump.pty == AlertPump.Typed(input) + AlertPump.Announced(1, text)
  {
    var t := 1 + cfg.idleAfter;
    var first := [Watch(AlertRuns.Arm(1)), Watch(AlertRuns.Attempt(t)), Watch(AlertRuns.Confirm(None)),
                  Watch(AlertRuns.Finish)];
    var rest := [Note(t, input), Pass, Begin, Write(text)];
    AlertDecided(cfg, t);
    RunFour(cfg, [], first[0], first[1], first[2], first[3]);
    RunFour(cfg, first, rest[0], rest[1], rest[2], rest[3]);
    assert [] + [first[0], first[1], first[2], first[3]] == first;
    TypedThenAnnounced(cfg, Run(cfg, first), t, input, text);
    assert first + [rest[0], rest[1], rest[2], rest[3]] ==
      [first[0], first[1], first[2], first[3], rest[0], rest[1], rest[2], rest[3]];
  }

  lemma TypedThenAnnounced(cfg: SubsAlert.Config, s: State, t: Time, input: seq<Byte>, text: seq<Byte>)
    requires s.phase.Decided? && s.hand.None? && s.pump == AlertPump.INITIAL && input != []
    ensures Step(cfg, Step(cfg, Step(cfg, Step(cfg, s, Note(t, input)), Pass), Begin), Write(text)).pump.pty ==
            AlertPump.Typed(input) + AlertPump.Announced(1, text)
  {
    NotedThenPassed(cfg, s, t, input);
    BegunThenWritten(cfg, Step(cfg, Step(cfg, s, Note(t, input)), Pass), text);
  }

  lemma NotedThenPassed(cfg: SubsAlert.Config, s: State, t: Time, input: seq<Byte>)
    requires s.phase.Decided? && s.hand.None? && s.pump == AlertPump.INITIAL && input != []
    ensures var z := Step(cfg, Step(cfg, s, Note(t, input)), Pass);
            z.phase == s.phase && z.pump == AlertPump.State(false, [], AlertPump.Typed(input), 0)
  {
    assert [] + AlertPump.Typed(input) == AlertPump.Typed(input);
  }

  lemma BegunThenWritten(cfg: SubsAlert.Config, s: State, text: seq<Byte>)
    requires s.phase.Decided? && s.pump.alerts == 0
    ensures Step(cfg, Step(cfg, s, Begin), Write(text)).pump.pty == s.pump.pty + AlertPump.Announced(1, text)
  {
  }

  lemma AlertDecided(cfg: SubsAlert.Config, t: Time)
    requires cfg.idleAfter > 0 && t == 1 + cfg.idleAfter
    ensures var s := Step(cfg, Step(cfg, Step(cfg, Step(cfg, START,
                       Watch(AlertRuns.Arm(1))), Watch(AlertRuns.Attempt(t))), Watch(AlertRuns.Confirm(None))),
                       Watch(AlertRuns.Finish));
            s.phase == Decided(t) && s.decisions == 1 && s.hand.None? && s.pump == AlertPump.INITIAL
  {
  }

  lemma RunFour(cfg: SubsAlert.Config, before: seq<Event>, a: Event, b: Event, c: Event, d: Event)
    ensures Run(cfg, before + [a, b, c, d]) ==
            Step(cfg, Step(cfg, Step(cfg, Step(cfg, Run(cfg, before), a), b), c), d)
  {
    OneByOne(before, a, b, c, d);
    RunSnoc(cfg, before, a);
    RunSnoc(cfg, before + [a], b);
    RunSnoc(cfg, before + [a] + [b], c);
    RunSnoc(cfg, before + [a] + [b] + [c], d);
  }

  lemma OneByOne(before: seq<Event>, a: Event, b: Event, c: Event, d: Event)
    ensures before + [a, b, c, d] == before + [a] + [b] + [c] + [d]
  {
  }

  lemma RunSnoc(cfg: SubsAlert.Config, events: seq<Event>, e: Event)
    ensures Run(cfg, events + [e]) == Step(cfg, Run(cfg, events), e)
  {
    assert (events + [e])[..|events|] == events;
  }
}
