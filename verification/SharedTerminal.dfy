/** The write-lease and the stdin gate together (internal/cli/terminal.go): one thread
    arbitrates the lease, another forwards remote keystrokes to the PTY. The second
    asks for the holder and writes later, holding no lock in between. */
module SharedTerminal {
  import opened Common
  import Lease
  import StdinGate

  /** A step of the arbiter; the forwarding loop taking the next remote message up to
      its verdict; and the end of the write that verdict allowed, which may block. */
  datatype Event =
    | Coordinate(step: Lease.Event)
    | Check(now: Time, id: string, sender: string, payload: string)
    | Write

  /** What one sender got onto the PTY. */
  datatype Piece = Piece(sender: string, payload: string)

  /** A message that passed its check and is not yet written. */
  datatype Cleared = Cleared(id: string, piece: Piece)

  datatype State = State(lease: Lease.State, log: seq<string>, flight: Option<Cleared>, pty: seq<Piece>)

  /** The message as the gate sees it, with the holder of that moment. */
  function AsDelivery(s: State, e: Event): StdinGate.Delivery
    requires e.Check?
  {
    StdinGate.Delivery(e.id, e.sender, e.payload, Lease.HolderAt(s.lease, e.now))
  }

  function Checked(s: State, cap: nat, e: Event): State
    requires e.Check?
  {
    match StdinGate.FateOf(s.log, cap, AsDelivery(s, e))
    case Skipped => s
    case Dropped => s.(log := StdinGate.Inserted(s.log, cap, e.id))
    case Written => s.(flight := Some(Cleared(e.id, Piece(e.sender, e.payload))))
  }

  function Wrote(s: State, cap: nat): State {
    if s.flight.None? then s else
      var m := s.flight.value;
      s.(log := StdinGate.Inserted(s.log, cap, m.id), flight := None, pty := s.pty + [m.piece])
  }

  /** The loop takes no message before the last one is written. */
  function Step(s: State, cap: nat, e: Event): State {
    match e
    case Coordinate(step) => s.(lease := Lease.Step(s.lease, step))
    case Check(_, _, _, _) => if s.flight.Some? then s else Checked(s, cap, e)
    case Write => Wrote(s, cap)
  }

  function Run(s: State, cap: nat, events: seq<Event>): State {
    if events == [] then s else Step(Run(s, cap, events[..|events| - 1]), cap, events[|events| - 1])
  }

  // ----- each thread sees its own part -----

  function LeaseSteps(events: seq<Event>): seq<Lease.Event> {
    if events == [] then [] else
      var before, e := LeaseSteps(events[..|events| - 1]), events[|events| - 1];
      if e.Coordinate? then before + [e.step] else before
  }

  /** The deliveries taken up, each with the holder at the moment of its check. */
  function Deliveries(s: State, cap: nat, events: seq<Event>): seq<StdinGate.Delivery> {
    if events == [] then [] else
      var n := |events| - 1;
      var before, t := Deliveries(s, cap, events[..n]), Run(s, cap, events[..n]);
      if events[n].Check? && t.flight.None? then before + [AsDelivery(t, events[n])] else before
  }

  function Text(pty: seq<Piece>): string {
    if pty == [] then "" else Text(pty[..|pty| - 1]) + pty[|pty| - 1].payload
  }

  lemma TextSnoc(pty: seq<Piece>, p: Piece)
    ensures Text(pty + [p]) == Text(pty) + p.payload
  {
    assert (pty + [p])[..|pty|] == pty;
  }

  lemma LeaseRunSnoc(s: Lease.State, steps: seq<Lease.Event>, e: Lease.Event)
    ensures Lease.Run(s, steps + [e]) == Lease.Step(Lease.Run(s, steps), e)
  {
    assert (steps + [e])[..|steps|] == steps;
  }

  lemma GateSnoc(start: seq<string>, cap: nat, ds: seq<StdinGate.Delivery>, d: StdinGate.Delivery)
    ensures StdinGate.Log(start, cap, ds + [d]) == StdinGate.Inserted(StdinGate.Log(start, cap, ds), cap, d.id)
    ensures StdinGate.Output(start, cap, ds + [d]) == StdinGate.Output(start, cap, ds) +
            if StdinGate.FateOf(StdinGate.Log(start, cap, ds), cap, d) == StdinGate.Written then d.payload else ""
  {
    assert (ds + [d])[..|ds|] == ds;
  }

  lemma {:induction false} LeasePart(s: State, cap: nat, events: seq<Event>)
    ensures Run(s, cap, events).lease == Lease.Run(s.lease, LeaseSteps(events))
  {
    if events != [] {
      var n := |events| - 1;
      LeasePart(s, cap, events[..n]);
      if events[n].Coordinate? { LeaseRunSnoc(s.lease, LeaseSteps(events[..n]), events[n].step); }
    }
  }

  /** Once the message in flight is written, log and PTY are what the gate makes of
      the deliveries. */
  predicate Forwarded(s: State, cap: nat, ds: seq<StdinGate.Delivery>, t: State) {
    && Wrote(t, cap).log == StdinGate.Log(s.log, cap, ds)
    && Text(Wrote(t, cap).pty) == Text(s.pty) + StdinGate.Output(s.log, cap, ds)
  }

  lemma ForwardedCheck(s: State, cap: nat, ds: seq<StdinGate.Delivery>, t: State, e: Event)
    requires Forwarded(s, cap, ds, t) && e.Check? && t.flight.None?
    ensures Forwarded(s, cap, ds + [AsDelivery(t, e)], Checked(t, cap, e))
  {
    var d := AsDelivery(t, e);
    var out := StdinGate.Output(s.log, cap, ds);
    GateSnoc(s.log, cap, ds, d);
    if StdinGate.FateOf(t.log, cap, d) == StdinGate.Written {
      TextSnoc(t.pty, Piece(e.sender, e.payload));
      Associate(Text(s.pty), out, e.payload);
    } else {
      assert out + "" == out;
    }
  }

  lemma Associate(a: string, b: string, c: string)
    ensures a + b + c == a + (b + c)
  {
  }

  lemma {:induction false} GatePart(s: State, cap: nat, events: seq<Event>)
    requires s.flight.None?
    ensures Forwarded(s, cap, Deliveries(s, cap, events), Run(s, cap, events))
  {
    if events == [] {
      assert Text(s.pty) + "" == Text(s.pty);
    } else {
      var n := |events| - 1;
      var t := Run(s, cap, events[..n]);
      GatePart(s, cap, events[..n]);
      if events[n].Check? && t.flight.None? {
        ForwardedCheck(s, cap, Deliveries(s, cap, events[..n]), t, events[n]);
      }
    }
  }

  /** The joint run is a run of the lease, and of the gate as if each message were
      handled in one piece at its check; only its bytes come out later. */
  lemma JointRun(s: State, cap: nat, events: seq<Event>)
    requires s.flight.None?
    ensures var t, ds := Run(s, cap, events), Deliveries(s, cap, events);
            && t.lease == Lease.Run(s.lease, LeaseSteps(events))
            && Wrote(t, cap).log == StdinGate.Log(s.log, cap, ds)
            && Text(Wrote(t, cap).pty) == Text(s.pty) + StdinGate.Output(s.log, cap, ds)
  {
    LeasePart(s, cap, events);
    GatePart(s, cap, events);
  }

  /** A new message is let through to the PTY iff, at its check, its sender holds the
      lease or nobody does. */
  lemma ClearedIff(s: State, cap: nat, e: Event)
    requires s.flight.None? && e.Check? && !StdinGate.Seen(s.log, cap, e.id)
    ensures Step(s, cap, e).flight == Some(Cleared(e.id, Piece(e.sender, e.payload))) <==>
            Lease.HolderAt(s.lease, e.now) in {"", e.sender}
    ensures Step(s, cap, e).flight.Some? || e.id in Step(s, cap, e).log
  {
    if Step(s, cap, e).flight.None? {
      assert Step(s, cap, e).log[|s.log|] == e.id;
    }
  }

  // ----- exclusion -----

  /** The holder releases with this step, or the lease has run out by then. */
  predicate Yields(s: State, e: Event) {
    || (e.Check? && s.lease.expires <= e.now)
    || (e.Coordinate? && s.lease.expires <= e.step.now)
    || (e.Coordinate? && e.step.Deliver? && e.step.msg == Lease.Release(s.lease.holder))
  }

  ghost predicate HeldThroughout(s: State, cap: nat, events: seq<Event>) {
    forall k :: 0 <= k < |events| ==> !Yields(Run(s, cap, events[..k]), events[k])
  }

  /** Everything in `pty` from position `from` on was sent by `a`. */
  predicate OnlyBy(pty: seq<Piece>, from: nat, a: string) {
    from <= |pty| && forall i :: from <= i < |pty| ==> pty[i].sender == a
  }

  /** Somebody else's message was checked before and is still to be written. */
  predicate Foreign(s: State, a: string) { s.flight.Some? && s.flight.value.piece.sender != a }

  predicate SomeWrite(events: seq<Event>) { exists k :: 0 <= k < |events| && events[k].Write? }

  /** What a stretch under a's lease has put on the PTY: as long as a foreign message
      waits, nothing; then that message; and for the rest only what `a` sent. */
  predicate Exclusive(s: State, t: State, written: bool, a: string) {
    && t.lease.holder == a
    && if !Foreign(s, a) then !Foreign(t, a) && OnlyBy(t.pty, |s.pty|, a)
       else if !written then t.flight == s.flight && t.pty == s.pty
       else
         && !Foreign(t, a) && OnlyBy(t.pty, |s.pty| + 1, a)
         && t.pty[|s.pty|] == s.flight.value.piece
  }

  lemma StepExclusive(s: State, t: State, cap: nat, written: bool, e: Event, a: string)
    requires a != "" && Exclusive(s, t, written, a) && !Yields(t, e)
    ensures Exclusive(s, Step(t, cap, e), written || e.Write?, a)
  {
  }

  lemma SomeWriteSnoc(events: seq<Event>, e: Event)
    ensures SomeWrite(events + [e]) <==> SomeWrite(events) || e.Write?
  {
    var all := events + [e];
    assert all[|events|] == e;
    if SomeWrite(events) {
      var k :| 0 <= k < |events| && events[k].Write?;
      assert all[k].Write?;
    }
  }

  lemma {:induction false} AlwaysExclusive(s: State, cap: nat, events: seq<Event>, a: string)
    requires a != "" && s.lease.holder == a && HeldThroughout(s, cap, events)
    ensures Exclusive(s, Run(s, cap, events), SomeWrite(events), a)
  {
    if events != [] {
      var n := |events| - 1;
      var init := events[..n];
      forall k | 0 <= k < n ensures !Yields(Run(s, cap, init[..k]), init[k]) {
        assert init[..k] == events[..k];
      }
      AlwaysExclusive(s, cap, init, a);
      StepExclusive(s, Run(s, cap, init), cap, SomeWrite(init), events[n], a);
      SomeWriteSnoc(init, events[n]);
      assert init + [events[n]] == events;
    }
  }

  /** Over every joint run from a state held by `a` and up to the first release or
      lapse, the PTY gets only what `a` sent - exactly unless another sender's message,
      checked before the lease was a's, is written in that time. */
  lemma OnlyTheHolderTypesIff(s: State, cap: nat, events: seq<Event>, a: string)
    requires a != "" && s.lease.holder == a && HeldThroughout(s, cap, events)
    ensures Run(s, cap, events).lease.holder == a
    ensures OnlyBy(Run(s, cap, events).pty, |s.pty|, a) <==> !(Foreign(s, a) && SomeWrite(events))
  {
    AlwaysExclusive(s, cap, events, a);
  }

  /** And that is one message at most: the first one written, and nothing foreign
      after it. */
  lemma OneForeignAtMost(s: State, cap: nat, events: seq<Event>, a: string)
    requires a != "" && s.lease.holder == a && HeldThroughout(s, cap, events)
    requires Foreign(s, a) && SomeWrite(events)
    ensures var pty := Run(s, cap, events).pty;
            OnlyBy(pty, |s.pty| + 1, a) && pty[|s.pty|] == s.flight.value.piece
  {
    AlwaysExclusive(s, cap, events, a);
  }

  /** Before `until`, and not a message to the arbiter by `a` itself. */
  predicate Before(e: Event, until: Time, a: string) {
    match e
    case Coordinate(step) => step.now < until && (step.Deliver? ==> step.msg.sender != a)
    case Check(now, _, _, _) => now < until
    case Write => true
  }

  lemma {:induction false} GrantStands(s: State, cap: nat, events: seq<Event>, a: string, until: Time)
    requires a != "" && s.lease == Lease.State(a, until)
    requires forall k :: 0 <= k < |events| ==> Before(events[k], until, a)
    ensures Run(s, cap, events).lease == s.lease
  {
    if events != [] {
      var n := |events| - 1;
      GrantStands(s, cap, events[..n], a, until);
      assert Before(events[n], until, a);
    }
  }

  /** From the grant alone: whatever the others do, its sender has the PTY to itself
      for the whole window, exactly unless a message that was in flight at the grant
      comes out in it. */
  lemma GrantProtectsIff(s: State, cap: nat, events: seq<Event>, a: string, until: Time)
    requires a != "" && s.lease == Lease.State(a, until)
    requires forall k :: 0 <= k < |events| ==> Before(events[k], until, a)
    ensures Run(s, cap, events).lease == s.lease
    ensures OnlyBy(Run(s, cap, events).pty, |s.pty|, a) <==> !(Foreign(s, a) && SomeWrite(events))
  {
    GrantStands(s, cap, events, a, until);
    forall k | 0 <= k < |events| ensures !Yields(Run(s, cap, events[..k]), events[k]) {
      GrantStands(s, cap, events[..k], a, until);
      assert Before(events[k], until, a);
    }
    OnlyTheHolderTypesIff(s, cap, events, a);
  }

  /** A witness from a free lease: b's message is checked, a is granted the lease, and
      b's bytes come out while it is live. */
  lemma CheckedBeforeGranted(a: string, b: string, payload: string, cap: nat)
    requires a != "" && a != b
    ensures var start := State(Lease.FREE, [], None, []);
            var grant := Lease.Deliver(11, Lease.Acquire(a, 1000, Some(11)));
            var t := Run(start, cap, [Check(10, "1", b, payload), Coordinate(grant), Write]);
            Lease.HolderAt(t.lease, 11) == a && t.pty == [Piece(b, payload)]
  {
    var start := State(Lease.FREE, [], None, []);
    var grant := Lease.Deliver(11, Lease.Acquire(a, 1000, Some(11)));
    var c := Check(10, "1", b, payload);
    Lease.LiveAcquireGranted(Lease.FREE, 11, a, 1000, 11);
    var checked := start.(flight := Some(Cleared("1", Piece(b, payload))));
    assert Step(start, cap, c) == checked;
    var one, two := [c], [c, Coordinate(grant)];
    assert one[..0] == [] && two[..1] == one && [c, Coordinate(grant), Write][..2] == two;
    assert Run(start, cap, one) == checked;
    assert Run(start, cap, two) == Step(checked, cap, Coordinate(grant));
  }
}
