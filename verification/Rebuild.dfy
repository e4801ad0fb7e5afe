/** Connection rebuilds across credential rotations
    (internal/daemon/daemon.go, handlers.go, refresh.go). A rebuild holds the
    connection lock from its check to its stamp, so no two overlap; rotations,
    connection losses and the library's own reconnects take no such lock and may
    land in between. */
module Rebuild {
  import opened Common

  /** A connection and the credential generation it last authenticated with. */
  datatype Conn = Conn(credGen: nat, connected: bool)

  /** `dialing` is the connection a rebuild has dialed but not yet installed;
      `stamping` says it has installed one and stamped its expiry, not yet its
      generation. Either way that rebuild still holds the lock. */
  datatype State = State(
    gen: nat, exp: int,
    nc: Option<Conn>, ncGen: nat, ncExp: int,
    dialing: Option<Conn>, stamping: bool)

  predicate Started(s: State) {
    s.gen == 0 && s.nc.None? && s.ncGen == 0 && s.ncExp == 0 && s.dialing.None? && !s.stamping
  }

  predicate Locked(s: State) { s.dialing.Some? || s.stamping }

  /** The check that lets concurrent callers coalesce. */
  predicate Current(s: State) {
    s.nc.Some? && s.nc.value.connected && s.ncExp == s.exp && s.ncGen == s.gen
  }

  datatype Event =
    | Rotate(exp: int)        // a refresh succeeded
    | Lose                    // the installed connection dropped
    | LoseDialing             // the connection being installed dropped
    | Regain                  // the library reconnected the installed connection
    | RegainDialing           // or the one being installed
    | Teardown                // credentials gone: swapped for nothing
    | Call(dialOk: bool)      // rebuildNC up to and including the dial
    | Install                 // rebuildNC's swap, up to stamping the expiry
    | StampGen                // stamping the generation; the lock is released

  /** Which history line a swap leaves: a connectivity transition, or none. */
  datatype Anchor = NoAnchor | Connect | Reconnect

  function Classify(old_: Option<Conn>): Anchor {
    if old_.None? then Connect else if !old_.value.connected then Reconnect else NoAnchor
  }

  function Dropped(c: Option<Conn>): Option<Conn> {
    if c.Some? then Some(c.value.(connected := false)) else None
  }

  predicate Up(c: Option<Conn>) { c.Some? && c.value.connected }

  predicate Down(c: Option<Conn>) { c.Some? && !c.value.connected }

  /** A reconnect authenticates with the credential of that moment. */
  function Regained(c: Option<Conn>, gen: nat): Option<Conn> {
    if Down(c) then Some(Conn(gen, true)) else c
  }

  function Step(s: State, e: Event): State {
    match e
    case Rotate(exp) => s.(gen := s.gen + 1, exp := exp)
    case Lose => s.(nc := Dropped(s.nc))
    case LoseDialing => s.(dialing := Dropped(s.dialing))
    case Regain => s.(nc := Regained(s.nc, s.gen))
    case RegainDialing => s.(dialing := Regained(s.dialing, s.gen))
    case Teardown => if !Locked(s) then s.(nc := None, ncGen := 0, ncExp := 0) else s
    case Call(dialOk) =>
      if !Locked(s) && !Current(s) && dialOk then s.(dialing := Some(Conn(s.gen, true))) else s
    case Install =>
      if s.dialing.Some? then s.(nc := s.dialing, ncExp := s.exp, dialing := None, stamping := true) else s
    case StampGen => if s.stamping then s.(ncGen := s.gen, stamping := false) else s
  }

  /** The daemon's fields; each method is the code between two points at which
      another thread may act. */
  class Daemon {
    var gen: nat
    var exp: int
    var nc: Option<Conn>
    var ncGen: nat
    var ncExp: int
    var dialing: Option<Conn>
    var stamping: bool

    function Now(): State
      reads this
    {
      State(gen, exp, nc, ncGen, ncExp, dialing, stamping)
    }

    constructor (initialExp: int)
      ensures Started(Now()) && exp == initialExp
    {
      gen, exp, nc, ncGen, ncExp, dialing, stamping := 0, initialExp, None, 0, 0, None, false;
    }

    method RefreshNow(newExp: int)
      modifies this
      ensures Now() == Step(old(Now()), Rotate(newExp))
    {
      exp := newExp;
      gen := gen + 1;
    }

    /** Check and dial, given whether there is a server to dial and it answers. */
    method BeginRebuild(urlKnown: bool, dialOk: bool) returns (failed: bool)
      requires !Locked(Now())
      modifies this
      ensures Now() == if urlKnown then Step(old(Now()), Call(dialOk)) else old(Now())
      ensures failed <==> urlKnown && !Current(old(Now())) && !dialOk
    {
      if !urlKnown {
        return false;
      }
      if nc.Some? && nc.value.connected && ncExp == exp && ncGen == gen {
        return false;
      }
      if !dialOk {
        return true;
      }
      dialing := Some(Conn(gen, true));
      failed := false;
    }

    /** Swap the dialed connection in, classify the transition, stamp the expiry. */
    method SwapIn() returns (anchor: Anchor)
      requires dialing.Some? && !stamping
      modifies this
      ensures Now() == Step(old(Now()), Install)
      ensures anchor == Classify(old(nc))
      ensures anchor == Connect <==> old(nc).None?
      ensures anchor == Reconnect <==> old(nc).Some? && !old(nc).value.connected
    {
      var oldNc := nc;
      nc := dialing;
      dialing := None;
      ncExp := exp;
      stamping := true;
      anchor := NoAnchor;
      if oldNc.None? {
        anchor := Connect;
      } else if !oldNc.value.connected {
        anchor := Reconnect;
      }
    }

    method StampGeneration()
      requires stamping
      modifies this
      ensures Now() == Step(old(Now()), StampGen)
    {
      ncGen := gen;
      stamping := false;
    }
  }

  // ----- runs -----

  function Run(s: State, events: seq<Event>): State {
    if events == [] then s else Step(Run(s, events[..|events| - 1]), events[|events| - 1])
  }

  predicate Dials(s: State, e: Event) { e.Call? && e.dialOk && !Locked(s) && !Current(s) }

  function DialCount(s: State, events: seq<Event>): nat {
    if events == [] then 0 else
      var n := |events| - 1;
      DialCount(s, events[..n]) + if Dials(Run(s, events[..n]), events[n]) then 1 else 0
  }

  function Rotations(events: seq<Event>): nat {
    if events == [] then 0 else Rotations(events[..|events| - 1]) + if events[|events| - 1].Rotate? then 1 else 0
  }

  predicate IsLoss(e: Event) { e.Lose? || e.LoseDialing? || e.Teardown? }

  function Losses(events: seq<Event>): nat {
    if events == [] then 0 else Losses(events[..|events| - 1]) + if IsLoss(events[|events| - 1]) then 1 else 0
  }

  /** Covered: current, or about to be once the rebuild in hand installs. */
  predicate Covered(s: State) {
    if s.dialing.Some? then s.dialing.value.connected
    else if s.stamping then s.nc.Some? && s.nc.value.connected && s.ncExp == s.exp
    else Current(s)
  }

  function Bit(b: bool): nat { if b then 1 else 0 }

  /** Stamps are of the past, and a rebuild is at one point at a time. */
  predicate Sound(s: State) {
    s.ncGen <= s.gen && (s.dialing.Some? ==> !s.stamping)
  }

  /** Dials are paid for by rotations and losses, with one on credit while covered. */
  lemma {:induction false} DialCredit(s: State, events: seq<Event>)
    requires Sound(s)
    ensures Sound(Run(s, events))
    ensures DialCount(s, events) <= Rotations(events) + Losses(events) + Bit(Covered(Run(s, events)))
  {
    if events != [] {
      DialCredit(s, events[..|events| - 1]);
    }
  }

  /** One reconnect per reason: over any run of one credential loop, successful
      dials never exceed one plus the rotations plus the losses. */
  lemma DialsBounded(s: State, events: seq<Event>)
    requires Started(s)
    ensures DialCount(s, events) <= 1 + Rotations(events) + Losses(events)
  {
    DialCredit(s, events);
  }

  /** The thundering herd collapses: between two rotations or losses, any number
      of callers dial at most once between them. */
  lemma HerdDialsOnce(s: State, events: seq<Event>)
    requires Sound(s)
    requires Quiet(events)
    ensures DialCount(s, events) <= 1
  {
    DialCredit(s, events);
    QuietStretch(events);
  }

  predicate Quiet(events: seq<Event>) {
    forall i :: 0 <= i < |events| ==> !events[i].Rotate? && !IsLoss(events[i])
  }

  lemma {:induction false} QuietStretch(events: seq<Event>)
    requires Quiet(events)
    ensures Rotations(events) == 0 && Losses(events) == 0
  {
    if events != [] {
      QuietStretch(events[..|events| - 1]);
    }
  }

  /** No rotation lands while a rebuild is between its dial and its stamp. */
  predicate NoRotationMidRebuild(s: State, events: seq<Event>) {
    forall i :: 0 <= i < |events| && Locked(Run(s, events[..i])) ==> !events[i].Rotate?
  }

  /** Stamps never claim a newer credential than the connection uses. */
  predicate Truthful(s: State) {
    && (s.nc.Some? && !s.stamping ==> s.ncGen <= s.nc.value.credGen <= s.gen)
    && (s.nc.Some? && s.stamping ==> s.nc.value.credGen == s.gen)
    && (s.dialing.Some? ==> s.dialing.value.credGen == s.gen && !s.stamping)
    && (s.stamping ==> s.nc.Some?)
  }

  lemma StepTruthful(s: State, e: Event)
    requires Truthful(s) && (Locked(s) ==> !e.Rotate?)
    ensures Truthful(Step(s, e))
  {
  }

  /** In such runs "current" can be trusted: a connection that passes the check
      is on the newest credential. */
  lemma {:induction false} CurrentMeansNewest(s: State, events: seq<Event>)
    requires Started(s) && NoRotationMidRebuild(s, events)
    ensures Truthful(Run(s, events))
    ensures var t := Run(s, events); Current(t) && !Locked(t) ==> t.nc.value.credGen == t.gen
  {
    if events != [] {
      var n := |events| - 1;
      var init := events[..n];
      forall i | 0 <= i < n && Locked(Run(s, init[..i])) ensures !init[i].Rotate? {
        assert init[..i] == events[..i];
      }
      CurrentMeansNewest(s, init);
      StepTruthful(Run(s, init), events[n]);
    }
  }

  /** The rotations that landed during the latest rebuild since its connection last
      authenticated; none once that connection has come back by itself. */
  function Lag(s: State, events: seq<Event>): nat {
    if events == [] then 0 else
      var n := |events| - 1;
      var t, e := Run(s, events[..n]), events[n];
      if Dials(t, e) || (e.RegainDialing? && Down(t.dialing)) then 0
      else if e.Regain? && Down(t.nc) && t.dialing.None? then 0
      else Lag(s, events[..n]) + Bit(e.Rotate? && Locked(t))
  }

  /** How far behind the connection is that a rebuild has in hand, or that carries the
      newest stamp. */
  predicate Behind(s: State, lag: nat) {
    && Sound(s) && (s.stamping ==> s.nc.Some?)
    && (s.dialing.Some? ==> s.dialing.value.credGen + lag == s.gen)
    && (s.dialing.None? && s.nc.Some? && (s.stamping || s.ncGen == s.gen) ==> s.nc.value.credGen + lag == s.gen)
  }

  lemma {:induction false} LagIsAge(s: State, events: seq<Event>)
    requires Started(s)
    ensures Behind(Run(s, events), Lag(s, events))
  {
    if events != [] {
      LagIsAge(s, events[..|events| - 1]);
    }
  }

  /** Over every run: a connection that passes the freshness check is exactly as many
      generations old as rotations landed inside its own rebuild, so it is on the
      newest credential iff none did. */
  lemma InstalledAge(s: State, events: seq<Event>)
    requires Started(s)
    ensures var t := Run(s, events);
            Current(t) && !Locked(t) ==>
              && t.nc.value.credGen + Lag(s, events) == t.gen
              && (t.nc.value.credGen == t.gen <==> Lag(s, events) == 0)
  {
    LagIsAge(s, events);
  }

  predicate OnlyRotations(events: seq<Event>) { forall i :: 0 <= i < |events| ==> events[i].Rotate? }

  lemma {:induction false} RotationsOnly(s: State, events: seq<Event>)
    requires OnlyRotations(events)
    ensures Run(s, events) == s.(gen := s.gen + |events|, exp := Run(s, events).exp)
    ensures events == [] ==> Run(s, events).exp == s.exp
  {
    if events != [] {
      RotationsOnly(s, events[..|events| - 1]);
    }
  }

  /** Any age is reached: a rebuild during which rotations land - `r1` before the
      expiry is stamped, `r2` between the two stamps - ends on a connection that many
      generations old, and the freshness check still accepts it unless `r2` changed
      the expiry. */
  lemma StampAge(s: State, r1: seq<Event>, r2: seq<Event>)
    requires !Locked(s) && !Current(s) && OnlyRotations(r1) && OnlyRotations(r2)
    ensures var installed := Step(Run(Step(s, Call(true)), r1), Install);
            var done := Step(Run(installed, r2), StampGen);
            && done.nc.Some? && done.nc.value.credGen + |r1| + |r2| == done.gen
            && (Current(done) <==> done.exp == installed.exp)
            && (r2 == [] ==> Current(done))
  {
    var dialed := Step(s, Call(true));
    RotationsOnly(dialed, r1);
    RotationsOnly(Step(Run(dialed, r1), Install), r2);
  }

  // ----- the check is not atomic -----

  /** What other threads may do while a rebuild holds the lock and has not dialed. */
  predicate LockFree(events: seq<Event>) {
    forall i :: 0 <= i < |events| ==> events[i].Rotate? || events[i].Lose? || events[i].Regain?
  }

  lemma {:induction false} LockFreeRun(s: State, events: seq<Event>)
    requires LockFree(events)
    ensures var t := Run(s, events);
            && t.ncGen == s.ncGen && t.ncExp == s.ncExp && t.dialing == s.dialing && t.stamping == s.stamping
            && s.gen <= t.gen && (s.gen == t.gen ==> s.exp == t.exp)
  {
    if events != [] {
      LockFreeRun(s, events[..|events| - 1]);
    }
  }

  /** Connection, expiry and generation are read one after another. The answer is
      still that of one moment: "current" was true at the first read, and "stale" was
      true at one of the three. */
  lemma CheckLinearises(s: State, e1: seq<Event>, e2: seq<Event>)
    requires Sound(s) && LockFree(e1) && LockFree(e2)
    ensures var s1 := Run(s, e1);
            var s2 := Run(s1, e2);
            if Up(s.nc) && s.ncExp == s1.exp && s.ncGen == s2.gen then Current(s)
            else !Current(s) || !Current(s1) || !Current(s2)
  {
    LockFreeRun(s, e1);
    LockFreeRun(Run(s, e1), e2);
  }

  lemma {:induction false} DialingCommutes(s: State, c: Conn, events: seq<Event>)
    requires LockFree(events)
    ensures Run(s.(dialing := Some(c)), events) == Run(s, events).(dialing := Some(c))
  {
    if events != [] {
      DialingCommutes(s, c, events[..|events| - 1]);
    }
  }

  /** Nor need the dial follow the check at once: whatever lands between them, the
      outcome is that of one `Call`, either after all of it or before all of it. */
  lemma DialLinearises(s: State, events: seq<Event>)
    requires Sound(s) && !Locked(s) && !Current(s) && LockFree(events)
    ensures var t := Run(s, events);
            var dialed := t.(dialing := Some(Conn(t.gen, true)));
            dialed == if Current(t) then Run(Step(s, Call(true)), events) else Step(t, Call(true))
  {
    LockFreeRun(s, events);
    DialingCommutes(s, Conn(s.gen, true), events);
  }

  // ----- history anchors -----

  function AnchorCount(s: State, events: seq<Event>): nat {
    if events == [] then 0 else
      var n := |events| - 1;
      var t := Run(s, events[..n]);
      AnchorCount(s, events[..n]) +
      Bit(events[n].Install? && t.dialing.Some? && Classify(t.nc) != NoAnchor)
  }

  lemma {:induction false} AnchorCredit(s: State, events: seq<Event>)
    requires Started(s)
    ensures var t := Run(s, events);
            !(t.dialing.Some? && t.stamping) &&
            AnchorCount(s, events) + Bit(Down(t.dialing)) <= Losses(events) + Bit(Up(t.nc))
  {
    if events != [] {
      AnchorCredit(s, events[..|events| - 1]);
    }
  }

  /** "Connected since" is honest: connect and reconnect lines are bounded by the
      losses alone - routine credential rotation never fakes an outage. */
  lemma AnchorsNeedLosses(s: State, events: seq<Event>)
    requires Started(s)
    ensures AnchorCount(s, events) <= 1 + Losses(events)
  {
    AnchorCredit(s, events);
  }

  // ----- the steps, from the state alone -----

  /** A caller dials exactly when nobody else is rebuilding and the connection is
      missing, down, or stamped with another expiry or generation; it dials with the
      credential of that moment. */
  lemma CallSpelledOut(s: State)
    ensures Step(s, Call(false)) == s
    ensures Step(s, Call(true)) ==
            if s.dialing.Some? || s.stamping then s
            else if s.nc.Some? && s.nc.value.connected && s.ncExp == s.exp && s.ncGen == s.gen then s
            else s.(dialing := Some(Conn(s.gen, true)))
  {
  }

  /** Left alone, a call that dials ends on a connection that is current: the next call
      finds nothing to do. */
  lemma RebuildCompletes(s: State)
    requires s.dialing.None? && !s.stamping
    ensures var t := Step(Step(Step(s, Call(true)), Install), StampGen);
            && t.nc.Some? && t.nc.value.connected && t.ncExp == t.exp == s.exp && t.ncGen == t.gen == s.gen
            && t.dialing.None? && !t.stamping && Step(t, Call(true)) == t
            && (s.nc != t.nc ==> t.nc == Some(Conn(s.gen, true)))
  {
  }

  /** A rotation or a loss makes the next call dial again. */
  lemma ReasonsToDial(s: State, exp: int)
    requires s.dialing.None? && !s.stamping && s.ncGen <= s.gen
    ensures Step(Step(s, Rotate(exp)), Call(true)).dialing == Some(Conn(s.gen + 1, true))
    ensures Step(Step(s, Lose), Call(true)).dialing == Some(Conn(s.gen, true))
    ensures Step(Step(s, Teardown), Call(true)).dialing == Some(Conn(s.gen, true))
  {
  }

  /** The other steps, field by field. */
  lemma StepsSpelledOut(s: State, exp: int)
    ensures Step(s, Rotate(exp)) == State(s.gen + 1, exp, s.nc, s.ncGen, s.ncExp, s.dialing, s.stamping)
    ensures s.dialing.Some? ==> Step(s, Install) == State(s.gen, s.exp, s.dialing, s.ncGen, s.exp, None, true)
    ensures s.stamping ==> Step(s, StampGen) == State(s.gen, s.exp, s.nc, s.gen, s.ncExp, s.dialing, false)
    ensures s.dialing.None? && !s.stamping ==>
              Step(s, Teardown) == State(s.gen, s.exp, None, 0, 0, s.dialing, s.stamping)
  {
  }

  /** What is counted: a step that leaves a connection being dialed where none was, each
      rotation, each loss, and each swap that leaves a line. */
  lemma CountsSpelledOut(s: State, events: seq<Event>, e: Event)
    ensures DialCount(s, []) == 0 && Rotations([]) == 0 && Losses([]) == 0 && AnchorCount(s, []) == 0
    ensures var t := Run(s, events);
            DialCount(s, events + [e]) ==
            DialCount(s, events) + if t.dialing.None? && Step(t, e).dialing.Some? then 1 else 0
    ensures Rotations(events + [e]) == Rotations(events) + if e.Rotate? then 1 else 0
    ensures Losses(events + [e]) == Losses(events) + if e.Lose? || e.LoseDialing? || e.Teardown? then 1 else 0
    ensures var t := Run(s, events);
            AnchorCount(s, events + [e]) ==
            AnchorCount(s, events) +
            if e.Install? && t.dialing.Some? && (t.nc.None? || !t.nc.value.connected) then 1 else 0
  {
    assert (events + [e])[..|events|] == events;
  }
}
