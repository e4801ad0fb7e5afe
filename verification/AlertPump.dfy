/** The alert pump (internal/cli/terminal_subs_alert.go): local keystrokes and
    injected alerts share one PTY without mixing. Remote keystrokes reach the same
    PTY past the pump (internal/cli/terminal.go) and can fall inside an alert. */
module AlertPump {
  import opened Common

  /** A byte on the PTY and who put it there; alerts are numbered. */
  datatype Mark = User(b: Byte) | Remote(b: Byte) | Alert(id: nat, b: Byte)

  function Typed(input: seq<Byte>): (ms: seq<Mark>)
    ensures |ms| == |input| && forall i :: 0 <= i < |ms| ==> ms[i] == User(input[i])
  {
    seq(|input|, i requires 0 <= i < |input| => User(input[i]))
  }

  function Sent(input: seq<Byte>): (ms: seq<Mark>)
    ensures |ms| == |input| && forall i :: 0 <= i < |ms| ==> ms[i] == Mark.Remote(input[i])
  {
    seq(|input|, i requires 0 <= i < |input| => Mark.Remote(input[i]))
  }

  function Announced(id: nat, text: seq<Byte>): (ms: seq<Mark>)
    ensures |ms| == |text| && forall i :: 0 <= i < |ms| ==> ms[i] == Alert(id, text[i])
  {
    seq(|text|, i requires 0 <= i < |text| => Alert(id, text[i]))
  }

  datatype State = State(alert: bool, buffer: seq<Byte>, pty: seq<Mark>, alerts: nat)

  const INITIAL := State(false, [], [], 0)

  function Forwarded(s: State, input: seq<Byte>): State {
    if s.alert then s.(buffer := s.buffer + input) else s.(pty := s.pty + Typed(input))
  }

  function Begun(s: State): State { s.(alert := true, alerts := s.alerts + 1) }

  function Wrote(s: State, text: seq<Byte>): State { s.(pty := s.pty + Announced(s.alerts, text)) }

  function Ended(s: State): State { s.(alert := false, buffer := [], pty := s.pty + Typed(s.buffer)) }

  /** Each method is one stretch under the pump's lock, except `Write`, which the
      flushing thread performs unlocked while in alert mode, and `WriteRemote`, which
      the remote input's thread performs at any time. */
  class Pump {
    var alert: bool
    var buffer: seq<Byte>
    var pty: seq<Mark>
    var alerts: nat

    constructor ()
      ensures Current() == INITIAL
    {
      alert, buffer, pty, alerts := false, [], [], 0;
    }

    function Current(): State
      reads this
    {
      State(alert, buffer, pty, alerts)
    }

    method ForwardUserInput(input: seq<Byte>) returns (direct: bool)
      modifies this
      ensures Current() == Forwarded(old(Current()), input)
      ensures direct <==> input == [] || !old(alert)
    {
      if input == [] {
        return true;
      }
      if alert {
        buffer := buffer + input;
        return false;
      }
      pty := pty + Typed(input);
      return true;
    }

    method BeginAlertMode()
      modifies this
      ensures Current() == Begun(old(Current()))
    {
      alert := true;
      alerts := alerts + 1;
    }

    method Write(text: seq<Byte>)
      modifies this
      ensures Current() == Wrote(old(Current()), text)
    {
      pty := pty + Announced(alerts, text);
    }

    method WriteRemote(input: seq<Byte>)
      modifies this
      ensures Current() == old(Current()).(pty := old(pty) + Sent(input))
    {
      pty := pty + Sent(input);
    }

    method EndAlertMode()
      modifies this
      ensures Current() == Ended(old(Current()))
    {
      alert := false;
      if |buffer| > 0 {
        pty := pty + Typed(buffer);
        buffer := [];
      }
    }
  }

  // ----- runs -----

  /** `Begin`, any number of `Write`s (message, pause, submit key; fewer when a
      write fails) and `End` belong to the flushing thread; `Forward` and `Receive`
      may land anywhere. */
  datatype Event = Forward(input: seq<Byte>) | Receive(input: seq<Byte>) | Begin | Write(text: seq<Byte>) | End

  function Step(s: State, e: Event): State {
    match e
    case Forward(input) => Forwarded(s, input)
    case Receive(input) => s.(pty := s.pty + Sent(input))
    case Begin => if s.alert then s else Begun(s)
    case Write(text) => if s.alert then Wrote(s, text) else s
    case End => if s.alert then Ended(s) else s
  }

  function Run(events: seq<Event>): State {
    if events == [] then INITIAL else Step(Run(events[..|events| - 1]), events[|events| - 1])
  }

  /** Everything the user typed, in order. */
  function Input(events: seq<Event>): seq<Byte> {
    if events == [] then [] else
      var e := events[|events| - 1];
      Input(events[..|events| - 1]) + if e.Forward? then e.input else []
  }

  function UserBytes(pty: seq<Mark>): seq<Byte> {
    if pty == [] then [] else
      var m := pty[|pty| - 1];
      UserBytes(pty[..|pty| - 1]) + if m.User? then [m.b] else []
  }

  lemma {:induction false} UserBytesTyped(pty: seq<Mark>, input: seq<Byte>)
    ensures UserBytes(pty + Typed(input)) == UserBytes(pty) + input
  {
    var all := pty + Typed(input);
    if input == [] {
      assert all == pty;
    } else {
      var n := |input| - 1;
      assert all[..|all| - 1] == pty + Typed(input[..n]);
      UserBytesTyped(pty, input[..n]);
      assert input == input[..n] + [input[n]];
    }
  }

  predicate NobodyTyped(ms: seq<Mark>) { forall i :: 0 <= i < |ms| ==> !ms[i].User? }

  lemma {:induction false} UserBytesOthers(pty: seq<Mark>, ms: seq<Mark>)
    requires NobodyTyped(ms)
    ensures UserBytes(pty + ms) == UserBytes(pty)
  {
    var all := pty + ms;
    if ms == [] {
      assert all == pty;
    } else {
      assert all[..|all| - 1] == pty + ms[..|ms| - 1];
      UserBytesOthers(pty, ms[..|ms| - 1]);
    }
  }

  /** Local input so far: what is on the PTY, and what is held back. */
  function Taken(s: State): seq<Byte> { UserBytes(s.pty) + s.buffer }

  lemma ForwardConserves(s: State, input: seq<Byte>)
    requires s.buffer != [] ==> s.alert
    ensures Taken(Forwarded(s, input)) == Taken(s) + input
  {
    if s.alert {
      assert UserBytes(s.pty) + s.buffer + input == UserBytes(s.pty) + (s.buffer + input);
    } else {
      UserBytesTyped(s.pty, input);
    }
  }

  lemma EndConserves(s: State)
    ensures Taken(Ended(s)) == Taken(s)
  {
    UserBytesTyped(s.pty, s.buffer);
  }

  lemma StepConserves(s: State, e: Event)
    requires s.buffer != [] ==> s.alert
    ensures Taken(Step(s, e)) == Taken(s) + if e.Forward? then e.input else []
    ensures Step(s, e).buffer != [] ==> Step(s, e).alert
  {
    match e
    case Forward(input) => ForwardConserves(s, input);
    case Receive(input) => UserBytesOthers(s.pty, Sent(input));
    case Begin =>
    case Write(text) => if s.alert { UserBytesOthers(s.pty, Announced(s.alerts, text)); }
    case End => EndConserves(s);
  }

  /** No local keystroke is lost, duplicated or reordered in any interleaving, and
      none is held back outside alert mode. */
  lemma {:induction false} InputConserved(events: seq<Event>)
    ensures UserBytes(Run(events).pty) + Run(events).buffer == Input(events)
    ensures Run(events).buffer != [] ==> Run(events).alert
  {
    if events != [] {
      var n := |events| - 1;
      InputConserved(events[..n]);
      StepConserves(Run(events[..n]), events[n]);
    }
  }

  // ----- alerts in one piece -----

  predicate Of(m: Mark, id: nat) { m.Alert? && m.id == id }

  /** Bytes of one alert are contiguous. */
  ghost predicate Unbroken(pty: seq<Mark>) {
    forall i, j, k, id :: 0 <= i < j < k < |pty| && Of(pty[i], id) && Of(pty[k], id) ==> Of(pty[j], id)
  }

  predicate Has(pty: seq<Mark>, id: nat) { exists i :: 0 <= i < |pty| && Of(pty[i], id) }

  /** Something follows the bytes of alert `id`. */
  predicate Followed(pty: seq<Mark>, id: nat) {
    exists i, j :: 0 <= i < j < |pty| && Of(pty[i], id) && !Of(pty[j], id)
  }

  predicate NoAlert(ms: seq<Mark>) { forall i :: 0 <= i < |ms| ==> !ms[i].Alert? }

  /** What keystrokes, local or remote, do to the alerts before them. */
  lemma AppendKeys(pty: seq<Mark>, ms: seq<Mark>, id: nat)
    requires NoAlert(ms)
    ensures Has(pty + ms, id) <==> Has(pty, id)
    ensures Followed(pty + ms, id) <==> Followed(pty, id) || (Has(pty, id) && ms != [])
  {
    var all := pty + ms;
    assert forall i :: 0 <= i < |pty| ==> all[i] == pty[i];
    assert forall i :: |pty| <= i < |all| ==> all[i] == ms[i - |pty|];
    if Has(pty, id) {
      var i :| 0 <= i < |pty| && Of(pty[i], id);
      assert Of(all[i], id);
      if ms != [] { assert !Of(all[|pty|], id); }
    }
    if Followed(pty, id) {
      var i, j :| 0 <= i < j < |pty| && Of(pty[i], id) && !Of(pty[j], id);
      assert Of(all[i], id) && !Of(all[j], id);
    }
    if Followed(all, id) {
      var i, j :| 0 <= i < j < |all| && Of(all[i], id) && !Of(all[j], id);
      assert i < |pty|;
      assert Of(pty[i], id);
    }
  }

  lemma KeysKeepUnbroken(pty: seq<Mark>, ms: seq<Mark>)
    requires NoAlert(ms)
    ensures Unbroken(pty + ms) <==> Unbroken(pty)
  {
    var all := pty + ms;
    assert forall i :: 0 <= i < |pty| ==> all[i] == pty[i];
    assert forall i :: |pty| <= i < |all| ==> !all[i].Alert?;
    if Unbroken(all) { PrefixUnbroken(pty, ms); }
  }

  /** What an alert's write does to the alerts before it, its own earlier bytes
      included. */
  lemma AppendAlert(pty: seq<Mark>, id: nat, text: seq<Byte>, other: nat)
    requires text != []
    ensures Has(pty + Announced(id, text), other) <==> Has(pty, other) || other == id
    ensures Followed(pty + Announced(id, text), id) <==> Followed(pty, id)
  {
    var all := pty + Announced(id, text);
    assert forall i :: 0 <= i < |pty| ==> all[i] == pty[i];
    assert forall i :: |pty| <= i < |all| ==> Of(all[i], id);
    assert Of(all[|pty|], id);
    if Has(pty, other) {
      var i :| 0 <= i < |pty| && Of(pty[i], other);
      assert Of(all[i], other);
    }
    if Followed(pty, id) {
      var i, j :| 0 <= i < j < |pty| && Of(pty[i], id) && !Of(pty[j], id);
      assert Of(all[i], id) && !Of(all[j], id);
    }
    if Followed(all, id) {
      var i, j :| 0 <= i < j < |all| && Of(all[i], id) && !Of(all[j], id);
      assert j < |pty|;
      assert Of(pty[i], id) && !Of(pty[j], id);
    }
  }

  lemma FollowedIsBroken(pty: seq<Mark>, id: nat, text: seq<Byte>)
    requires text != [] && Followed(pty, id)
    ensures !Unbroken(pty + Announced(id, text))
  {
    var all := pty + Announced(id, text);
    var i, j :| 0 <= i < j < |pty| && Of(pty[i], id) && !Of(pty[j], id);
    assert Of(all[i], id) && !Of(all[j], id) && Of(all[|pty|], id);
  }

  lemma PrefixUnbroken(pty: seq<Mark>, more: seq<Mark>)
    requires Unbroken(pty + more)
    ensures Unbroken(pty)
  {
    var all := pty + more;
    forall i, j, k, x | 0 <= i < j < k < |pty| && Of(pty[i], x) && Of(pty[k], x) ensures Of(pty[j], x) {
      assert all[i] == pty[i] && all[j] == pty[j] && all[k] == pty[k];
    }
  }

  lemma AtTheEnd(pty: seq<Mark>, id: nat, text: seq<Byte>)
    requires Unbroken(pty) && !Followed(pty, id)
    ensures Unbroken(pty + Announced(id, text))
  {
    var all := pty + Announced(id, text);
    forall i, j, k, x | 0 <= i < j < k < |all| && Of(all[i], x) && Of(all[k], x) ensures Of(all[j], x) {
      if j < |pty| {
        assert all[i] == pty[i] && all[j] == pty[j];
        if k < |pty| { assert all[k] == pty[k]; } else { assert Of(all[k], id); }
      } else {
        assert Of(all[k], id) && Of(all[j], id);
      }
    }
  }

  lemma AlertUnbrokenIff(pty: seq<Mark>, id: nat, text: seq<Byte>)
    requires text != []
    ensures Unbroken(pty + Announced(id, text)) <==> Unbroken(pty) && !Followed(pty, id)
  {
    if Followed(pty, id) {
      FollowedIsBroken(pty, id, text);
    } else if Unbroken(pty) {
      AtTheEnd(pty, id, text);
    } else if Unbroken(pty + Announced(id, text)) {
      PrefixUnbroken(pty, Announced(id, text));
    }
  }

  // ----- the same, told by the events -----

  /** Step `i` puts bytes of alert `id` on the PTY. */
  predicate WritesOf(events: seq<Event>, i: nat, id: nat) {
    && i < |events| && events[i].Write? && events[i].text != []
    && Run(events[..i]).alert && Run(events[..i]).alerts == id
  }

  predicate RemoteAt(events: seq<Event>, j: nat) {
    j < |events| && events[j].Receive? && events[j].input != []
  }

  ghost predicate Written(events: seq<Event>, id: nat) { exists i: nat :: WritesOf(events, i, id) }

  /** Remote input landed after a write of alert `id`. */
  ghost predicate Interrupted(events: seq<Event>, id: nat) {
    exists i: nat, j: nat :: i < j && WritesOf(events, i, id) && RemoteAt(events, j)
  }

  /** Remote input landed between two writes of one alert. */
  ghost predicate Torn(events: seq<Event>) {
    exists i: nat, j: nat, k: nat, id: nat ::
      i < j < k && WritesOf(events, i, id) && RemoteAt(events, j) && WritesOf(events, k, id)
  }

  lemma EarlierSteps(es: seq<Event>, e: Event, i: nat, id: nat)
    ensures WritesOf(es + [e], i, id) <==>
            WritesOf(es, i, id) ||
            (i == |es| && e.Write? && e.text != [] && Run(es).alert && Run(es).alerts == id)
    ensures RemoteAt(es + [e], i) <==> RemoteAt(es, i) || (i == |es| && e.Receive? && e.input != [])
  {
    var all := es + [e];
    assert i <= |es| ==> all[..i] == es[..i];
    assert es[..|es|] == es;
  }

  lemma WrittenSnoc(es: seq<Event>, e: Event, id: nat)
    ensures Written(es + [e], id) <==>
            Written(es, id) || (e.Write? && e.text != [] && Run(es).alert && Run(es).alerts == id)
  {
    forall i: nat ensures WritesOf(es + [e], i, id) <==>
        WritesOf(es, i, id) || (i == |es| && e.Write? && e.text != [] && Run(es).alert && Run(es).alerts == id)
    {
      EarlierSteps(es, e, i, id);
    }
    assert Run(es).alert && Run(es).alerts == id && e.Write? && e.text != [] ==> WritesOf(es + [e], |es|, id);
  }

  lemma InterruptedSnoc(es: seq<Event>, e: Event, id: nat)
    ensures Interrupted(es + [e], id) <==>
            Interrupted(es, id) || (Written(es, id) && e.Receive? && e.input != [])
  {
    var all := es + [e];
    if Interrupted(all, id) {
      var i: nat, j: nat :| i < j && WritesOf(all, i, id) && RemoteAt(all, j);
      EarlierSteps(es, e, i, id);
      EarlierSteps(es, e, j, id);
    }
    if Interrupted(es, id) {
      var i: nat, j: nat :| i < j && WritesOf(es, i, id) && RemoteAt(es, j);
      EarlierSteps(es, e, i, id);
      EarlierSteps(es, e, j, id);
    } else if Written(es, id) && e.Receive? && e.input != [] {
      var i: nat :| WritesOf(es, i, id);
      EarlierSteps(es, e, i, id);
      EarlierSteps(es, e, |es|, id);
    }
  }

  lemma TornSnoc(es: seq<Event>, e: Event)
    ensures Torn(es + [e]) <==>
            Torn(es) || (e.Write? && e.text != [] && Run(es).alert && Interrupted(es, Run(es).alerts))
  {
    var all := es + [e];
    if Torn(all) {
      var i: nat, j: nat, k: nat, id: nat :|
        i < j < k && WritesOf(all, i, id) && RemoteAt(all, j) && WritesOf(all, k, id);
      EarlierSteps(es, e, i, id);
      EarlierSteps(es, e, j, id);
      EarlierSteps(es, e, k, id);
    }
    if Torn(es) {
      var i: nat, j: nat, k: nat, id: nat :|
        i < j < k && WritesOf(es, i, id) && RemoteAt(es, j) && WritesOf(es, k, id);
      EarlierSteps(es, e, i, id);
      EarlierSteps(es, e, j, id);
      EarlierSteps(es, e, k, id);
    } else if e.Write? && e.text != [] && Run(es).alert && Interrupted(es, Run(es).alerts) {
      var id := Run(es).alerts;
      var i: nat, j: nat :| i < j && WritesOf(es, i, id) && RemoteAt(es, j);
      EarlierSteps(es, e, i, id);
      EarlierSteps(es, e, j, id);
      EarlierSteps(es, e, |es|, id);
    }
  }

  /** What is on the PTY, told by the events: which alerts have bytes there, whether
      the current one has been interrupted, and whether any is broken. */
  ghost predicate Told(es: seq<Event>, s: State) {
    && (forall id: nat :: Has(s.pty, id) <==> Written(es, id))
    && (forall id: nat :: Has(s.pty, id) ==> id <= s.alerts)
    && (s.alert ==> (Followed(s.pty, s.alerts) <==> Interrupted(es, s.alerts)))
    && (Unbroken(s.pty) <==> !Torn(es))
  }

  lemma ToldKeys(es: seq<Event>, e: Event, s: State, t: State, ms: seq<Mark>)
    requires s == Run(es) && Told(es, s) && t == Step(s, e) && NoAlert(ms) && !e.Write?
    requires t.pty == s.pty + ms && t.alerts == s.alerts
    requires t.alert ==> s.alert && (ms != [] <==> e.Receive? && e.input != [])
    ensures Told(es + [e], t)
  {
    forall id: nat ensures (Has(t.pty, id) <==> Written(es + [e], id)) && (Has(t.pty, id) ==> id <= t.alerts) {
      AppendKeys(s.pty, ms, id);
      WrittenSnoc(es, e, id);
    }
    AppendKeys(s.pty, ms, s.alerts);
    InterruptedSnoc(es, e, s.alerts);
    KeysKeepUnbroken(s.pty, ms);
    TornSnoc(es, e);
  }

  lemma ToldBegin(es: seq<Event>, s: State)
    requires s == Run(es) && Told(es, s) && !s.alert
    ensures Told(es + [Begin], Begun(s))
  {
    var id := s.alerts + 1;
    forall x ensures Written(es + [Begin], x) <==> Written(es, x) { WrittenSnoc(es, Begin, x); }
    assert !Has(s.pty, id);
    NothingToFollow(s.pty, id);
    NothingToInterrupt(es, id);
    InterruptedSnoc(es, Begin, id);
    TornSnoc(es, Begin);
  }

  lemma NothingToFollow(pty: seq<Mark>, id: nat)
    requires !Has(pty, id)
    ensures !Followed(pty, id)
  {
  }

  lemma NothingToInterrupt(es: seq<Event>, id: nat)
    requires !Written(es, id)
    ensures !Interrupted(es, id)
  {
  }

  lemma ToldWrite(es: seq<Event>, s: State, text: seq<Byte>)
    requires s == Run(es) && Told(es, s) && s.alert && text != []
    ensures Told(es + [Write(text)], Wrote(s, text))
  {
    var e, t := Write(text), Wrote(s, text);
    forall id: nat ensures (Has(t.pty, id) <==> Written(es + [e], id)) && (Has(t.pty, id) ==> id <= t.alerts) {
      AppendAlert(s.pty, s.alerts, text, id);
      WrittenSnoc(es, e, id);
    }
    AppendAlert(s.pty, s.alerts, text, s.alerts);
    InterruptedSnoc(es, e, s.alerts);
    AlertUnbrokenIff(s.pty, s.alerts, text);
    TornSnoc(es, e);
  }

  /** A step that leaves the state alone, a write of nothing included. */
  lemma ToldIdle(es: seq<Event>, e: Event, s: State)
    requires s == Run(es) && Told(es, s) && Step(s, e) == s
    requires !e.Receive? && (e.Write? ==> e.text == [] || !s.alert)
    ensures Told(es + [e], s)
  {
    forall id: nat ensures Written(es + [e], id) <==> Written(es, id) { WrittenSnoc(es, e, id); }
    InterruptedSnoc(es, e, s.alerts);
    TornSnoc(es, e);
  }

  lemma ToldStep(es: seq<Event>, e: Event)
    requires Told(es, Run(es))
    ensures Told(es + [e], Step(Run(es), e))
  {
    var s := Run(es);
    assert s.pty + [] == s.pty;
    match e
    case Forward(input) => ToldKeys(es, e, s, Step(s, e), if s.alert then [] else Typed(input));
    case Receive(input) => ToldKeys(es, e, s, Step(s, e), Sent(input));
    case Begin => if s.alert { ToldIdle(es, e, s); } else { ToldBegin(es, s); }
    case Write(text) =>
      if s.alert && text != [] {
        ToldWrite(es, s, text);
      } else {
        assert s.pty + Announced(s.alerts, []) == s.pty;
        ToldIdle(es, e, s);
      }
    case End => if s.alert { ToldKeys(es, e, s, Step(s, e), Typed(s.buffer)); } else { ToldIdle(es, e, s); }
  }

  lemma {:induction false} AlwaysTold(events: seq<Event>)
    ensures Told(events, Run(events))
  {
    if events != [] {
      var n := |events| - 1;
      AlwaysTold(events[..n]);
      ToldStep(events[..n], events[n]);
      assert events == events[..n] + [events[n]];
    }
  }

  /** In every interleaving, the bytes of each alert are in one piece exactly unless
      remote input landed between two writes of one alert. Local keystrokes never
      break one. */
  lemma AlertsUnbrokenIff(events: seq<Event>)
    ensures Unbroken(Run(events).pty) <==> !Torn(events)
  {
    AlwaysTold(events);
  }

  /** So a harness that takes message and submit key in one write is always safe. */
  lemma OneWriteIsSafe(events: seq<Event>)
    requires forall i: nat, k: nat, id :: WritesOf(events, i, id) && WritesOf(events, k, id) ==> i == k
    ensures Unbroken(Run(events).pty)
  {
    AlertsUnbrokenIff(events);
  }

  /** And one that takes them apart is not: remote input in the pause between. */
  lemma PauseCanTear(message: seq<Byte>, typed: seq<Byte>, submit: seq<Byte>)
    requires message != [] && typed != [] && submit != []
    ensures !Unbroken(Run([Begin, Write(message), Receive(typed), Write(submit), End]).pty)
  {
    var events := [Begin, Write(message), Receive(typed), Write(submit), End];
    assert events[..0] == [];
    assert events[..1] == [Begin] && [Begin][..0] == [];
    var two := [Begin, Write(message)];
    assert events[..2] == two && two[..1] == [Begin];
    var three := [Begin, Write(message), Receive(typed)];
    assert events[..3] == three && three[..2] == two;
    assert WritesOf(events, 1, 1) && RemoteAt(events, 2) && WritesOf(events, 3, 1);
    AlertsUnbrokenIff(events);
  }

  // ----- what the other writers put on the PTY -----

  /** The bytes of alert `id`, in order. */
  function AlertBytes(pty: seq<Mark>, id: nat): seq<Byte> {
    if pty == [] then [] else
      var m := pty[|pty| - 1];
      AlertBytes(pty[..|pty| - 1], id) + if m.Alert? && m.id == id then [m.b] else []
  }

  /** The bytes remote senders wrote, in order. */
  function RemoteBytes(pty: seq<Mark>): seq<Byte> {
    if pty == [] then [] else
      var m := pty[|pty| - 1];
      RemoteBytes(pty[..|pty| - 1]) + if m.Remote? then [m.b] else []
  }

  lemma {:induction false} OthersBytes(pty: seq<Mark>, ms: seq<Mark>, id: nat)
    ensures NoAlert(ms) ==> AlertBytes(pty + ms, id) == AlertBytes(pty, id)
    ensures (forall i :: 0 <= i < |ms| ==> !ms[i].Remote?) ==> RemoteBytes(pty + ms) == RemoteBytes(pty)
  {
    var all := pty + ms;
    if ms == [] {
      assert all == pty;
    } else {
      assert all[..|all| - 1] == pty + ms[..|ms| - 1];
      OthersBytes(pty, ms[..|ms| - 1], id);
    }
  }

  lemma {:induction false} AnnouncedBytes(pty: seq<Mark>, k: nat, text: seq<Byte>, id: nat)
    ensures AlertBytes(pty + Announced(k, text), id) == AlertBytes(pty, id) + if id == k then text else []
  {
    var all := pty + Announced(k, text);
    if text == [] {
      assert all == pty;
    } else {
      var n := |text| - 1;
      assert all[..|all| - 1] == pty + Announced(k, text[..n]);
      AnnouncedBytes(pty, k, text[..n], id);
      assert text == text[..n] + [text[n]];
    }
  }

  lemma {:induction false} SentBytes(pty: seq<Mark>, input: seq<Byte>)
    ensures RemoteBytes(pty + Sent(input)) == RemoteBytes(pty) + input
  {
    var all := pty + Sent(input);
    if input == [] {
      assert all == pty;
    } else {
      var n := |input| - 1;
      assert all[..|all| - 1] == pty + Sent(input[..n]);
      SentBytes(pty, input[..n]);
      assert input == input[..n] + [input[n]];
    }
  }

  /** Entering alert mode writes nothing; a write adds its text to the current alert and
      to nothing else; leaving adds none; and remote input is added as it is. */
  lemma WritersSpelledOut(s: State, text: seq<Byte>, id: nat)
    ensures Begun(s).pty == s.pty && Begun(s).alerts == s.alerts + 1
    ensures AlertBytes(Wrote(s, text).pty, id) == AlertBytes(s.pty, id) + if id == s.alerts then text else []
    ensures AlertBytes(Ended(s).pty, id) == AlertBytes(s.pty, id)
    ensures AlertBytes(s.pty + Sent(text), id) == AlertBytes(s.pty, id)
    ensures RemoteBytes(s.pty + Sent(text)) == RemoteBytes(s.pty) + text
    ensures RemoteBytes(Wrote(s, text).pty) == RemoteBytes(Ended(s).pty) == RemoteBytes(s.pty)
  {
    AnnouncedBytes(s.pty, s.alerts, text, id);
    OthersBytes(s.pty, Typed(s.buffer), id);
    OthersBytes(s.pty, Sent(text), id);
    SentBytes(s.pty, text);
    OthersBytes(s.pty, Announced(s.alerts, text), id);
  }

  /** Everything written for alert `id` in the run: the writes between the id-th
      beginning and its end. */
  function TextOf(events: seq<Event>, id: nat): seq<Byte> {
    if events == [] then [] else
      var n := |events| - 1;
      var s, e := Run(events[..n]), events[n];
      TextOf(events[..n], id) + if e.Write? && s.alert && s.alerts == id then e.text else []
  }

  function Received(events: seq<Event>): seq<Byte> {
    if events == [] then [] else
      var e := events[|events| - 1];
      Received(events[..|events| - 1]) + if e.Receive? then e.input else []
  }

  lemma StepOthers(s: State, e: Event, id: nat)
    ensures AlertBytes(Step(s, e).pty, id) ==
            AlertBytes(s.pty, id) + if e.Write? && s.alert && s.alerts == id then e.text else []
    ensures RemoteBytes(Step(s, e).pty) == RemoteBytes(s.pty) + if e.Receive? then e.input else []
  {
    match e
    case Forward(input) => if !s.alert { OthersBytes(s.pty, Typed(input), id); }
    case Receive(input) => WritersSpelledOut(s, input, id);
    case Begin =>
    case Write(text) => if s.alert { WritersSpelledOut(s, text, id); }
    case End => if s.alert { WritersSpelledOut(s, [], id); }
  }

  /** In every interleaving each alert comes out as it was written, and so does remote
      input: the PTY holds the three kinds of bytes and nothing else. */
  lemma {:induction false} OthersConserved(events: seq<Event>, id: nat)
    ensures AlertBytes(Run(events).pty, id) == TextOf(events, id)
    ensures RemoteBytes(Run(events).pty) == Received(events)
  {
    if events != [] {
      var n := |events| - 1;
      OthersConserved(events[..n], id);
      StepOthers(Run(events[..n]), events[n], id);
    }
  }
}
