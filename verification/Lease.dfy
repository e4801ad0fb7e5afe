/** The advisory write-lease on a shared terminal (internal/cli/terminal.go):
    time-bounded mutual exclusion over a channel that redelivers. */
module Lease {
  import opened Common
  import opened Ints

  const DEFAULT_TTL: Time := 60 * SECOND
  const STALE_GRACE: Time := 3 * SECOND

  datatype State = State(holder: string, expires: Time)

  const FREE := State("", 0)

  /** The effective holder at `now`; empty when free or expired. */
  function HolderAt(s: State, now: Time): string {
    if s.holder == "" || !(now < s.expires) then "" else s.holder
  }

  /** `created` is None when the stamp is absent or unparseable. */
  datatype Message =
    | Acquire(sender: string, ttlMs: int, created: Option<Time>)
    | Release(sender: string)
    | Other(sender: string)

  /** The requested window, as a 64-bit duration; nonpositive falls back to the default. */
  function Ttl(ttlMs: int): (ttl: Time)
    ensures 0 < ttl <= MAX64 && ttl % 2 == 0
  {
    EvenMillis(ttlMs);
    var ttl := Wrap64(ttlMs * 1_000_000);
    if ttl <= 0 then DEFAULT_TTL else ttl
  }

  lemma EvenMillis(ttlMs: int)
    ensures ttlMs * 1_000_000 % 2 == 0
  {
    var half := ttlMs * 500_000;
    assert ttlMs * 1_000_000 == 2 * half;
    TwiceIsEven(half);
  }

  lemma TwiceIsEven(half: int)
    ensures (2 * half) % 2 == 0
  {
  }

  /** The difference of two instants saturates instead of overflowing. */
  function Sub(a: Time, b: Time): (d: Time)
    ensures Int64(d)
  {
    if a - b > MAX64 then MAX64 else if a - b < MIN64 then MIN64 else a - b
  }

  predicate Stale(now: Time, created: Option<Time>, ttl: Time) {
    created.Some? && Sub(now, created.value) > Wrap64(ttl + STALE_GRACE)
  }

  function Handle(s: State, now: Time, m: Message): State {
    match m
    case Acquire(sender, ttlMs, created) =>
      if Stale(now, created, Ttl(ttlMs)) then s
      else if HolderAt(s, now) == "" || HolderAt(s, now) == sender then State(sender, now + Ttl(ttlMs))
      else s
    case Release(sender) => if HolderAt(s, now) == sender then FREE else s
    case Other(_) => s
  }

  function Expired(s: State, now: Time): State {
    if s.holder != "" && !(now < s.expires) then FREE else s
  }

  /** What the host announces; `until` is meaningful only for a held lease. */
  datatype Announcement = Silence | LeaseState(holder: string, until: Time)

  class Arbiter {
    var holder: string
    var expires: Time

    constructor ()
      ensures Current() == FREE
    {
      holder, expires := "", 0;
    }

    function Current(): State
      reads this
    {
      State(holder, expires)
    }

    method EffectiveHolder(now: Time) returns (h: string)
      ensures h == HolderAt(Current(), now)
    {
      if holder == "" || !(now < expires) {
        return "";
      }
      h := holder;
    }

    method ExpireIfDue(now: Time) returns (cleared: bool)
      modifies this
      ensures Current() == Expired(old(Current()), now)
      ensures cleared <==> old(holder) != "" && !(now < old(expires))
    {
      if holder != "" && !(now < expires) {
        holder, expires := "", 0;
        return true;
      }
      cleared := false;
    }

    /** Apply one request. A requester always learns the effective outcome, except
        that stale acquires and releases by non-holders are ignored. */
    method HandleMessage(now: Time, m: Message) returns (said: Announcement)
      modifies this
      ensures Current() == Handle(old(Current()), now, m)
      ensures m.Acquire? && !Stale(now, m.created, Ttl(m.ttlMs)) ==>
                said == LeaseState(Current().holder, Current().expires)
      ensures said.LeaseState? && m.Release? ==> said.holder == "" && HolderAt(Current(), now) == ""
      ensures Current() != old(Current()) ==> said.LeaseState?
    {
      said := Silence;
      match m
      case Acquire(sender, ttlMs, created) =>
        var ttl := Ttl(ttlMs);
        if created.Some? && Sub(now, created.value) > Wrap64(ttl + STALE_GRACE) {
          return;
        }
        var cur := EffectiveHolder(now);
        if cur == "" || cur == sender {
          holder, expires := sender, now + ttl;
          said := LeaseState(sender, expires);
        } else {
          said := LeaseState(cur, expires);
        }
      case Release(sender) =>
        var cur := EffectiveHolder(now);
        if cur == sender {
          holder, expires := "", 0;
          said := LeaseState("", 0);
        }
      case Other(_) =>
    }
  }

  // ----- runs -----

  /** A delivery (first or repeated) or the expiry timer firing. */
  datatype Event = Deliver(now: Time, msg: Message) | Timer(now: Time)

  function Step(s: State, e: Event): State {
    match e
    case Deliver(now, m) => Handle(s, now, m)
    case Timer(now) => Expired(s, now)
  }

  function Run(s: State, events: seq<Event>): State {
    if events == [] then s else Step(Run(s, events[..|events| - 1]), events[|events| - 1])
  }

  /** `a` gave the lease up in step `k`, or the clock had reached its expiry by then. */
  predicate Yielded(s: State, events: seq<Event>, k: nat, a: string)
    requires k < |events|
  {
    var before := Run(s, events[..k]);
    && before.holder == a
    && (before.expires <= events[k].now || (events[k].Deliver? && events[k].msg == Release(a)))
  }

  /** While nobody yields, the lease stays with its holder. */
  lemma {:induction false} HeldUntilYielded(s: State, events: seq<Event>, a: string)
    requires a != "" && s.holder == a
    requires forall k :: 0 <= k < |events| ==> !Yielded(s, events, k, a)
    ensures Run(s, events).holder == a
  {
    if events != [] {
      var n := |events| - 1;
      var init := events[..n];
      forall k | 0 <= k < n ensures !Yielded(s, init, k, a) {
        assert init[..k] == events[..k];
        assert !Yielded(s, events, k, a);
      }
      HeldUntilYielded(s, init, a);
      assert !Yielded(s, events, n, a);
    }
  }

  /** Mutual exclusion over every run from every state: the effective holder passes
      from `a` to a different `b` only after `a` released or its expiry passed. */
  lemma HandOverNeedsYield(s: State, events: seq<Event>, t: Time, u: Time, a: string, b: string)
    requires a != "" && b != "" && a != b
    requires HolderAt(s, t) == a && HolderAt(Run(s, events), u) == b
    ensures exists k :: 0 <= k < |events| && Yielded(s, events, k, a)
  {
    if forall k :: 0 <= k < |events| ==> !Yielded(s, events, k, a) {
      HeldUntilYielded(s, events, a);
      assert false;
    }
  }

  /** An unexpired lease is inert to everyone but its holder: denials and
      non-holder releases change nothing. */
  lemma OthersInert(s: State, now: Time, m: Message)
    requires HolderAt(s, now) != "" && m.sender != HolderAt(s, now)
    ensures Handle(s, now, m) == s
  {
  }

  /** Clearing an expired lease is invisible from then on. */
  lemma ExpiryInvisible(s: State, now: Time, later: Time)
    requires now <= later
    ensures HolderAt(Expired(s, now), later) == HolderAt(s, later)
  {
  }

  /** An acquire that survives the stale guard is at most one window plus the
      grace old, whatever 64-bit durations do. */
  lemma FreshAge(now: Time, created: Time, ttl: Time)
    requires 0 < ttl <= MAX64 && ttl % 2 == 0 && !Stale(now, Some(created), ttl)
    ensures now <= created + ttl + STALE_GRACE
  {
    var limit := ttl + STALE_GRACE;
    assert limit % 2 == 0;
    assert limit != MAX64;
    if limit > MAX64 {
      assert Wrap64(limit) == limit + 2 * MIN64;
    }
  }

  /** Conversely, within that age an acquire is processed, for every window short of
      the 64-bit limit: a free lease goes to a live request. */
  lemma LiveAcquireGranted(s: State, now: Time, a: string, ttlMs: int, created: Time)
    requires a != "" && (HolderAt(s, now) == "" || HolderAt(s, now) == a)
    requires Ttl(ttlMs) + STALE_GRACE <= MAX64
    ensures Handle(s, now, Acquire(a, ttlMs, Some(created))) ==
            if now <= created + Ttl(ttlMs) + STALE_GRACE then State(a, now + Ttl(ttlMs)) else s
  {
    if now <= created + Ttl(ttlMs) + STALE_GRACE {
      assert Sub(now, created) <= Ttl(ttlMs) + STALE_GRACE;
    } else if !Stale(now, Some(created), Ttl(ttlMs)) {
      FreshAge(now, created, Ttl(ttlMs));
      assert false;
    }
  }

  /** Whether every young acquire by a sender free to have the lease is granted is a
      matter of its window alone: with a grace that overflows 64 bits, the stale limit
      is negative and a request sent this instant is dropped. */
  lemma YoungAcquireGrantedIff(s: State, now: Time, a: string, ttlMs: int, created: Time)
    requires a != "" && (HolderAt(s, now) == "" || HolderAt(s, now) == a)
    requires created <= now <= created + Ttl(ttlMs) + STALE_GRACE && Int64(now - created)
    requires s != State(a, now + Ttl(ttlMs))
    ensures Handle(s, now, Acquire(a, ttlMs, Some(created))) == State(a, now + Ttl(ttlMs)) <==>
            Ttl(ttlMs) + STALE_GRACE <= MAX64
  {
    if Ttl(ttlMs) + STALE_GRACE <= MAX64 {
      LiveAcquireGranted(s, now, a, ttlMs, created);
    } else {
      assert Wrap64(Ttl(ttlMs) + STALE_GRACE) < 0;
    }
  }

  /** A witness: the widest window a whole number of milliseconds can name. */
  lemma WidestWindowDropped(a: string, now: Time)
    requires a != ""
    ensures Handle(FREE, now, Acquire(a, 9_223_372_036_854, Some(now))) == FREE
  {
    YoungAcquireGrantedIff(FREE, now, a, 9_223_372_036_854, now);
  }

  /** A holder's release, or its lapse, lets anybody in at once. */
  lemma YieldLetsOthersIn(s: State, now: Time, b: string, ttlMs: int)
    requires b != ""
    ensures var a := HolderAt(s, now);
            HolderAt(Handle(Handle(s, now, Release(a)), now, Acquire(b, ttlMs, None)), now) == b
    ensures s.expires <= now ==>
              Expired(s, now).holder == "" && HolderAt(Handle(s, now, Acquire(b, ttlMs, None)), now) == b
  {
  }

  /** Every acquire `a` ever sent would, at its latest, lapse by `limit`. */
  predicate LapseBy(events: seq<Event>, a: string, limit: Time) {
    forall i :: 0 <= i < |events| && events[i].Deliver? && events[i].msg.Acquire? && events[i].msg.sender == a ==>
      var m := events[i].msg;
      m.created.Some? && m.created.value + 2 * Ttl(m.ttlMs) + STALE_GRACE <= limit
  }

  /** No phantom leases: however often acquires are redelivered, and whatever else
      happens, a stamped acquire cannot keep its sender in possession past
      created + 2 ttl + grace. */
  lemma {:induction false} NoPhantomLease(events: seq<Event>, a: string, limit: Time, now: Time)
    requires a != "" && LapseBy(events, a, limit)
    ensures Run(FREE, events).holder == a ==> Run(FREE, events).expires <= limit
    ensures HolderAt(Run(FREE, events), now) == a ==> now < limit
  {
    if events != [] {
      var n := |events| - 1;
      NoPhantomLease(events[..n], a, limit, now);
      var e := events[n];
      if e.Deliver? && e.msg.Acquire? && e.msg.sender == a {
        var m := e.msg;
        if !Stale(e.now, m.created, Ttl(m.ttlMs)) {
          FreshAge(e.now, m.created.value, Ttl(m.ttlMs));
        }
      }
    }
  }

  /** The bound needs the stamp: an unstamped acquire re-grants at any later time. */
  lemma UnstampedAlwaysGrants(a: string, ttlMs: int, now: Time)
    requires a != ""
    ensures HolderAt(Run(FREE, [Deliver(now, Acquire(a, ttlMs, None))]), now) == a
  {
    var events := [Deliver(now, Acquire(a, ttlMs, None))];
    assert events[..0] == [];
  }

  // ----- windows in milliseconds -----

  /** The widest request whose window and grace fit in 64 bits. */
  const WIDEST_MS := 9_223_372_033_854

  /** The window a request of `ttlMs` milliseconds asks for; one minute when it asks for
      none. */
  lemma WindowSpelledOut(ttlMs: int)
    requires -WIDEST_MS <= ttlMs <= WIDEST_MS
    ensures Ttl(ttlMs) == if ttlMs > 0 then ttlMs * 1_000_000 else 60_000_000_000
    ensures Ttl(ttlMs) + 3_000_000_000 <= 0x7FFF_FFFF_FFFF_FFFF
  {
    assert Int64(ttlMs * 1_000_000);
  }

  /** On a lease that is free, lapsed or its own, a request stamped at most its window
      and three seconds ago gets the lease from now for exactly that window. */
  lemma GrantLasts(s: State, now: Time, a: string, ttlMs: int, created: Time)
    requires a != "" && (s.holder in {"", a} || s.expires <= now)
    requires -WIDEST_MS <= ttlMs <= WIDEST_MS
    requires var window := if ttlMs > 0 then ttlMs * 1_000_000 else 60_000_000_000;
             now - window - 3_000_000_000 <= created <= now
    ensures var window := if ttlMs > 0 then ttlMs * 1_000_000 else 60_000_000_000;
            var t := Handle(s, now, Acquire(a, ttlMs, Some(created)));
            && t == State(a, now + window)
            && (forall u :: u < now + window ==> HolderAt(t, u) == a)
            && (forall u :: u >= now + window ==> HolderAt(t, u) == "")
  {
    WindowSpelledOut(ttlMs);
    LiveAcquireGranted(s, now, a, ttlMs, created);
  }

  /** An older request is dropped. */
  lemma StaleRequestDropped(s: State, now: Time, a: string, ttlMs: int, created: Time)
    requires -WIDEST_MS <= ttlMs <= WIDEST_MS
    requires created < now - (if ttlMs > 0 then ttlMs * 1_000_000 else 60_000_000_000) - 3_000_000_000
    ensures Handle(s, now, Acquire(a, ttlMs, Some(created))) == s
  {
    WindowSpelledOut(ttlMs);
    if !Stale(now, Some(created), Ttl(ttlMs)) {
      FreshAge(now, created, Ttl(ttlMs));
    }
  }

  /** Every acquire `a` ever sent is stamped, and stamp, two windows and three seconds
      lie before `limit`. */
  predicate RequestsLapseBy(events: seq<Event>, a: string, limit: Time) {
    forall i :: 0 <= i < |events| && events[i].Deliver? && events[i].msg.Acquire? && events[i].msg.sender == a ==>
      var m := events[i].msg;
      && -WIDEST_MS <= m.ttlMs <= WIDEST_MS && m.created.Some?
      && m.created.value + (if m.ttlMs > 0 then 2_000_000 * m.ttlMs else 120_000_000_000) + 3_000_000_000 <= limit
  }

  /** No phantom leases, in the requests' own milliseconds. */
  lemma NoPhantomLeaseInMillis(events: seq<Event>, a: string, limit: Time, now: Time)
    requires a != "" && RequestsLapseBy(events, a, limit)
    ensures HolderAt(Run(FREE, events), now) == a ==> now < limit
  {
    forall i | 0 <= i < |events| && events[i].Deliver? && events[i].msg.Acquire? && events[i].msg.sender == a
      ensures var m := events[i].msg;
              m.created.Some? && m.created.value + 2 * Ttl(m.ttlMs) + STALE_GRACE <= limit
    {
      WindowSpelledOut(events[i].msg.ttlMs);
    }
    NoPhantomLease(events, a, limit, now);
  }

  /** While someone else's lease is live, an acquire changes nothing; and a release by
      anyone but the live holder neither. */
  lemma LiveLeaseStands(s: State, now: Time, a: string, ttlMs: int, created: Option<Time>)
    requires s.holder != "" && now < s.expires && a != s.holder
    ensures Handle(s, now, Acquire(a, ttlMs, created)) == s && Handle(s, now, Release(a)) == s
    ensures Handle(s, now, Release(s.holder)).holder == ""
  {
  }
}
