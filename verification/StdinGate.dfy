/** Remote keystrokes entering a shared terminal (internal/cli/terminal.go):
    the seen-ID ring and the lease gate in front of the PTY. */
module StdinGate {

  /** The last `cap` elements of a list. */
  function LastN<T>(s: seq<T>, cap: nat): (r: seq<T>) {
    if |s| <= cap then s else s[|s| - cap..]
  }

  /** The specification: a list of insertions, of which the last `cap` are
      remembered - and an empty ID, once inserted, forever. */
  predicate Seen(log: seq<string>, cap: nat, id: string) {
    id in LastN(log, cap) || (id == "" && "" in log)
  }

  function Inserted(log: seq<string>, cap: nat, id: string): seq<string> {
    if Seen(log, cap, id) then log else log + [id]
  }

  predicate Distinct(s: seq<string>) {
    forall i, j :: 0 <= i < j < |s| ==> s[i] != s[j]
  }

  /** The circular buffer holds exactly the remembered insertions: a prefix while
      filling up, then a rotation with the oldest at `idx`. */
  predicate RingHolds(ring: seq<string>, idx: nat, log: seq<string>, cap: nat) {
    && cap > 0 && |ring| == cap && idx < cap && Distinct(LastN(log, cap))
    && if |log| < cap then
         idx == |log| && ring[..idx] == log && forall i :: idx <= i < cap ==> ring[i] == ""
       else
         ring[idx..] + ring[..idx] == LastN(log, cap)
  }

  ghost predicate SetAgrees(ids: set<string>, log: seq<string>, cap: nat) {
    forall id :: id in ids <==> Seen(log, cap, id)
  }

  class SeenIdRing {
    const order: array<string>
    const cap: nat
    var idx: nat
    var ids: set<string>
    ghost var log: seq<string>

    ghost predicate Valid()
      reads this, order
    {
      RingHolds(order[..], idx, log, cap) && SetAgrees(ids, log, cap)
    }

    constructor (capacity: nat)
      requires capacity > 0
      ensures Valid() && log == [] && cap == capacity && fresh(order)
    {
      order := new string[capacity](i => "");
      cap := capacity;
      idx, ids, log := 0, {}, [];
    }

    method Has(id: string) returns (ok: bool)
      requires Valid()
      ensures ok <==> Seen(log, cap, id)
    {
      ok := id in ids;
    }

    method Add(id: string)
      requires Valid()
      modifies this`idx, this`ids, this`log, order
      ensures Valid()
      ensures log == Inserted(old(log), cap, id)
    {
      if id in ids {
        return;
      }
      ghost var ring, more := order[..], log + [id];
      AddStep(ring, idx, ids, log, cap, id);
      NextSlot(idx, cap);
      var evicted, next := order[idx], (idx + 1) % cap;
      order[idx] := id;
      assert order[..] == ring[idx := id];
      ids := (if evicted != "" then ids - {evicted} else ids) + {id};
      idx := next;
      log := more;
    }
  }

  /** Remembering one more forgets at most the oldest. */
  lemma WindowShift(log: seq<string>, cap: nat, id: string)
    requires cap > 0
    ensures LastN(log + [id], cap) ==
            (if |log| < cap then LastN(log, cap) else LastN(log, cap)[1..]) + [id]
    ensures Distinct(LastN(log, cap)) && id !in LastN(log, cap) ==> Distinct(LastN(log + [id], cap))
  {
  }

  /** Overwriting the slot at `idx` and advancing is that shift, and the slot held
      the oldest remembered ID (or nothing yet). */
  lemma RingShift(ring: seq<string>, idx: nat, log: seq<string>, cap: nat, id: string)
    requires RingHolds(ring, idx, log, cap) && !Seen(log, cap, id)
    ensures RingHolds(ring[idx := id], Following(idx, cap), log + [id], cap)
    ensures ring[idx] == if |log| < cap then "" else LastN(log, cap)[0]
  {
    WindowShift(log, cap, id);
    if |log| < cap {
      FillSlot(ring, idx, log, cap, id);
    } else {
      FullShift(ring, idx, log, cap, id);
    }
  }

  /** The slot after `idx`, around the ring. */
  function Following(idx: nat, cap: nat): nat { if idx + 1 < cap then idx + 1 else 0 }

  lemma NextSlot(idx: nat, cap: nat)
    requires idx < cap
    ensures (idx + 1) % cap == Following(idx, cap)
  {
  }

  lemma FullShift(ring: seq<string>, idx: nat, log: seq<string>, cap: nat, id: string)
    requires RingHolds(ring, idx, log, cap) && |log| >= cap && !Seen(log, cap, id)
    ensures RingHolds(ring[idx := id], Following(idx, cap), log + [id], cap)
    ensures ring[idx] == LastN(log, cap)[0]
  {
    WindowShift(log, cap, id);
    Rotate(ring, idx, id);
    assert (ring[idx..] + ring[..idx])[0] == ring[idx];
  }

  lemma FillSlot(ring: seq<string>, idx: nat, log: seq<string>, cap: nat, id: string)
    requires RingHolds(ring, idx, log, cap) && |log| < cap
    ensures ring[idx := id][..idx + 1] == log + [id]
    ensures idx + 1 == cap ==> ring[idx := id][0..] + ring[idx := id][..0] == LastN(log + [id], cap)
  {
  }

  /** In a full ring, seen from its oldest slot. */
  lemma Rotate(ring: seq<string>, idx: nat, id: string)
    requires idx < |ring|
    ensures var next := if idx + 1 < |ring| then idx + 1 else 0;
            var now := ring[idx := id];
            now[next..] + now[..next] == (ring[idx..] + ring[..idx])[1..] + [id]
  {
    var now := ring[idx := id];
    assert (ring[idx..] + ring[..idx])[1..] == ring[idx + 1..] + ring[..idx];
    if idx + 1 < |ring| {
      assert now[..idx + 1] == ring[..idx] + [id] && now[idx + 1..] == ring[idx + 1..];
    } else {
      assert now == ring[..idx] + [id] && ring[idx + 1..] == [];
    }
  }

  /** The set update, in terms of the list. */
  lemma SetShift(ids: set<string>, log: seq<string>, cap: nat, id: string, evicted: string)
    requires cap > 0 && Distinct(LastN(log, cap)) && SetAgrees(ids, log, cap) && !Seen(log, cap, id)
    requires evicted == if |log| < cap then "" else LastN(log, cap)[0]
    ensures SetAgrees((if evicted != "" then ids - {evicted} else ids) + {id}, log + [id], cap)
  {
    forall x ensures Seen(log + [id], cap, x) <==> x == id || (Seen(log, cap, x) && (evicted == "" || x != evicted)) {
      SeenShift(log, cap, id, evicted, x);
    }
  }

  /** One insertion, as a whole. */
  lemma AddStep(ring: seq<string>, idx: nat, ids: set<string>, log: seq<string>, cap: nat, id: string)
    requires RingHolds(ring, idx, log, cap) && SetAgrees(ids, log, cap) && id !in ids
    ensures RingHolds(ring[idx := id], Following(idx, cap), log + [id], cap)
    ensures SetAgrees((if ring[idx] != "" then ids - {ring[idx]} else ids) + {id}, log + [id], cap)
    ensures Inserted(log, cap, id) == log + [id]
  {
    RingShift(ring, idx, log, cap, id);
    SetShift(ids, log, cap, id, ring[idx]);
  }

  lemma SeenShift(log: seq<string>, cap: nat, id: string, evicted: string, x: string)
    requires cap > 0 && Distinct(LastN(log, cap)) && !Seen(log, cap, id)
    requires evicted == if |log| < cap then "" else LastN(log, cap)[0]
    ensures Seen(log + [id], cap, x) <==> x == id || (Seen(log, cap, x) && (evicted == "" || x != evicted))
  {
    WindowShift(log, cap, id);
    var w := LastN(log, cap);
    assert "" in log + [id] <==> "" in log || id == "";
    assert forall y :: y in w ==> y in log;
    if |log| >= cap {
      assert w == [w[0]] + w[1..];
      assert w[0] !in w[1..];
    }
  }

  // ----- the delivery loop -----

  /** One delivery and the lease holder effective at that moment. */
  datatype Delivery = Delivery(id: string, sender: string, payload: string, holder: string)

  datatype Fate = Skipped | Dropped | Written

  function FateOf(log: seq<string>, cap: nat, d: Delivery): Fate {
    if Seen(log, cap, d.id) then Skipped
    else if d.holder != "" && d.sender != d.holder then Dropped
    else Written
  }

  /** The forwarding loop over everything one connection after another delivers. */
  method ForwardStdin(ring: SeenIdRing, deliveries: seq<Delivery>) returns (pty: string)
    requires ring.Valid()
    modifies ring, ring.order
    ensures ring.Valid() && ring.log == Log(old(ring.log), ring.cap, deliveries)
    ensures pty == Output(old(ring.log), ring.cap, deliveries)
  {
    pty := "";
    for k := 0 to |deliveries|
      invariant ring.Valid()
      invariant ring.log == Log(old(ring.log), ring.cap, deliveries[..k])
      invariant pty == Output(old(ring.log), ring.cap, deliveries[..k])
    {
      PrefixStep(old(ring.log), ring.cap, deliveries, k);
      var text := ForwardOne(ring, deliveries[k]);
      pty := pty + text;
    }
    assert deliveries[..|deliveries|] == deliveries;
  }

  method ForwardOne(ring: SeenIdRing, d: Delivery) returns (text: string)
    requires ring.Valid()
    modifies ring, ring.order
    ensures ring.Valid() && ring.log == Inserted(old(ring.log), ring.cap, d.id)
    ensures text == if FateOf(old(ring.log), ring.cap, d) == Written then d.payload else ""
  {
    text := "";
    var known := ring.Has(d.id);
    if known {
      return;
    }
    if !(d.holder != "" && d.sender != d.holder) {
      text := d.payload;
    }
    ring.Add(d.id);
  }

  /** The insertions after a list of deliveries. */
  function Log(start: seq<string>, cap: nat, ds: seq<Delivery>): seq<string> {
    if ds == [] then start else
      Inserted(Log(start, cap, ds[..|ds| - 1]), cap, ds[|ds| - 1].id)
  }

  function Output(start: seq<string>, cap: nat, ds: seq<Delivery>): string {
    if ds == [] then "" else
      var n := |ds| - 1;
      Output(start, cap, ds[..n]) +
      if FateOf(Log(start, cap, ds[..n]), cap, ds[n]) == Written then ds[n].payload else ""
  }

  function FateAt(start: seq<string>, cap: nat, ds: seq<Delivery>, k: nat): Fate
    requires k < |ds|
  {
    FateOf(Log(start, cap, ds[..k]), cap, ds[k])
  }

  lemma PrefixStep(start: seq<string>, cap: nat, ds: seq<Delivery>, k: nat)
    requires k < |ds|
    ensures Log(start, cap, ds[..k + 1]) == Inserted(Log(start, cap, ds[..k]), cap, ds[k].id)
    ensures Output(start, cap, ds[..k + 1]) ==
            Output(start, cap, ds[..k]) + if FateAt(start, cap, ds, k) == Written then ds[k].payload else ""
  {
    assert ds[..k + 1][..k] == ds[..k];
  }

  lemma LogGrows(start: seq<string>, cap: nat, ds: seq<Delivery>, i: nat, j: nat)
    requires i <= j <= |ds|
    ensures Log(start, cap, ds[..i]) <= Log(start, cap, ds[..j])
  {
    var logs := seq(|ds| + 1, k requires 0 <= k <= |ds| => Log(start, cap, ds[..k]));
    forall k | 0 <= k < |ds| ensures logs[k] <= logs[k + 1] {
      LogStepGrows(start, cap, ds, k);
    }
    ChainGrows(logs, i, j);
  }

  lemma LogStepGrows(start: seq<string>, cap: nat, ds: seq<Delivery>, k: nat)
    requires k < |ds|
    ensures Log(start, cap, ds[..k]) <= Log(start, cap, ds[..k + 1])
  {
    PrefixStep(start, cap, ds, k);
    PrefixInserted(Log(start, cap, ds[..k]), Log(start, cap, ds[..k]), cap, ds[k].id);
  }

  lemma {:induction false} ChainGrows(logs: seq<seq<string>>, i: nat, j: nat)
    requires i <= j < |logs|
    requires forall k :: 0 <= k < |logs| - 1 ==> logs[k] <= logs[k + 1]
    ensures logs[i] <= logs[j]
    decreases j
  {
    if i < j {
      ChainGrows(logs, i, j - 1);
      assert logs[j - 1] <= logs[j - 1 + 1];
    }
  }

  lemma PrefixInserted(early: seq<string>, log: seq<string>, cap: nat, id: string)
    requires early <= log
    ensures early <= Inserted(log, cap, id)
  {
  }

  /** Exactly-once within the window: after a message was let through or dropped, a
      redelivery is skipped until at least `cap` other new IDs have been inserted. */
  lemma RedeliverySkipped(start: seq<string>, cap: nat, ds: seq<Delivery>, i: nat, j: nat)
    requires cap > 0 && i < j < |ds| && ds[i].id == ds[j].id
    requires FateAt(start, cap, ds, i) != Skipped
    requires |Log(start, cap, ds[..j])| - |Log(start, cap, ds[..i + 1])| < cap
    ensures FateAt(start, cap, ds, j) == Skipped
  {
    assert ds[..i + 1][..i] == ds[..i];
    var at, now := Log(start, cap, ds[..i + 1]), Log(start, cap, ds[..j]);
    assert at[|at| - 1] == ds[i].id;
    LogGrows(start, cap, ds, i + 1, j);
    StillInWindow(at, now, cap);
  }

  lemma StillInWindow(early: seq<string>, log: seq<string>, cap: nat)
    requires early != [] && early <= log && |log| - |early| < cap
    ensures early[|early| - 1] in LastN(log, cap)
  {
    var w := LastN(log, cap);
    var k := |early| - 1 - (|log| - |w|);
    assert w[k] == log[|early| - 1];
  }

  /** Hence: written twice, or dropped by the lease and written later, only with
      `cap` new IDs in between. */
  lemma WrittenAtMostOnce(start: seq<string>, cap: nat, ds: seq<Delivery>, i: nat, j: nat)
    requires cap > 0 && i < j < |ds| && ds[i].id == ds[j].id
    requires FateAt(start, cap, ds, i) != Skipped && FateAt(start, cap, ds, j) == Written
    ensures |Log(start, cap, ds[..j])| - |Log(start, cap, ds[..i + 1])| >= cap
  {
    if |Log(start, cap, ds[..j])| - |Log(start, cap, ds[..i + 1])| < cap {
      RedeliverySkipped(start, cap, ds, i, j);
      assert false;
    }
  }

  /** The ring's one deviation from "the last cap insertions": a message with an
      empty ID is let through at most once for the life of the process. */
  lemma EmptyIdForever(start: seq<string>, cap: nat, ds: seq<Delivery>, i: nat, j: nat)
    requires cap > 0 && i < j < |ds| && ds[i].id == ds[j].id == ""
    ensures FateAt(start, cap, ds, j) == Skipped
  {
    assert ds[..i + 1][..i] == ds[..i];
    var at := Log(start, cap, ds[..i + 1]);
    var w := LastN(Log(start, cap, ds[..i]), cap);
    assert "" in at by {
      var was := Log(start, cap, ds[..i]);
      if FateAt(start, cap, ds, i) == Skipped {
        assert at == was;
        assert forall y :: y in w ==> y in was;
      } else {
        assert at[|was|] == "";
      }
    }
    LogGrows(start, cap, ds, i + 1, j);
  }

  /** The ring remembers exactly the last `cap` insertions. */
  ghost predicate IsWindow(log: seq<string>, cap: nat) {
    forall id :: Seen(log, cap, id) <==> id in LastN(log, cap)
  }

  /** The ring is exactly the last `cap` insertions, for every ID, iff an empty ID
      that was ever inserted is still among them. */
  lemma ExactlyLastN(log: seq<string>, cap: nat)
    ensures IsWindow(log, cap) <==> ("" in log ==> "" in LastN(log, cap))
  {
    assert Seen(log, cap, "") <==> "" in LastN(log, cap) || "" in log;
  }

  /** The first delivery with an empty ID. */
  predicate FirstEmpty(ds: seq<Delivery>, i: nat) {
    i < |ds| && ds[i].id == "" && forall k :: 0 <= k < i ==> ds[k].id != ""
  }

  lemma {:induction false} NoEmptyYet(cap: nat, ds: seq<Delivery>)
    requires forall k :: 0 <= k < |ds| ==> ds[k].id != ""
    ensures "" !in Log([], cap, ds)
  {
    if ds != [] { NoEmptyYet(cap, ds[..|ds| - 1]); }
  }

  /** The log's one empty ID is its insertion number `at`. */
  predicate OnlyEmpty(log: seq<string>, at: nat) {
    1 <= at <= |log| && forall k :: 0 <= k < |log| ==> (log[k] == "" <==> k == at - 1)
  }

  lemma OnlyEmptyInserted(log: seq<string>, cap: nat, at: nat, id: string)
    requires OnlyEmpty(log, at)
    ensures OnlyEmpty(Inserted(log, cap, id), at)
  {
    assert log[at - 1] == "";
  }

  lemma FirstEmptyInserted(log: seq<string>, cap: nat)
    requires "" !in log
    ensures OnlyEmpty(Inserted(log, cap, ""), |Inserted(log, cap, "")|)
  {
  }

  /** An empty ID enters the log once, at its first delivery. */
  lemma {:induction false} EmptyEntersOnce(cap: nat, ds: seq<Delivery>, i: nat)
    requires FirstEmpty(ds, i)
    ensures OnlyEmpty(Log([], cap, ds), |Log([], cap, ds[..i + 1])|)
    decreases |ds|
  {
    var n := |ds| - 1;
    var before := Log([], cap, ds[..n]);
    assert Log([], cap, ds) == Inserted(before, cap, ds[n].id);
    if i == n {
      NoEmptyYet(cap, ds[..n]);
      assert ds[..i + 1] == ds;
      FirstEmptyInserted(before, cap);
    } else {
      assert ds[..n][..i + 1] == ds[..i + 1];
      EmptyEntersOnce(cap, ds[..n], i);
      OnlyEmptyInserted(before, cap, |Log([], cap, ds[..i + 1])|, ds[n].id);
    }
  }

  lemma EmptyInWindowIff(log: seq<string>, cap: nat, at: nat)
    requires OnlyEmpty(log, at)
    ensures "" in log && ("" in LastN(log, cap) <==> |log| - at < cap)
  {
    var w := LastN(log, cap);
    var gone := |log| - |w|;
    assert log[at - 1] == "";
    assert forall k :: 0 <= k < |w| ==> w[k] == log[gone + k];
    if gone < at { assert w[at - 1 - gone] == ""; }
  }

  /** Fewer than `cap` new IDs have come in since the first empty one, if any. */
  ghost predicate EmptyStillRecent(cap: nat, ds: seq<Delivery>) {
    forall i: nat :: FirstEmpty(ds, i) ==> |Log([], cap, ds)| - |Log([], cap, ds[..i + 1])| < cap
  }

  /** Over every run from a fresh ring: it equals the last `cap` insertions exactly
      while fewer than `cap` new IDs have come in since the first empty one. */
  lemma RingIsLastNIff(cap: nat, ds: seq<Delivery>)
    ensures IsWindow(Log([], cap, ds), cap) <==> EmptyStillRecent(cap, ds)
  {
    var log := Log([], cap, ds);
    ExactlyLastN(log, cap);
    if i: nat :| FirstEmpty(ds, i) {
      EmptyEntersOnce(cap, ds, i);
      EmptyInWindowIff(log, cap, |Log([], cap, ds[..i + 1])|);
      RecentIff(cap, ds, i);
    } else {
      NeverEmpty(ds);
      NoEmptyYet(cap, ds);
    }
  }

  lemma RecentIff(cap: nat, ds: seq<Delivery>, i: nat)
    requires FirstEmpty(ds, i)
    ensures EmptyStillRecent(cap, ds) <==> |Log([], cap, ds)| - |Log([], cap, ds[..i + 1])| < cap
  {
    forall j: nat | FirstEmpty(ds, j) ensures j == i { }
  }

  lemma {:induction false} NeverEmpty(ds: seq<Delivery>)
    requires forall i: nat :: !FirstEmpty(ds, i)
    ensures forall k :: 0 <= k < |ds| ==> ds[k].id != ""
  {
    if ds != [] {
      var n := |ds| - 1;
      forall i: nat ensures !FirstEmpty(ds[..n], i) {
        assert !FirstEmpty(ds, i);
      }
      NeverEmpty(ds[..n]);
      assert !FirstEmpty(ds, n);
    }
  }

  function Xs(n: nat): (s: string)
    ensures |s| == n
  {
    seq(n, _ => 'x')
  }

  /** The run of n deliveries whose k-th ID is k letters long; the first is empty. */
  function Growing(n: nat): (ds: seq<Delivery>)
    ensures |ds| == n && forall k :: 0 <= k < n ==> |ds[k].id| == k
  {
    seq(n, k requires k >= 0 => Delivery(Xs(k), "", "", ""))
  }

  lemma {:induction false} GrowingLog(cap: nat, n: nat)
    requires cap > 0
    ensures Lengths(Log([], cap, Growing(n)), n)
  {
    if n > 0 {
      assert Growing(n)[..n - 1] == Growing(n - 1);
      GrowingLog(cap, n - 1);
      LongerIsNew(Log([], cap, Growing(n - 1)), cap, n - 1, Growing(n)[n - 1].id);
    }
  }

  predicate Lengths(log: seq<string>, n: nat) {
    |log| == n && forall k :: 0 <= k < n ==> |log[k]| == k
  }

  lemma LongerIsNew(log: seq<string>, cap: nat, n: nat, id: string)
    requires Lengths(log, n) && |id| == n
    ensures Lengths(Inserted(log, cap, id), n + 1)
  {
  }

  /** A reachable run where the two differ, for every capacity: an empty ID, then
      `cap` new ones. */
  lemma EmptyIdOutlivesWindow(cap: nat)
    requires cap > 0
    ensures var log := Log([], cap, Growing(cap + 1));
            Seen(log, cap, "") && "" !in LastN(log, cap)
  {
    GrowingLog(cap, cap + 1);
    var log := Log([], cap, Growing(cap + 1));
    assert log[0] == "";
    assert forall k :: 0 <= k < cap ==> |LastN(log, cap)[k]| == k + 1;
  }

  // ----- the gate, message by message -----

  /** What happens to a message: skipped if its ID is among the last `cap` inserted ones,
      or empty and ever inserted; dropped if someone else holds the lease; or written. */
  lemma FateSpelledOut(log: seq<string>, cap: nat, d: Delivery)
    ensures var known := (exists k :: 0 <= k < |log| && |log| - cap <= k && log[k] == d.id) ||
                         (d.id == "" && "" in log);
            FateOf(log, cap, d) ==
            if known then Skipped else if d.holder == "" || d.holder == d.sender then Written else Dropped
    ensures Inserted(log, cap, d.id) == if FateOf(log, cap, d) == Skipped then log else log + [d.id]
  {
    var w := LastN(log, cap);
    var gone := |log| - |w|;
    if k :| 0 <= k < |log| && |log| - cap <= k && log[k] == d.id {
      assert w[k - gone] == d.id;
    }
    if d.id in w {
      var j :| 0 <= j < |w| && w[j] == d.id;
      assert log[gone + j] == d.id;
    }
  }

  function Payloads(ds: seq<Delivery>): string {
    if ds == [] then "" else Payloads(ds[..|ds| - 1]) + ds[|ds| - 1].payload
  }

  predicate HasId(ds: seq<Delivery>, id: string) { exists i :: 0 <= i < |ds| && ds[i].id == id }

  predicate AllFresh(start: seq<string>, ds: seq<Delivery>) {
    && (forall i :: 0 <= i < |ds| ==> ds[i].id !in start && ds[i].holder in {"", ds[i].sender})
    && (forall i, j :: 0 <= i < j < |ds| ==> ds[i].id != ds[j].id)
  }

  /** New messages from senders that may write come out whole and in order. */
  lemma {:induction false} FreshComeThrough(start: seq<string>, cap: nat, ds: seq<Delivery>)
    requires AllFresh(start, ds)
    ensures Output(start, cap, ds) == Payloads(ds)
    ensures |Log(start, cap, ds)| == |start| + |ds|
    ensures forall id :: id in Log(start, cap, ds) <==> id in start || HasId(ds, id)
  {
    if ds != [] {
      var n := |ds| - 1;
      FreshInit(start, ds);
      FreshComeThrough(start, cap, ds[..n]);
      NotSeen(Log(start, cap, ds[..n]), cap, ds[n].id);
      forall id ensures HasId(ds, id) <==> id == ds[n].id || HasId(ds[..n], id) { HasIdSnoc(ds, id); }
    }
  }

  lemma FreshInit(start: seq<string>, ds: seq<Delivery>)
    requires ds != [] && AllFresh(start, ds)
    ensures var n := |ds| - 1;
            && AllFresh(start, ds[..n]) && ds[n].holder in {"", ds[n].sender}
            && ds[n].id !in start && !HasId(ds[..n], ds[n].id)
  {
  }

  lemma HasIdSnoc(ds: seq<Delivery>, id: string)
    requires ds != []
    ensures HasId(ds, id) <==> id == ds[|ds| - 1].id || HasId(ds[..|ds| - 1], id)
  {
    if HasId(ds[..|ds| - 1], id) {
      var i :| 0 <= i < |ds| - 1 && ds[..|ds| - 1][i].id == id;
      assert ds[i].id == id;
    }
  }

  lemma NotSeen(log: seq<string>, cap: nat, id: string)
    requires id !in log
    ensures !Seen(log, cap, id)
  {
    assert forall x :: x in LastN(log, cap) ==> x in log;
  }
}
