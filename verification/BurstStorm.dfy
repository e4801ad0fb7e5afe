/** The burst-swap-storm detector and the ordering of pattern hits
    (internal/daemon/nats_event_patterns.go). */
module BurstStorm {
  import opened Common

  datatype Event = Event(kind: string, at: Time)

  const WINDOW: Time := 2_000_000_000
  const MIN_SWAPS := 3

  predicate Swap(e: Event) { e.kind == "swap" }

  /** Reported: the swaps from event `first` to event `last`. */
  datatype Storm = Storm(first: nat, last: nat, count: nat, at: Time)

  predicate Chronological(events: seq<Event>) {
    forall i, j :: 0 <= i <= j < |events| ==> events[i].at <= events[j].at
  }

  /** How many of the events lo .. hi-1 are swaps. */
  function Swaps(events: seq<Event>, lo: nat, hi: nat): nat
    requires lo <= hi <= |events|
  {
    if lo == hi then 0 else Swaps(events, lo, hi - 1) + if Swap(events[hi - 1]) then 1 else 0
  }

  /** Three swaps inside one window, the first at `a`. */
  predicate Burst(events: seq<Event>, a: nat, b: nat, c: nat) {
    && a < b < c < |events|
    && Swap(events[a]) && Swap(events[b]) && Swap(events[c])
    && events[c].at - events[a].at <= WINDOW
  }

  /** A storm is genuine: it runs from swap to swap, stays within the window of its
      first, counts every swap it covers, and there are at least three. */
  predicate Genuine(events: seq<Event>, h: Storm) {
    && h.first <= h.last < |events|
    && Swap(events[h.first]) && Swap(events[h.last]) && h.at == events[h.first].at
    && (forall i :: h.first <= i <= h.last ==> events[i].at - events[h.first].at <= WINDOW)
    && h.count == Swaps(events, h.first, h.last + 1) >= MIN_SWAPS
  }

  predicate InOrder(hits: seq<Storm>) {
    forall i, j :: 0 <= i < j < |hits| ==> hits[i].last < hits[j].first
  }

  predicate Covers(hits: seq<Storm>, a: nat) {
    exists i :: 0 <= i < |hits| && hits[i].first <= a <= hits[i].last
  }

  /** Every burst that starts before `n` starts inside a reported storm. */
  ghost predicate CompleteBelow(events: seq<Event>, hits: seq<Storm>, n: nat) {
    forall a: nat, b: nat, c: nat :: a < n && Burst(events, a, b, c) ==> Covers(hits, a)
  }

  /** Soundness for every input; completeness when the events are in time order,
      and then silence means there was no burst. */
  method DetectBurstSwapStorm(events: seq<Event>) returns (hits: seq<Storm>)
    ensures InOrder(hits) && forall i :: 0 <= i < |hits| ==> Genuine(events, hits[i])
    ensures Chronological(events) ==> forall a: nat, b: nat, c: nat :: Burst(events, a, b, c) ==> Covers(hits, a)
    ensures Chronological(events) ==> (hits == [] <==> forall a: nat, b: nat, c: nat :: !Burst(events, a, b, c))
  {
    hits := [];
    var i := 0;
    while i < |events|
      invariant 0 <= i <= |events|
      invariant InOrder(hits)
      invariant forall k :: 0 <= k < |hits| ==> Genuine(events, hits[k]) && hits[k].last < i
      invariant Chronological(events) ==> CompleteBelow(events, hits, i)
    {
      if !Swap(events[i]) {
        i := i + 1;
        continue;
      }
      var end, count := ScanWindow(events, i);
      if count >= MIN_SWAPS {
        ghost var before := hits;
        var storm := Storm(i, end, count, events[i].at);
        hits := hits + [storm];
        CoversMore(before, storm);
        i := end + 1;
        continue;
      }
      i := i + 1;
    }
    if hits != [] && Chronological(events) {
      var b := MiddleSwap(events, hits[0]);
      assert Burst(events, hits[0].first, b, hits[0].last);
    }
  }

  /** A burst: three swaps within two seconds. */
  lemma BurstsSpelledOut(events: seq<Event>)
    ensures (forall a: nat, b: nat, c: nat :: !Burst(events, a, b, c)) <==>
            forall a, b, c ::
              0 <= a < b < c < |events| && events[a].kind == events[b].kind == events[c].kind == "swap" ==>
                events[c].at - events[a].at > 2_000_000_000
  {
    if a, b, c :| 0 <= a < b < c < |events| && events[a].kind == events[b].kind == events[c].kind == "swap" &&
                  events[c].at - events[a].at <= 2_000_000_000 {
      assert Burst(events, a, b, c);
    }
  }

  /** What a reported storm says: how many swaps there are between its two ends, at
      least three and all within two seconds of the first, and when it began. */
  lemma StormSpelledOut(events: seq<Event>, h: Storm)
    requires Genuine(events, h)
    ensures events[h.first].kind == events[h.last].kind == "swap" && h.at == events[h.first].at
    ensures forall i :: h.first <= i <= h.last ==> events[i].at - h.at <= 2_000_000_000
    ensures h.count >= 3 && h.count == |set i | h.first <= i <= h.last && events[i].kind == "swap"|
  {
    SwapsSpelledOut(events, h.first, h.last + 1);
    assert (set i | h.first <= i <= h.last && events[i].kind == "swap") ==
           (set i | h.first <= i < h.last + 1 && events[i].kind == "swap");
  }

  lemma {:induction false} SwapsSpelledOut(events: seq<Event>, lo: nat, hi: nat)
    requires lo <= hi <= |events|
    ensures Swaps(events, lo, hi) == |set i | lo <= i < hi && events[i].kind == "swap"|
    decreases hi
  {
    var all := set i | lo <= i < hi && events[i].kind == "swap";
    if lo < hi {
      var before := set i | lo <= i < hi - 1 && events[i].kind == "swap";
      SwapsSpelledOut(events, lo, hi - 1);
      assert all == before + if events[hi - 1].kind == "swap" then {hi - 1} else {};
    }
  }

  lemma CoversMore(hits: seq<Storm>, storm: Storm)
    ensures forall a: nat :: Covers(hits, a) ==> Covers(hits + [storm], a)
    ensures forall a: nat :: storm.first <= a <= storm.last ==> Covers(hits + [storm], a)
  {
    var all := hits + [storm];
    assert all[|hits|] == storm;
    forall a: nat | Covers(hits, a) ensures Covers(all, a) {
      var i :| 0 <= i < |hits| && hits[i].first <= a <= hits[i].last;
      assert all[i] == hits[i];
    }
  }

  /** The inner scan: count the swaps within the window of the swap at `start` and
      remember the last. */
  method ScanWindow(events: seq<Event>, start: nat) returns (end: nat, count: nat)
    requires start < |events| && Swap(events[start])
    ensures start <= end < |events| && Swap(events[end])
    ensures count == Swaps(events, start, end + 1)
    ensures forall k :: start <= k <= end ==> events[k].at - events[start].at <= WINDOW
    ensures Chronological(events) && count < MIN_SWAPS ==> forall b: nat, c: nat :: !Burst(events, start, b, c)
  {
    end, count := start, 1;
    var j := start + 1;
    assert Swaps(events, start, start) == 0;
    while j < |events|
      invariant start < j <= |events|
      invariant start <= end < j && Swap(events[end])
      invariant count == Swaps(events, start, j) == Swaps(events, start, end + 1)
      invariant forall k :: start <= k < j ==> events[k].at - events[start].at <= WINDOW
    {
      if events[j].at - events[start].at > WINDOW {
        break;
      }
      if Swap(events[j]) {
        count := count + 1;
        end := j;
      }
      j := j + 1;
    }
    if Chronological(events) {
      forall b: nat, c: nat | Burst(events, start, b, c) ensures count >= MIN_SWAPS {
        assert c < j;
        ThreeSwaps(events, start, j, b, c);
      }
    }
  }

  lemma {:induction false} SwapsSplit(events: seq<Event>, lo: nat, mid: nat, hi: nat)
    requires lo <= mid <= hi <= |events|
    ensures Swaps(events, lo, hi) == Swaps(events, lo, mid) + Swaps(events, mid, hi)
    decreases hi
  {
    if mid < hi { SwapsSplit(events, lo, mid, hi - 1); }
  }

  lemma ThreeSwaps(events: seq<Event>, lo: nat, hi: nat, b: nat, c: nat)
    requires lo < b < c < hi <= |events| && Swap(events[lo]) && Swap(events[b]) && Swap(events[c])
    ensures Swaps(events, lo, hi) >= 3
  {
    SwapsSplit(events, lo, c + 1, hi);
    SwapsSplit(events, lo, b + 1, c);
    SwapsSplit(events, lo, lo + 1, b);
  }

  /** A storm of three or more has a swap strictly between its ends. */
  lemma MiddleSwap(events: seq<Event>, h: Storm) returns (b: nat)
    requires Genuine(events, h)
    ensures h.first < b < h.last && Swap(events[b])
  {
    SwapsSplit(events, h.first, h.first + 1, h.last + 1);
    assert Swaps(events, h.first, h.first) == 0;
    b := SomeSwap(events, h.first + 1, h.last);
  }

  lemma {:induction false} SomeSwap(events: seq<Event>, lo: nat, hi: nat) returns (b: nat)
    requires lo <= hi <= |events| && Swaps(events, lo, hi) > 0
    ensures lo <= b < hi && Swap(events[b])
    decreases hi
  {
    if Swap(events[hi - 1]) { b := hi - 1; } else { b := SomeSwap(events, lo, hi - 1); }
  }

  // ----- ordering the hits -----

  datatype Hit = Hit(name: string, at: Time)

  /** Insertion behind everything not later. */
  function Insert(s: seq<Hit>, x: Hit): (r: seq<Hit>)
    ensures |r| == |s| + 1
  {
    if s == [] || s[|s| - 1].at <= x.at then s + [x]
    else Insert(s[..|s| - 1], x) + [s[|s| - 1]]
  }

  function InsertionSort(s: seq<Hit>): (r: seq<Hit>)
    ensures |r| == |s|
  {
    if s == [] then [] else Insert(InsertionSort(s[..|s| - 1]), s[|s| - 1])
  }

  predicate Sorted(s: seq<Hit>) {
    forall i, j :: 0 <= i < j < |s| ==> s[i].at <= s[j].at
  }

  /** The hits at one instant, in order. */
  function At(s: seq<Hit>, t: Time): seq<Hit> {
    if s == [] then [] else At(s[..|s| - 1], t) + if s[|s| - 1].at == t then [s[|s| - 1]] else []
  }

  lemma {:induction false} InsertPermutes(s: seq<Hit>, x: Hit)
    ensures multiset(Insert(s, x)) == multiset(s) + multiset{x}
  {
    if s != [] && s[|s| - 1].at > x.at {
      InsertPermutes(s[..|s| - 1], x);
      assert s == s[..|s| - 1] + [s[|s| - 1]];
    }
  }

  predicate NoneAfter(s: seq<Hit>, t: Time) { forall i :: 0 <= i < |s| ==> s[i].at <= t }

  lemma SortedSnoc(s: seq<Hit>, x: Hit)
    requires Sorted(s) && NoneAfter(s, x.at)
    ensures Sorted(s + [x])
  {
  }

  lemma {:induction false} InsertBound(s: seq<Hit>, x: Hit, t: Time)
    requires NoneAfter(s, t) && x.at <= t
    ensures NoneAfter(Insert(s, x), t)
  {
    if s != [] && s[|s| - 1].at > x.at { InsertBound(s[..|s| - 1], x, t); }
  }

  lemma {:induction false} InsertSorted(s: seq<Hit>, x: Hit)
    requires Sorted(s)
    ensures Sorted(Insert(s, x))
  {
    if s == [] || s[|s| - 1].at <= x.at {
      SortedSnoc(s, x);
    } else {
      var n := |s| - 1;
      InsertSorted(s[..n], x);
      InsertBound(s[..n], x, s[n].at);
      SortedSnoc(Insert(s[..n], x), s[n]);
    }
  }

  lemma {:induction false} InsertAt(s: seq<Hit>, x: Hit, t: Time)
    requires Sorted(s)
    ensures At(Insert(s, x), t) == At(s, t) + if x.at == t then [x] else []
  {
    if s == [] || s[|s| - 1].at <= x.at {
      assert (s + [x])[..|s|] == s;
    } else {
      var n := |s| - 1;
      InsertAt(s[..n], x, t);
      var r := Insert(s[..n], x);
      assert (r + [s[n]])[..|r|] == r;
      if x.at == t { NoneLater(s, t); }
    }
  }

  lemma NoneLater(s: seq<Hit>, t: Time)
    requires s != [] && s[|s| - 1].at > t
    ensures At(s, t) == At(s[..|s| - 1], t)
  {
  }

  lemma {:induction false} SortSorted(s: seq<Hit>)
    ensures Sorted(InsertionSort(s)) && multiset(InsertionSort(s)) == multiset(s)
  {
    if s != [] {
      var n := |s| - 1;
      SortSorted(s[..n]);
      InsertSorted(InsertionSort(s[..n]), s[n]);
      InsertPermutes(InsertionSort(s[..n]), s[n]);
      assert s == s[..n] + [s[n]];
    }
  }

  /** Sorting is by time, loses nothing, and keeps simultaneous hits in order. */
  lemma {:induction false} SortIsStable(s: seq<Hit>, t: Time)
    ensures Sorted(InsertionSort(s)) && multiset(InsertionSort(s)) == multiset(s)
    ensures At(InsertionSort(s), t) == At(s, t)
  {
    SortSorted(s);
    if s != [] {
      var n := |s| - 1;
      SortIsStable(s[..n], t);
      InsertAt(InsertionSort(s[..n]), s[n], t);
    }
  }

  /** Moving x left past everything later is an insertion. */
  lemma {:induction false} MovedLeft(p: seq<Hit>, x: Hit, j: nat)
    requires j <= |p| && (j > 0 ==> p[j - 1].at <= x.at)
    requires forall k :: j <= k < |p| ==> x.at < p[k].at
    ensures p[..j] + [x] + p[j..] == Insert(p, x)
    decreases |p|
  {
    if j == |p| {
      assert p[..j] == p && p[j..] == [];
    } else {
      var n := |p| - 1;
      MovedLeft(p[..n], x, j);
      assert p[..n][..j] == p[..j];
      assert p[j..] == p[..n][j..] + [p[n]];
    }
  }

  /** The inner loop: swap a[i] left past everything later. */
  method SwapDown(a: array<Hit>, i: nat)
    requires i < a.Length
    modifies a
    ensures a[..i + 1] == Insert(old(a[..i]), old(a[i]))
    ensures a[i + 1..] == old(a[i + 1..])
  {
    ghost var p, x, rest := a[..i], a[i], a[i + 1..];
    var j := i;
    assert a[..] == Slid(p, x, i, rest);
    while j > 0 && a[j].at < a[j - 1].at
      invariant 0 <= j <= i && |p| == i
      invariant a[..] == Slid(p, x, j, rest)
      invariant forall k :: j <= k < i ==> x.at < p[k].at
    {
      SlideOne(p, x, j, rest);
      assert a[j] == a[..][j] && a[j - 1] == a[..][j - 1];
      ghost var was := a[..];
      a[j], a[j - 1] := a[j - 1], a[j];
      assert a[..] == was[j := was[j - 1]][j - 1 := was[j]];
      j := j - 1;
    }
    assert j > 0 ==> a[j] == a[..][j] && a[j - 1] == a[..][j - 1];
    MovedLeft(p, x, j);
    assert a[..i + 1] == a[..][..i + 1] && a[i + 1..] == a[..][i + 1..];
  }

  /** The array while x, taken out of place i, sits at place j. */
  ghost function Slid(p: seq<Hit>, x: Hit, j: nat, rest: seq<Hit>): (s: seq<Hit>)
    requires j <= |p|
    ensures |s| == |p| + 1 + |rest|
    ensures s[j] == x && (j > 0 ==> s[j - 1] == p[j - 1])
    ensures s[..|p| + 1] == p[..j] + [x] + p[j..] && s[|p| + 1..] == rest
  {
    p[..j] + [x] + p[j..] + rest
  }

  lemma SlideOne(p: seq<Hit>, x: Hit, j: nat, rest: seq<Hit>)
    requires 0 < j <= |p|
    ensures var s := Slid(p, x, j, rest);
            s[j := s[j - 1]][j - 1 := s[j]] == Slid(p, x, j - 1, rest)
  {
  }

  method SortHits(a: array<Hit>)
    modifies a
    ensures a[..] == InsertionSort(old(a[..]))
  {
    ghost var was := a[..];
    if a.Length == 0 {
      return;
    }
    assert was[..1][..0] == [] && a[..1] == [was[0]];
    for i := 1 to a.Length
      invariant a[..i] == InsertionSort(was[..i])
      invariant a[i..] == was[i..]
    {
      assert a[i] == a[i..][0] == was[i];
      assert a[i + 1..] == a[i..][1..];
      SwapDown(a, i);
      assert was[..i + 1][..i] == was[..i];
    }
    assert a[..] == a[..a.Length] && was == was[..a.Length];
  }
}
