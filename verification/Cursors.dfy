/** Read cursors and unread counts (internal/daemon/cursors.go, list_snapshot.go). */
module Cursors {
  import opened Common
  import opened Text
  import opened Naming

  /** How far a session has read, and the stamp of the stream it read; stamp 0 is
      "identity unknown". */
  datatype Entry = Entry(seq_: nat, created: int)

  const NEVER := Entry(0, 0)

  /** A stale entry - another incarnation's, or ahead of the stream - reads as 0. */
  function EffectiveCursor(e: Entry, created: int, lastSeq: nat): (c: nat)
    ensures c <= lastSeq
    ensures c == 0 || c == e.seq_
  {
    if e.seq_ == 0 then 0
    else if e.created != 0 && created != 0 && e.created != created then 0
    else if e.seq_ > lastSeq then 0
    else e.seq_
  }

  function Advanced(e: Entry, seq_: nat, created: int): Entry {
    if seq_ == 0 then e
    else if created == e.created && seq_ <= e.seq_ then e
    else Entry(seq_, created)
  }

  function SessionName(s: string): string { if s == "" then "default" else s }

  type Table = map<string, Entry>

  class CursorStore {
    var sessions: map<string, Table>

    constructor ()
      ensures sessions == map[]
      ensures forall s, k :: Lookup(s, k) == Entry(0, 0)
    {
      sessions := map[];
    }

    function Lookup(session: string, key: string): Entry
      reads this
    {
      var s := SessionName(session);
      if s in sessions && key in sessions[s] then sessions[s][key] else NEVER
    }

    method GetEntry(session: string, key: string) returns (e: Entry)
      ensures e == Lookup(session, key)
    {
      var s := SessionName(session);
      e := NEVER;
      if s in sessions && key in sessions[s] {
        e := sessions[s][key];
      }
    }

    method Advance(session: string, key: string, seq_: nat, created: int)
      modifies this
      ensures Lookup(session, key) == Advanced(old(Lookup(session, key)), seq_, created)
      ensures forall s, k :: SessionName(s) != SessionName(session) || k != key ==> Lookup(s, k) == old(Lookup(s, k))
      ensures forall s, k :: s != session && s != "" && session != "" ==> Lookup(s, k) == old(Lookup(s, k))
      ensures Lookup("", key) == Lookup("default", key)
    {
      if seq_ == 0 {
        return;
      }
      var s := SessionName(session);
      var m: Table := if s in sessions then sessions[s] else map[];
      var cur := if key in m then m[key] else NEVER;
      if created == cur.created && seq_ <= cur.seq_ {
        return;
      }
      sessions := sessions[s := m[key := Entry(seq_, created)]];
    }
  }

  // ----- unread counts -----

  /** A stream's retained messages, by sequence number. */
  datatype Stream = Stream(created: int, lastSeq: nat, retained: set<nat>)

  predicate Proper(st: Stream) {
    forall s :: s in st.retained ==> 1 <= s <= st.lastSeq
  }

  function Unread(e: Entry, st: Stream): nat {
    var cursor := EffectiveCursor(e, st.created, st.lastSeq);
    if st.lastSeq > cursor then Min(st.lastSeq - cursor, |st.retained|) else 0
  }

  /** The messages actually waiting. */
  function Waiting(st: Stream, cursor: nat): set<nat> { set s | s in st.retained && s > cursor }

  predicate Contiguous(st: Stream) {
    forall s, t :: s in st.retained && s <= t <= st.lastSeq ==> t in st.retained
  }

  /** The numbers above lo, up to hi. */
  function Range(lo: nat, hi: nat): (r: set<nat>)
    ensures forall s: nat :: s in r <==> lo < s <= hi
    decreases hi
  {
    if hi <= lo then {} else Range(lo, hi - 1) + {hi}
  }

  lemma {:induction false} RangeSize(lo: nat, hi: nat)
    requires lo <= hi
    ensures |Range(lo, hi)| == hi - lo
    decreases hi
  {
    if lo < hi {
      RangeSize(lo, hi - 1);
    }
  }

  lemma {:induction false} SubsetSize(a: set<nat>, b: set<nat>)
    requires a <= b
    ensures |a| <= |b|
    ensures |a| == |b| ==> a == b
  {
    if a != {} {
      var x :| x in a;
      SubsetSize(a - {x}, b - {x});
    }
  }

  /** Retention left no hole above the cursor. */
  predicate NoHolesAbove(st: Stream, cursor: nat) {
    forall s: nat :: cursor < s <= st.lastSeq ==> s in st.retained
  }

  /** The reported count never hides a waiting message, whatever retention removed, and
      it is exactly the number waiting iff everything retained is waiting or nothing
      above the cursor was removed. */
  lemma UnreadCounts(e: Entry, st: Stream)
    requires Proper(st)
    ensures var c := EffectiveCursor(e, st.created, st.lastSeq);
            && |Waiting(st, c)| <= Unread(e, st) <= |st.retained|
            && (Unread(e, st) == |Waiting(st, c)| <==>
                  (forall s :: s in st.retained ==> s > c) || NoHolesAbove(st, c))
  {
    var c := EffectiveCursor(e, st.created, st.lastSeq);
    var w, all := Waiting(st, c), Range(c, st.lastSeq);
    RangeSize(c, st.lastSeq);
    SubsetSize(w, all);
    SubsetSize(w, st.retained);
    AllWaitingIff(st, c);
    NoHolesIff(st, c);
  }

  /** A witness: 2 was removed between the cursor at 1 and the newest message. */
  lemma HolesOvercount(created: int)
    ensures var st := Stream(created, 3, {1, 3});
            Unread(Entry(1, created), st) == 2 && Waiting(st, 1) == {3}
  {
  }

  lemma AllWaitingIff(st: Stream, c: nat)
    ensures Waiting(st, c) == st.retained <==> forall s :: s in st.retained ==> s > c
  {
  }

  lemma NoHolesIff(st: Stream, c: nat)
    requires Proper(st)
    ensures Waiting(st, c) == Range(c, st.lastSeq) <==> NoHolesAbove(st, c)
  {
    if Waiting(st, c) == Range(c, st.lastSeq) {
      forall s: nat | c < s <= st.lastSeq ensures s in st.retained {
        assert s in Waiting(st, c);
      }
    }
  }

  /** In particular on a contiguous tail, wherever the cursor is. */
  lemma ContiguousTailExact(e: Entry, st: Stream)
    requires Proper(st) && Contiguous(st)
    ensures Unread(e, st) == |Waiting(st, EffectiveCursor(e, st.created, st.lastSeq))|
  {
    var c := EffectiveCursor(e, st.created, st.lastSeq);
    UnreadCounts(e, st);
    if t: nat :| c < t <= st.lastSeq && t !in st.retained {
      forall s | s in st.retained ensures s > c {
        assert s <= t ==> t in st.retained;
      }
    }
  }

  // ----- runs of one pipe and one session -----

  datatype Event =
    | Publish
    | Purge(kept: set<nat>)         // retention or an explicit purge removes some
    | Read(upTo: nat)               // the session read this far and stored it
    | Recreate(created: int)        // destroyed and created again under the same name

  datatype State = State(stream: Stream, entry: Entry)

  function Step(y: State, e: Event): State {
    var st := y.stream;
    match e
    case Publish => y.(stream := st.(lastSeq := st.lastSeq + 1, retained := st.retained + {st.lastSeq + 1}))
    case Purge(kept) => y.(stream := st.(retained := st.retained * kept))
    case Read(upTo) => y.(entry := Advanced(y.entry, Min(upTo, st.lastSeq), st.created))
    case Recreate(created) => y.(stream := Stream(created, 0, {}))
  }

  function Run(y: State, events: seq<Event>): State {
    if events == [] then y else Step(Run(y, events[..|events| - 1]), events[|events| - 1])
  }

  function CursorOf(y: State): nat { EffectiveCursor(y.entry, y.stream.created, y.stream.lastSeq) }

  // ----- when the cursor can move back -----

  /** One read moves the cursor back exactly when the stamp of just one side is
      unknown - a legacy entry, or a stream whose creation time could not be read -
      and the read ends below an entry that is in force. Two known stamps never do. */
  lemma ReadMovesBackIff(y: State, upTo: nat)
    ensures CursorOf(Step(y, Read(upTo))) < CursorOf(y) <==>
            && (y.entry.created == 0) != (y.stream.created == 0)
            && 0 < Min(upTo, y.stream.lastSeq) < y.entry.seq_ <= y.stream.lastSeq
  {
  }

  /** A witness: a legacy entry at 3, and a read that ends at 1. */
  lemma LegacyEntryMovesBack(created: int)
    requires created != 0
    ensures var y := State(Stream(created, 3, {1, 2, 3}), Entry(3, 0));
            CursorOf(y) == 3 && CursorOf(Step(y, Read(1))) == 1
  {
  }

  predicate OneIncarnation(events: seq<Event>) {
    forall i :: 0 <= i < |events| ==> !events[i].Recreate?
  }

  /** Entry and stream are both stamped or both not; an entry that was never stored
      counts as either. */
  predicate Stamped(y: State) {
    y.entry.seq_ == 0 || ((y.entry.created == 0) == (y.stream.created == 0))
  }

  /** No read can move this cursor back: an entry at 1 leaves no room to. */
  predicate Settled(y: State) { Stamped(y) || y.entry.seq_ <= 1 }

  lemma StepSettled(y: State, e: Event)
    requires Settled(y) && !e.Recreate?
    ensures Settled(Step(y, e)) && CursorOf(y) <= CursorOf(Step(y, e))
  {
    if e.Read? { ReadMovesBackIff(y, e.upTo); }
  }

  /** Reading one incarnation never moves the cursor back, also while the entry still
      belongs to an earlier one. */
  lemma {:induction false} CursorMonotone(y: State, events: seq<Event>)
    requires Settled(y) && OneIncarnation(events)
    ensures Settled(Run(y, events)) && CursorOf(y) <= CursorOf(Run(y, events))
  {
    if events != [] {
      var n := |events| - 1;
      CursorMonotone(y, events[..n]);
      StepSettled(Run(y, events[..n]), events[n]);
    }
  }

  lemma RunOne(y: State, e: Event)
    ensures Run(y, [e]) == Step(y, e)
  {
    assert [e][..0] == [];
  }

  /** Exactly the states from which no run of one incarnation ends below its start. */
  lemma NeverBelowStartIff(y: State)
    ensures (forall events :: OneIncarnation(events) ==> CursorOf(y) <= CursorOf(Run(y, events))) <==>
            Settled(y) || y.entry.seq_ > y.stream.lastSeq
  {
    if Settled(y) {
      forall events | OneIncarnation(events) ensures CursorOf(y) <= CursorOf(Run(y, events)) {
        CursorMonotone(y, events);
      }
    } else if y.entry.seq_ <= y.stream.lastSeq {
      ReadMovesBackIff(y, 1);
      RunOne(y, Read(1));
      assert OneIncarnation([Read(1)]);
    }
  }

  function Publishes(n: nat): (events: seq<Event>)
    ensures |events| == n && forall i :: 0 <= i < n ==> events[i] == Publish
  {
    seq(n, _ => Publish)
  }

  lemma {:induction false} PublishesRun(y: State, n: nat)
    ensures var z := Run(y, Publishes(n));
            z.entry == y.entry && z.stream.created == y.stream.created && z.stream.lastSeq == y.stream.lastSeq + n
  {
    if n > 0 {
      assert Publishes(n)[..n - 1] == Publishes(n - 1);
      PublishesRun(y, n - 1);
    }
  }

  /** Exactly the states from which the cursor never moves back at any step: an entry
      ahead of the stream only waits for the stream to catch up. */
  lemma MonotoneIff(y: State)
    ensures (forall events, e: Event :: OneIncarnation(events) && !e.Recreate? ==>
               CursorOf(Run(y, events)) <= CursorOf(Step(Run(y, events), e))) <==> Settled(y)
  {
    if Settled(y) {
      forall events, e: Event | OneIncarnation(events) && !e.Recreate?
        ensures CursorOf(Run(y, events)) <= CursorOf(Step(Run(y, events), e))
      {
        CursorMonotone(y, events);
        StepSettled(Run(y, events), e);
      }
    } else {
      var n := if y.entry.seq_ > y.stream.lastSeq then y.entry.seq_ - y.stream.lastSeq else 0;
      var events := Publishes(n);
      PublishesRun(y, n);
      ReadMovesBackIff(Run(y, events), 1);
      assert OneIncarnation(events) && !Read(1).Recreate?;
    }
  }

  /** Every stamp the run sees is known. */
  predicate KnownStamps(y: State, events: seq<Event>) {
    && y.stream.created != 0 && (y.entry.seq_ == 0 || y.entry.created != 0)
    && forall i :: 0 <= i < |events| && events[i].Recreate? ==> events[i].created != 0
  }

  lemma {:induction false} KnownStaysKnown(y: State, events: seq<Event>)
    requires KnownStamps(y, events)
    ensures KnownStamps(Run(y, events), [])
  {
    if events != [] { KnownStaysKnown(y, events[..|events| - 1]); }
  }

  /** Over whole runs, however often the stream is destroyed and created again: where
      stamps are known the cursor moves back only when the stream is recreated. */
  lemma MonotoneBetweenRecreates(y: State, events: seq<Event>, e: Event)
    requires KnownStamps(y, events) && !e.Recreate?
    ensures CursorOf(Run(y, events)) <= CursorOf(Step(Run(y, events), e))
  {
    KnownStaysKnown(y, events);
    StepSettled(Run(y, events), e);
  }

  /** Each read starts above the cursor of its moment, as one reader at a time does. */
  predicate OneReader(y: State, events: seq<Event>) {
    forall i :: 0 <= i < |events| && events[i].Read? ==> events[i].upTo > CursorOf(Run(y, events[..i]))
  }

  /** Then stamps do not matter: the failing runs need two reads in flight at once. */
  lemma {:induction false} OneReaderMonotone(y: State, events: seq<Event>)
    requires OneIncarnation(events) && OneReader(y, events)
    ensures CursorOf(y) <= CursorOf(Run(y, events))
  {
    if events != [] {
      var n := |events| - 1;
      forall i | 0 <= i < n && events[..n][i].Read? ensures events[..n][i].upTo > CursorOf(Run(y, events[..n][..i])) {
        assert events[..n][..i] == events[..i];
      }
      OneReaderMonotone(y, events[..n]);
      if events[n].Read? { ReadMovesBackIff(Run(y, events[..n]), events[n].upTo); }
    }
  }

  /** A recreated stream counts as wholly unread until it is first read: the old
      watermark never hides new messages. */
  lemma {:induction false} RecreatedWhollyUnread(y: State, created: int, events: seq<Event>)
    requires Proper(y.stream)
    requires y.entry.created != 0 && created != 0 && created != y.entry.created
    requires forall i :: 0 <= i < |events| ==> events[i].Publish? || events[i].Purge?
    ensures var z := Run(Step(y, Recreate(created)), events);
            && z.entry == y.entry && z.stream.created == created && Proper(z.stream)
            && CursorOf(z) == 0 && Unread(z.entry, z.stream) == |z.stream.retained|
  {
    var z := Run(Step(y, Recreate(created)), events);
    if events != [] {
      RecreatedWhollyUnread(y, created, events[..|events| - 1]);
    }
    RangeSize(0, z.stream.lastSeq);
    SubsetSize(z.stream.retained, Range(0, z.stream.lastSeq));
  }

  // ----- which pipes share a cursor -----

  const UNCOLLARED := "uncollared:"

  /** The key of a pipe's cursor. Under a handle it leaves the manifold out. */
  function CursorKey(account: string, n: PipeName): string {
    if n.handle != "" then account + "." + n.handle + "." + n.name else UNCOLLARED + BuildSubject(account, n)
  }

  lemma CollaredKeyTokens(account: string, n: PipeName)
    requires ValidSegment(account) && ValidName(n) && n.handle != ""
    ensures Split(CursorKey(account, n), '.') == [account, n.handle, n.name]
  {
    ValidNoDot(account);
    ValidNoDot(n.handle);
    ValidNoDot(n.name);
    SplitToken(account, '.');
    SplitToken(n.handle, '.');
    SplitToken(n.name, '.');
    SplitAppend(account, '.', n.handle);
    SplitAppend(account + "." + n.handle, '.', n.name);
  }

  lemma CollaredKeyStart(account: string, n: PipeName)
    requires ValidSegment(account) && ValidName(n) && n.handle != ""
    ensures ':' !in Split(CursorKey(account, n), '.')[0]
  {
    CollaredKeyTokens(account, n);
    assert forall i :: 0 <= i < |account| ==> SegmentChar(account[i]);
  }

  lemma UncollaredKeyStart(account: string, n: PipeName)
    requires ValidSegment(account) && ValidName(n) && n.handle == ""
    ensures ':' in Split(CursorKey(account, n), '.')[0]
  {
    var key := CursorKey(account, n);
    SubjectForm(account, n);
    Associate(UNCOLLARED, account, Path(n));
    SplitAppend(UNCOLLARED + account, '.', Path(n));
    ValidNoDot(account);
    SplitToken(UNCOLLARED + account, '.');
    assert (UNCOLLARED + account)[10] == ':';
  }

  lemma Associate(a: string, b: string, c: string)
    ensures a + (b + "." + c) == a + b + "." + c
  {
  }

  /** Two pipes share a cursor iff both are under a handle of the same name, in any
      manifolds, with the same pipe name - or they are the same shared pipe. */
  lemma SharedKeyIff(account: string, a: PipeName, b: PipeName)
    requires ValidSegment(account) && ValidName(a) && ValidName(b)
    ensures CursorKey(account, a) == CursorKey(account, b) <==>
            a.handle == b.handle && if a.handle != "" then a.name == b.name else Path(a) == Path(b)
  {
    if a.handle != "" && b.handle != "" {
      CollaredKeyTokens(account, a);
      CollaredKeyTokens(account, b);
      assert [account, a.handle, a.name] == [account, b.handle, b.name] <==> a.handle == b.handle && a.name == b.name;
    } else if a.handle != "" {
      CollaredKeyStart(account, a);
      UncollaredKeyStart(account, b);
    } else if b.handle != "" {
      CollaredKeyStart(account, b);
      UncollaredKeyStart(account, a);
    } else {
      NamingFaithful(account, a, b);
      SuffixDecides(UNCOLLARED, BuildSubject(account, a), BuildSubject(account, b));
    }
  }

  /** What sharing does: whatever was read before, storing a read of one stream makes
      another stream under the same key wholly unread. */
  lemma SharedKeyForgets(e: Entry, upTo: nat, read: Stream, other: Stream)
    requires Proper(other) && upTo > 0
    requires read.created != 0 && other.created != 0 && read.created != other.created
    ensures Unread(Advanced(e, upTo, read.created), other) == |other.retained|
  {
    RangeSize(0, other.lastSeq);
    SubsetSize(other.retained, Range(0, other.lastSeq));
  }

  // ----- cursors and counts, from the numbers alone -----

  /** Where reading resumes: at the stored sequence, unless the entry is of another known
      incarnation or ahead of the stream - then from the start. */
  lemma CursorSpelledOut(e: Entry, created: int, lastSeq: nat)
    ensures EffectiveCursor(e, created, lastSeq) ==
            if e.seq_ <= lastSeq && (e.created == created || e.created == 0 || created == 0) then e.seq_ else 0
  {
  }

  /** What storing a read leaves: the later position of one incarnation, or outright the
      new one; reading nothing stores nothing. */
  lemma AdvanceSpelledOut(e: Entry, seq_: nat, created: int)
    ensures seq_ == 0 ==> Advanced(e, seq_, created) == e
    ensures seq_ > 0 && e.created == created ==>
              Advanced(e, seq_, created) == Entry(if seq_ > e.seq_ then seq_ else e.seq_, created)
    ensures seq_ > 0 && e.created != created ==> Advanced(e, seq_, created) == Entry(seq_, created)
  {
  }

  /** The reported count: what lies between cursor and end, but at most what is there. */
  lemma CountSpelledOut(e: Entry, st: Stream)
    ensures var c := EffectiveCursor(e, st.created, st.lastSeq);
            && Unread(e, st) <= st.lastSeq - c && Unread(e, st) <= |st.retained|
            && (Unread(e, st) == st.lastSeq - c || Unread(e, st) == |st.retained|)
  {
  }

  /** What happens to a stream: a message takes the next number and is retained, a purge
      only removes, and a recreated stream starts empty. */
  lemma StreamSpelledOut(y: State, kept: set<nat>, created: int)
    ensures var s := Step(y, Publish).stream;
            && s.created == y.stream.created && s.lastSeq == y.stream.lastSeq + 1
            && (forall i :: i in s.retained <==> i in y.stream.retained || i == s.lastSeq)
    ensures var s := Step(y, Purge(kept)).stream;
            && s.created == y.stream.created && s.lastSeq == y.stream.lastSeq
            && (forall i :: i in s.retained <==> i in y.stream.retained && i in kept)
    ensures Step(y, Recreate(created)).stream == Stream(created, 0, {})
    ensures Step(y, Publish).entry == Step(y, Purge(kept)).entry == Step(y, Recreate(created)).entry == y.entry
  {
  }
}
