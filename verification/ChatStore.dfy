/** The per-identity chat store (internal/chatstore/store.go), in memory. */
module ChatStore {
  import opened Common

  datatype Direction = In | Out

  /** Creation stamps and read markers sort like their text form; 0 is the empty
      stamp, before every real one. */
  datatype Message = Message(id: string, dir: Direction, sender: string, payload: string, createdAt: nat)

  datatype Kind = Agent | Source | Pipe

  datatype Window = Window(title: string, lastReadAt: nat, messages: seq<Message>, ids: set<string>, dirty: bool)

  type Key = (Kind, string)
  type Windows = map<Key, Window>

  function IdsOf(ms: seq<Message>): set<string> { set m | m in ms :: m.id }

  /** The dedup index agrees with the history, which holds no ID twice. */
  predicate Indexed(w: Window) {
    && w.ids == IdsOf(w.messages)
    && forall i, j :: 0 <= i < j < |w.messages| ==> w.messages[i].id != w.messages[j].id
  }

  predicate Consistent(wins: Windows) { forall k :: k in wins ==> Indexed(wins[k]) }

  predicate CountsUnread(m: Message, marker: nat) { m.dir == In && m.createdAt > marker }

  function UnreadAfter(ms: seq<Message>, marker: nat): nat {
    if ms == [] then 0
    else UnreadAfter(ms[..|ms| - 1], marker) + if CountsUnread(ms[|ms| - 1], marker) then 1 else 0
  }

  function Unread(w: Window): nat { UnreadAfter(w.messages, w.lastReadAt) }

  function Recorded(w: Window, m: Message): Window {
    if m.id in w.ids then w else w.(messages := w.messages + [m], ids := w.ids + {m.id}, dirty := true)
  }

  function RecordedAll(w: Window, ms: seq<Message>): Window {
    if ms == [] then w else Recorded(RecordedAll(w, ms[..|ms| - 1]), ms[|ms| - 1])
  }

  /** The window under `k`, created or retitled on the way. */
  function Opened(wins: Windows, k: Key, title: string): Window {
    if k !in wins then Window(title, 0, [], {}, true)
    else Retitled(wins[k], title)
  }

  function Retitled(w: Window, title: string): Window {
    if title != "" && w.title != title then w.(title := title, dirty := true) else w
  }

  function Ingested(wins: Windows, k: Key, title: string, m: Message): Windows {
    wins[k := Recorded(Opened(wins, k, title), m)]
  }

  function Max(a: nat, b: nat): nat { if a > b then a else b }

  function Merged(to: Window, from: Window): Window {
    RecordedAll(to, from.messages).(lastReadAt := Max(to.lastReadAt, from.lastReadAt), dirty := true)
  }

  function Migrated(wins: Windows, fromKind: Kind, toKind: Kind, name: string): Windows {
    var f, t := (fromKind, name), (toKind, name);
    if f !in wins then wins
    else if t in wins then wins[t := Merged(wins[t], wins[f])] - {f}
    else wins[t := wins[f].(dirty := true)] - {f}
  }

  function Newest(ms: seq<Message>, start: nat): (t: nat)
    ensures t >= start && forall i :: 0 <= i < |ms| ==> ms[i].createdAt <= t
  {
    if ms == [] then start else Max(Newest(ms[..|ms| - 1], start), ms[|ms| - 1].createdAt)
  }

  /** The marker moves to the newest message. */
  function MarkedRead(w: Window): (r: Window)
    ensures r.messages == w.messages && r.ids == w.ids && r.lastReadAt == Newest(w.messages, w.lastReadAt)
  {
    var newest := Newest(w.messages, w.lastReadAt);
    if newest == w.lastReadAt then w else w.(lastReadAt := newest, dirty := true)
  }

  class Store {
    var wins: Windows

    constructor ()
      ensures wins == map[]
    {
      wins := map[];
    }

    method Ingest(kind: Kind, name: string, title: string, m: Message) returns (added: bool)
      modifies this
      ensures wins == Ingested(old(wins), (kind, name), title, m)
      ensures added <==> m.id !in Opened(old(wins), (kind, name), title).ids
    {
      var k := (kind, name);
      var ws: Window;
      if k !in wins {
        ws := Window(title, 0, [], {}, true);
      } else {
        ws := wins[k];
        if title != "" && ws.title != title {
          ws := ws.(title := title, dirty := true);
        }
      }
      added := m.id !in ws.ids;
      if added {
        ws := ws.(messages := ws.messages + [m], ids := ws.ids + {m.id}, dirty := true);
      }
      wins := wins[k := ws];
    }

    /** Reading a window clears its unread count and never moves the marker back. */
    method MarkRead(kind: Kind, name: string)
      modifies this
      ensures wins == Step(old(wins), ReadOp((kind, name)))
      ensures (kind, name) in wins ==>
                Unread(wins[(kind, name)]) == 0 && wins[(kind, name)].lastReadAt >= old(wins)[(kind, name)].lastReadAt
    {
      var k := (kind, name);
      if k !in wins {
        return;
      }
      var ws := wins[k];
      var newest := ws.lastReadAt;
      for i := 0 to |ws.messages|
        invariant newest == Newest(ws.messages[..i], ws.lastReadAt)
      {
        assert ws.messages[..i + 1][..i] == ws.messages[..i];
        if ws.messages[i].createdAt > newest {
          newest := ws.messages[i].createdAt;
        }
      }
      assert ws.messages[..|ws.messages|] == ws.messages;
      if newest != ws.lastReadAt {
        wins := wins[k := ws.(lastReadAt := newest, dirty := true)];
      }
      NothingNewer(ws.messages, newest);
    }

    method CountUnread(kind: Kind, name: string) returns (n: nat)
      ensures n == if (kind, name) in wins then Unread(wins[(kind, name)]) else 0
    {
      n := 0;
      if (kind, name) !in wins {
        return;
      }
      var ws := wins[(kind, name)];
      for i := 0 to |ws.messages|
        invariant n == UnreadAfter(ws.messages[..i], ws.lastReadAt)
      {
        assert ws.messages[..i + 1][..i] == ws.messages[..i];
        if ws.messages[i].dir == In && ws.messages[i].createdAt > ws.lastReadAt {
          n := n + 1;
        }
      }
      assert ws.messages[..|ws.messages|] == ws.messages;
    }

    method AddPipe(name: string, title: string)
      modifies this
      ensures wins == Step(old(wins), AddPipeOp(name, title))
    {
      wins := wins[(Pipe, name) := Opened(wins, (Pipe, name), title)];
    }

    method RemovePipe(name: string)
      modifies this
      ensures wins == Step(old(wins), RemovePipeOp(name))
    {
      wins := wins - {(Pipe, name)};
    }

    method Migrate(fromKind: Kind, toKind: Kind, name: string)
      modifies this
      ensures wins == Migrated(old(wins), fromKind, toKind, name)
    {
      var f, t := (fromKind, name), (toKind, name);
      if f !in wins {
        return;
      }
      var from := wins[f];
      if t in wins {
        var to := wins[t];
        for i := 0 to |from.messages|
          invariant to == RecordedAll(wins[t], from.messages[..i])
        {
          assert from.messages[..i + 1][..i] == from.messages[..i];
          var m := from.messages[i];
          if m.id !in to.ids {
            to := to.(ids := to.ids + {m.id}, messages := to.messages + [m], dirty := true);
          }
        }
        assert from.messages[..|from.messages|] == from.messages;
        RecordedAllMarker(wins[t], from.messages);
        if from.lastReadAt > to.lastReadAt {
          to := to.(lastReadAt := from.lastReadAt);
        }
        wins := wins[t := to.(dirty := true)];
      } else {
        wins := wins[t := from.(dirty := true)];
      }
      wins := wins - {f};
    }
  }

  lemma {:induction false} NothingNewer(ms: seq<Message>, marker: nat)
    requires forall i :: 0 <= i < |ms| ==> ms[i].createdAt <= marker
    ensures UnreadAfter(ms, marker) == 0
  {
    if ms != [] { NothingNewer(ms[..|ms| - 1], marker); }
  }

  lemma {:induction false} RecordedAllMarker(w: Window, ms: seq<Message>)
    ensures RecordedAll(w, ms).lastReadAt == w.lastReadAt && RecordedAll(w, ms).title == w.title
  {
    if ms != [] { RecordedAllMarker(w, ms[..|ms| - 1]); }
  }

  // ----- the index invariant, over runs -----

  datatype Op =
    | IngestOp(key: Key, title: string, m: Message)
    | ReadOp(key: Key)
    | MigrateOp(fromKind: Kind, toKind: Kind, name: string)
    | AddPipeOp(name: string, title: string)
    | RemovePipeOp(name: string)

  function Step(wins: Windows, op: Op): Windows {
    match op
    case IngestOp(k, title, m) => Ingested(wins, k, title, m)
    case ReadOp(k) => if k !in wins then wins else wins[k := MarkedRead(wins[k])]
    case MigrateOp(f, t, name) => Migrated(wins, f, t, name)
    case AddPipeOp(name, title) => wins[(Pipe, name) := Opened(wins, (Pipe, name), title)]
    case RemovePipeOp(name) => wins - {(Pipe, name)}
  }

  function Run(ops: seq<Op>): Windows {
    if ops == [] then map[] else Step(Run(ops[..|ops| - 1]), ops[|ops| - 1])
  }

  lemma RecordedIndexed(w: Window, m: Message)
    requires Indexed(w)
    ensures Indexed(Recorded(w, m))
    ensures Recorded(w, m).ids == w.ids + {m.id}
  {
    if m.id !in w.ids {
      var ms := w.messages + [m];
      forall i | 0 <= i < |w.messages| ensures w.messages[i].id != m.id {
        assert w.messages[i] in w.messages;
      }
      forall x ensures x in IdsOf(ms) <==> x in w.ids || x == m.id {
        if x == m.id { assert ms[|w.messages|] == m; }
        if x in w.ids { var y :| y in w.messages && y.id == x; assert y in ms; }
      }
    }
  }

  lemma {:induction false} RecordedAllIndexed(w: Window, ms: seq<Message>)
    requires Indexed(w)
    ensures Indexed(RecordedAll(w, ms))
    ensures RecordedAll(w, ms).ids == w.ids + IdsOf(ms)
  {
    if ms != [] {
      var n := |ms| - 1;
      RecordedAllIndexed(w, ms[..n]);
      RecordedIndexed(RecordedAll(w, ms[..n]), ms[n]);
      assert ms == ms[..n] + [ms[n]];
    }
  }

  /** In every reachable store each window's IDs are unique and exactly its index. */
  lemma {:induction false} AlwaysConsistent(ops: seq<Op>)
    ensures Consistent(Run(ops))
  {
    if ops != [] {
      var n := |ops| - 1;
      var wins, op := Run(ops[..n]), ops[n];
      AlwaysConsistent(ops[..n]);
      match op
      case IngestOp(k, title, m) => RecordedIndexed(Opened(wins, k, title), m);
      case ReadOp(k) =>
      case MigrateOp(f, t, name) =>
        if (f, name) in wins && (t, name) in wins {
          RecordedAllIndexed(wins[(t, name)], wins[(f, name)].messages);
        }
      case AddPipeOp(name, title) =>
      case RemovePipeOp(name) =>
    }
  }

  // ----- what a run leaves in the store -----

  /** Where a message held under `home` is held after `op`. */
  function Moved(home: Option<Key>, op: Op): Option<Key> {
    match op
    case RemovePipeOp(name) => if home == Some((Pipe, name)) then None else home
    case MigrateOp(f, t, name) =>
      if home != Some((f, name)) then home else if f == t then None else Some((t, name))
    case _ => home
  }

  /** The window holding, at the end of the run, the message its i-th step ingested:
      followed through migrations, lost with a removed pipe or a self-migration. */
  function HomeOf(ops: seq<Op>, i: nat): Option<Key>
    requires i < |ops| && ops[i].IngestOp?
  {
    var n := |ops| - 1;
    if i == n then Some(ops[i].key) else Moved(HomeOf(ops[..n], i), ops[n])
  }

  predicate Delivers(ops: seq<Op>, i: nat, k: Key, id: string)
    requires i < |ops|
  {
    ops[i].IngestOp? && ops[i].m.id == id && HomeOf(ops, i) == Some(k)
  }

  /** Some step of the run ingested `id`, and its home is now `k`. */
  predicate Delivered(ops: seq<Op>, k: Key, id: string) {
    exists i: nat :: i < |ops| && Delivers(ops, i, k, id)
  }

  predicate Holds(wins: Windows, k: Key, id: string) { k in wins && id in wins[k].ids }

  lemma DeliveredSnoc(ops: seq<Op>, op: Op, k: Key, id: string)
    ensures Delivered(ops + [op], k, id) <==>
            || (op.IngestOp? && op.m.id == id && op.key == k)
            || exists home :: Delivered(ops, home, id) && Moved(Some(home), op) == Some(k)
  {
    var more := ops + [op];
    assert more[..|ops|] == ops;
    if Delivered(more, k, id) {
      var i: nat :| i < |more| && Delivers(more, i, k, id);
      if i < |ops| {
        var home := HomeOf(ops, i).value;
        assert Delivers(ops, i, home, id);
      }
    }
    if op.IngestOp? && op.m.id == id && op.key == k {
      assert Delivers(more, |ops|, k, id);
    }
    if home :| Delivered(ops, home, id) && Moved(Some(home), op) == Some(k) {
      var i: nat :| i < |ops| && Delivers(ops, i, home, id);
      assert Delivers(more, i, k, id);
    }
  }

  lemma HoldsStep(wins: Windows, op: Op, k: Key, id: string)
    requires Consistent(wins)
    ensures Holds(Step(wins, op), k, id) <==>
            || (op.IngestOp? && op.m.id == id && op.key == k)
            || exists home :: Holds(wins, home, id) && Moved(Some(home), op) == Some(k)
  {
    assert Holds(wins, k, id) && Moved(Some(k), op) == Some(k) ==>
        exists home :: Holds(wins, home, id) && Moved(Some(home), op) == Some(k);
    match op
    case IngestOp(_, title, m) =>
    case MigrateOp(f, t, name) =>
      if f != t && (f, name) in wins {
        MigrationKeepsAll(wins, f, t, name);
        assert Moved(Some((f, name)), op) == Some((t, name));
      }
    case _ =>
  }

  /** In every run, a window holds exactly the IDs that were ingested and have their
      home there: nothing is lost and nothing is made up. */
  lemma {:induction false} StoreIsItsHistory(ops: seq<Op>, k: Key, id: string)
    ensures Holds(Run(ops), k, id) <==> Delivered(ops, k, id)
  {
    if ops != [] {
      var n := |ops| - 1;
      assert ops == ops[..n] + [ops[n]];
      forall home ensures Holds(Run(ops[..n]), home, id) <==> Delivered(ops[..n], home, id) {
        StoreIsItsHistory(ops[..n], home, id);
      }
      AlwaysConsistent(ops[..n]);
      HoldsStep(Run(ops[..n]), ops[n], k, id);
      DeliveredSnoc(ops[..n], ops[n], k, id);
    }
  }

  predicate KeepsTitle(wins: Windows, k: Key, title: string) {
    title == "" || (k in wins && wins[k].title == title)
  }

  lemma IngestFreeIff(wins: Windows, k: Key, title: string, m: Message)
    ensures Ingested(wins, k, title, m) == wins <==> Holds(wins, k, m.id) && KeepsTitle(wins, k, title)
  {
    var after := Ingested(wins, k, title, m);
    if Holds(wins, k, m.id) && KeepsTitle(wins, k, title) {
      assert after == wins;
    } else if k in wins && m.id !in wins[k].ids {
      assert |after[k].messages| == |wins[k].messages| + 1;
    } else if k in wins {
      assert after[k].title != wins[k].title;
    } else {
      assert k in after;
    }
  }

  /** A redelivery leaves a reachable store untouched exactly when an earlier delivery
      of that ID has its home in that window and the title says nothing new. */
  lemma ReplayFreeIff(ops: seq<Op>, k: Key, title: string, m: Message)
    ensures Run(ops + [IngestOp(k, title, m)]) == Run(ops) <==>
            Delivered(ops, k, m.id) && KeepsTitle(Run(ops), k, title)
  {
    RunSnoc(ops, IngestOp(k, title, m));
    IngestFreeIff(Run(ops), k, title, m);
    StoreIsItsHistory(ops, k, m.id);
  }

  lemma RunSnoc(ops: seq<Op>, op: Op)
    ensures Run(ops + [op]) == Step(Run(ops), op)
  {
    assert (ops + [op])[..|ops|] == ops;
  }

  /** The launch replay burst is free: redelivering any of a run's messages, in any
      order and number, to the windows that hold them changes nothing at all. */
  lemma {:induction false} ReplayChangesNothing(ops: seq<Op>, replay: seq<Op>)
    requires forall r :: r in replay ==>
               r.IngestOp? && Delivered(ops, r.key, r.m.id) && KeepsTitle(Run(ops), r.key, r.title)
    ensures Run(ops + replay) == Run(ops)
  {
    if replay == [] {
      assert ops + replay == ops;
    } else {
      var n := |replay| - 1;
      ReplayChangesNothing(ops, replay[..n]);
      assert ops + replay == (ops + replay[..n]) + [replay[n]];
      RunSnoc(ops + replay[..n], replay[n]);
      var r := replay[n];
      StoreIsItsHistory(ops, r.key, r.m.id);
      IngestFreeIff(Run(ops), r.key, r.title, r.m);
    }
  }

  // ----- migration -----

  lemma {:induction false} UnreadLater(ms: seq<Message>, marker: nat, later: nat)
    requires marker <= later
    ensures UnreadAfter(ms, later) <= UnreadAfter(ms, marker)
  {
    if ms != [] { UnreadLater(ms[..|ms| - 1], marker, later); }
  }

  lemma {:induction false} UnreadAdds(w: Window, ms: seq<Message>, marker: nat)
    ensures UnreadAfter(RecordedAll(w, ms).messages, marker) <=
            UnreadAfter(w.messages, marker) + UnreadAfter(ms, marker)
  {
    if ms != [] {
      var n := |ms| - 1;
      UnreadAdds(w, ms[..n], marker);
      var r := RecordedAll(w, ms[..n]).messages;
      assert (r + [ms[n]])[..|r|] == r;
    }
  }

  /** Migrating between different kinds keeps every ID of both windows, the later
      read marker, at most the two unread counts together, and touches nothing else. */
  lemma MigrationKeepsAll(wins: Windows, fromKind: Kind, toKind: Kind, name: string)
    requires Consistent(wins) && fromKind != toKind && (fromKind, name) in wins
    ensures var f, t := (fromKind, name), (toKind, name);
            var after := Migrated(wins, fromKind, toKind, name);
            var was := if t in wins then wins[t] else Window("", 0, [], {}, false);
            && f !in after && t in after && Indexed(after[t])
            && after[t].ids == wins[f].ids + was.ids
            && after[t].lastReadAt == Max(wins[f].lastReadAt, was.lastReadAt)
            && Unread(after[t]) <= Unread(wins[f]) + Unread(was)
            && forall k :: k != f && k != t ==> (k in after <==> k in wins) && (k in wins ==> after[k] == wins[k])
  {
    var f, t := (fromKind, name), (toKind, name);
    if t in wins {
      var marker := Max(wins[t].lastReadAt, wins[f].lastReadAt);
      RecordedAllIndexed(wins[t], wins[f].messages);
      UnreadAdds(wins[t], wins[f].messages, marker);
      UnreadLater(wins[t].messages, wins[t].lastReadAt, marker);
      UnreadLater(wins[f].messages, wins[f].lastReadAt, marker);
    }
  }

  /** The kinds must differ: migrating a window onto itself drops it, so messages
      survive a migration exactly when the kinds differ or there was none. */
  lemma MigrationSafeIff(wins: Windows, fromKind: Kind, toKind: Kind, name: string)
    requires Consistent(wins)
    ensures (fromKind, name) in wins ==>
              ((toKind, name) in Migrated(wins, fromKind, toKind, name) <==> fromKind != toKind)
  {
  }

  /** What a window holds, apart from its title and whether it is on disk. */
  function Held(w: Window): (seq<Message>, set<string>, nat) { (w.messages, w.ids, w.lastReadAt) }

  lemma MergeThenRecord(to: Window, from: Window, title: string, m: Message)
    requires Indexed(to) && Indexed(from)
    ensures Held(Merged(to, Recorded(Retitled(from, title), m))) == Held(Recorded(Retitled(Merged(to, from), title), m))
    ensures Merged(to, Recorded(Retitled(from, title), m)).title == to.title
    ensures Recorded(Retitled(Merged(to, from), title), m).title == Retitled(to, title).title
  {
    RecordedAllIndexed(to, from.messages);
    RecordedAllMarker(to, from.messages);
    if m.id !in from.ids {
      assert (from.messages + [m])[..|from.messages|] == from.messages;
    }
  }

  lemma MergeFirstMessage(to: Window, title: string, m: Message)
    ensures Held(Merged(to, Window(title, 0, [m], {m.id}, true))) == Held(Recorded(Retitled(to, title), m))
    ensures Merged(to, Window(title, 0, [m], {m.id}, true)).title == to.title
  {
    assert [m][..0] == [];
    assert RecordedAll(to, [m]) == Recorded(to, m);
  }

  ghost predicate SameElsewhere(a: Windows, b: Windows, f: Key, t: Key) {
    forall k :: k != f && k != t ==> (k in a <==> k in b) && (k in a ==> a[k] == b[k])
  }

  /** The target's window when the message came first. */
  function ArrivedBefore(wins: Windows, f: Key, t: Key, title: string, m: Message): Window {
    var from := Recorded(Opened(wins, f, title), m);
    if t in wins then Merged(wins[t], from) else from.(dirty := true)
  }

  /** The target's window when the migration came first. */
  function ArrivedAfter(wins: Windows, f: Key, t: Key, title: string, m: Message): Window {
    if f !in wins then Recorded(Opened(wins, t, title), m)
    else Recorded(Retitled(if t in wins then Merged(wins[t], wins[f]) else wins[f].(dirty := true), title), m)
  }

  lemma IngestThenMigrate(wins: Windows, fromKind: Kind, toKind: Kind, name: string, title: string, m: Message)
    requires fromKind != toKind
    ensures var f, t := (fromKind, name), (toKind, name);
            var before := Migrated(Ingested(wins, f, title, m), fromKind, toKind, name);
            && f !in before && t in before && before[t] == ArrivedBefore(wins, f, t, title, m)
            && SameElsewhere(before, wins, f, t)
  {
  }

  lemma MigrateThenIngest(wins: Windows, fromKind: Kind, toKind: Kind, name: string, title: string, m: Message)
    requires fromKind != toKind
    ensures var f, t := (fromKind, name), (toKind, name);
            var after := Ingested(Migrated(wins, fromKind, toKind, name), t, title, m);
            && f !in after && t in after && after[t] == ArrivedAfter(wins, f, t, title, m)
            && SameElsewhere(after, wins, f, t)
  {
  }

  lemma WindowsAgree(wins: Windows, f: Key, t: Key, title: string, m: Message)
    requires Consistent(wins) && f != t
    ensures var before, after := ArrivedBefore(wins, f, t, title, m), ArrivedAfter(wins, f, t, title, m);
            && Held(before) == Held(after)
            && (before.title == after.title <==> t !in wins || KeepsTitle(wins, t, title))
  {
    if t in wins && f in wins {
      MergeThenRecord(wins[t], wins[f], title, m);
    } else if t in wins {
      MergeFirstMessage(wins[t], title, m);
    }
  }

  /** The same windows, whatever is still to be written to disk. */
  predicate SameButDirty(a: Windows, b: Windows) {
    && a.Keys == b.Keys
    && forall k :: k in a ==> a[k].(dirty := true) == b[k].(dirty := true)
  }

  /** Learning late that an agent is a message source costs nothing: whether a message
      arrives under the old kind before the migration or under the new one after, the
      window holds the same history, index and marker, and no other window differs. */
  lemma MigrateCommutesWithIngest(
    wins: Windows, fromKind: Kind, toKind: Kind, name: string, title: string, m: Message)
    requires Consistent(wins) && fromKind != toKind
    ensures var f, t := (fromKind, name), (toKind, name);
            var before := Migrated(Ingested(wins, f, title, m), fromKind, toKind, name);
            var after := Ingested(Migrated(wins, fromKind, toKind, name), t, title, m);
            && f !in before && f !in after && t in before && t in after
            && Held(before[t]) == Held(after[t])
            && (before[t].title == after[t].title <==> t !in wins || KeepsTitle(wins, t, title))
            && SameElsewhere(before, after, f, t)
  {
    IngestThenMigrate(wins, fromKind, toKind, name, title, m);
    MigrateThenIngest(wins, fromKind, toKind, name, title, m);
    WindowsAgree(wins, (fromKind, name), (toKind, name), title, m);
  }

  lemma SameButTitle(a: Windows, b: Windows, f: Key, t: Key)
    requires f !in a && f !in b && t in a && t in b && Held(a[t]) == Held(b[t]) && SameElsewhere(a, b, f, t)
    ensures SameButDirty(a, b) <==> a[t].title == b[t].title
  {
    assert a.Keys == b.Keys;
  }

  /** The two orders leave one store exactly when the kinds differ and the message
      does not retitle a window that was already there. */
  lemma MigrateCommutesIff(wins: Windows, fromKind: Kind, toKind: Kind, name: string, title: string, m: Message)
    requires Consistent(wins)
    ensures SameButDirty(Migrated(Ingested(wins, (fromKind, name), title, m), fromKind, toKind, name),
                         Ingested(Migrated(wins, fromKind, toKind, name), (toKind, name), title, m)) <==>
            fromKind != toKind && ((toKind, name) !in wins || KeepsTitle(wins, (toKind, name), title))
  {
    if fromKind != toKind {
      MigrateCommutesWithIngest(wins, fromKind, toKind, name, title, m);
      SameButTitle(Migrated(Ingested(wins, (fromKind, name), title, m), fromKind, toKind, name),
                   Ingested(Migrated(wins, fromKind, toKind, name), (toKind, name), title, m),
                   (fromKind, name), (toKind, name));
    } else {
      assert (fromKind, name) !in Migrated(Ingested(wins, (fromKind, name), title, m), fromKind, toKind, name);
    }
  }

  // ----- the operations, from the windows alone -----

  /** The unread messages are the inbound ones newer than the marker. */
  lemma {:induction false} UnreadSpelledOut(ms: seq<Message>, marker: nat)
    ensures UnreadAfter(ms, marker) == |set i | 0 <= i < |ms| && ms[i].dir == In && ms[i].createdAt > marker|
  {
    if ms != [] {
      UnreadSpelledOut(ms[..|ms| - 1], marker);
      UnreadPlaces(ms, marker);
    }
  }

  lemma UnreadPlaces(ms: seq<Message>, marker: nat)
    requires ms != []
    ensures var n := |ms| - 1;
            (set i | 0 <= i < |ms| && ms[i].dir == In && ms[i].createdAt > marker) ==
            (set i | 0 <= i < |ms[..n]| && ms[..n][i].dir == In && ms[..n][i].createdAt > marker) +
            if ms[n].dir == In && ms[n].createdAt > marker then {n} else {}
  {
  }

  /** Ingesting under a key touches that window only, creates it empty and unread if
      need be, and adds the message at its end unless its ID is there already. */
  lemma IngestSpelledOut(wins: Windows, k: Key, title: string, m: Message)
    ensures var after := Ingested(wins, k, title, m);
            && after.Keys == wins.Keys + {k}
            && (forall j :: j in wins && j != k ==> after[j] == wins[j])
            && (k !in wins ==> after[k] == Window(title, 0, [m], {m.id}, true))
            && (k in wins ==>
                  && after[k].messages == wins[k].messages + (if m.id in wins[k].ids then [] else [m])
                  && after[k].ids == wins[k].ids + {m.id}
                  && after[k].lastReadAt == wins[k].lastReadAt
                  && after[k].title == (if title == "" then wins[k].title else title)
                  && (after[k].dirty <==> wins[k].dirty || after[k] != wins[k]))
  {
    if k in wins && m.id in wins[k].ids { assert wins[k].ids + {m.id} == wins[k].ids; }
  }

  /** Reading moves the marker to the newest message, or leaves it where it is. */
  lemma {:induction false} NewestSpelledOut(ms: seq<Message>, start: nat)
    ensures Newest(ms, start) >= start && forall i :: 0 <= i < |ms| ==> ms[i].createdAt <= Newest(ms, start)
    ensures Newest(ms, start) == start || exists i :: 0 <= i < |ms| && ms[i].createdAt == Newest(ms, start)
  {
    if ms != [] {
      var n := |ms| - 1;
      NewestSpelledOut(ms[..n], start);
      if Newest(ms[..n], start) != start {
        var i :| 0 <= i < n && ms[..n][i].createdAt == Newest(ms[..n], start);
        assert ms[i].createdAt == Newest(ms[..n], start);
      }
    }
  }

  /** A migration, as a whole: the target keeps its history and title, gains the messages
      it does not have in their order, and takes the later of the two markers. */
  lemma MergeSpelledOut(to: Window, from: Window)
    requires Indexed(to) && Indexed(from)
    ensures var w := Merged(to, from);
            && w.title == to.title && w.dirty && Indexed(w)
            && to.messages <= w.messages && w.ids == to.ids + from.ids
            && w.lastReadAt >= to.lastReadAt && w.lastReadAt >= from.lastReadAt
            && w.lastReadAt in {to.lastReadAt, from.lastReadAt}
            && (forall m :: m in w.messages ==> m in to.messages || m in from.messages)
            && (forall m :: m in from.messages && m.id !in to.ids ==> m in w.messages)
  {
    RecordedAllIndexed(to, from.messages);
    RecordedAllMarker(to, from.messages);
    RecordedAllSpelledOut(to, from.messages);
  }

  lemma {:induction false} RecordedAllSpelledOut(to: Window, ms: seq<Message>)
    requires Indexed(to)
    requires forall i, j :: 0 <= i < j < |ms| ==> ms[i].id != ms[j].id
    ensures var w := RecordedAll(to, ms);
            && to.messages <= w.messages
            && (forall m :: m in w.messages ==> m in to.messages || m in ms)
            && (forall m :: m in ms && m.id !in to.ids ==> m in w.messages)
  {
    if ms != [] {
      var n := |ms| - 1;
      var init := ms[..n];
      RecordedAllSpelledOut(to, init);
      RecordedAllIndexed(to, init);
      assert ms == init + [ms[n]];
      assert ms[n].id !in IdsOf(init);
    }
  }
}
