/** An account's stored rows and the two views the credential path takes of them
    (internal/db/sources.go, internal/server/acl_enforce.go): the list of all pipes
    and the lookup from handle to source. */
module Inventory {
  import opened Acl
  import opened Naming

  datatype SourceKind = MessageSource | PtySource

  /** A source row with the names of its stored pipes. */
  datatype Source = Source(manifold: string, handle: string, kind: SourceKind, created: seq<string>, createdBy: Uuid)

  datatype UncollaredPipe = UncollaredPipe(manifold: string, name: string)

  datatype Account = Account(sources: seq<Source>, uncollared: seq<UncollaredPipe>)

  /** The pipes a source has without any row. */
  function AutoPipes(kind: SourceKind): seq<string> {
    match kind
    case PtySource => ["stdin", "stdout", "stdctrl", "system", "inbox", "heartbeat"]
    case MessageSource => ["inbox"]
  }

  function NamesUnder(src: Source): seq<PipeName> {
    var names := AutoPipes(src.kind) + src.created;
    seq(|names|, i requires 0 <= i < |names| => PipeName(src.manifold, src.handle, names[i]))
  }

  function SharedNames(rows: seq<UncollaredPipe>): seq<PipeName> {
    seq(|rows|, i requires 0 <= i < |rows| => PipeName(rows[i].manifold, "", rows[i].name))
  }

  function CollaredNames(sources: seq<Source>): seq<PipeName> {
    if sources == [] then []
    else CollaredNames(sources[..|sources| - 1]) + NamesUnder(sources[|sources| - 1])
  }

  function NamesOf(acct: Account): seq<PipeName> {
    CollaredNames(acct.sources) + SharedNames(acct.uncollared)
  }

  /** What the create paths have let into the tables. */
  predicate ValidAccount(acct: Account) {
    && (forall src :: src in acct.sources ==> src.handle != "")
    && (forall n :: n in NamesOf(acct) ==> ValidName(n))
  }

  /** The enumeration's loops, before repeated paths are dropped. */
  method EnumerateNames(acct: Account) returns (names: seq<PipeName>)
    ensures names == NamesOf(acct)
  {
    names := [];
    for i := 0 to |acct.sources|
      invariant names == CollaredNames(acct.sources[..i])
    {
      assert acct.sources[..i + 1][..i] == acct.sources[..i];
      names := names + NamesUnder(acct.sources[i]);
    }
    assert acct.sources[..|acct.sources|] == acct.sources;
    names := names + SharedNames(acct.uncollared);
  }

  /** The lookup by bare handle. Handles are unique only within a manifold, so a later
      row replaces an earlier one of the same name. */
  function SourceMap(sources: seq<Source>): map<string, Source> {
    if sources == [] then map[]
    else
      var last := sources[|sources| - 1];
      SourceMap(sources[..|sources| - 1])[last.handle := last]
  }

  method CollectSources(sources: seq<Source>) returns (byHandle: map<string, Source>)
    ensures byHandle == SourceMap(sources)
  {
    byHandle := map[];
    for i := 0 to |sources|
      invariant byHandle == SourceMap(sources[..i])
    {
      assert sources[..i + 1][..i] == sources[..i];
      byHandle := byHandle[sources[i].handle := sources[i]];
    }
    assert sources[..|sources|] == sources;
  }

  predicate LastUnder(sources: seq<Source>, handle: string, i: nat) {
    && i < |sources| && sources[i].handle == handle
    && forall j :: i < j < |sources| ==> sources[j].handle != handle
  }

  lemma LastUnderSnoc(sources: seq<Source>, src: Source, handle: string, i: nat)
    ensures LastUnder(sources + [src], handle, i) <==>
            if src.handle == handle then i == |sources| else LastUnder(sources, handle, i)
  {
    var more := sources + [src];
    assert more[|sources|] == src;
    assert forall j :: 0 <= j < |sources| ==> more[j] == sources[j];
  }

  /** A handle is found iff some row carries it, and what is found is its last row. */
  lemma {:induction false} LookupIsLastRow(sources: seq<Source>, handle: string, i: nat)
    ensures LastUnder(sources, handle, i) ==> handle in SourceMap(sources) && SourceMap(sources)[handle] == sources[i]
    ensures (forall j: nat :: !LastUnder(sources, handle, j)) ==> handle !in SourceMap(sources)
  {
    if sources != [] {
      var n := |sources| - 1;
      assert sources == sources[..n] + [sources[n]];
      LookupIsLastRow(sources[..n], handle, i);
      forall j: nat ensures LastUnder(sources, handle, j) <==>
          if sources[n].handle == handle then j == n else LastUnder(sources[..n], handle, j)
      {
        LastUnderSnoc(sources[..n], sources[n], handle, j);
      }
      assert LastUnder(sources, handle, n) || sources[n].handle != handle;
    }
  }

  /** Every row's handle is found, under that name. */
  lemma {:induction false} ListedIsFound(sources: seq<Source>, src: Source)
    requires src in sources
    ensures src.handle in SourceMap(sources)
  {
    var n := |sources| - 1;
    if src != sources[n] {
      assert sources == sources[..n] + [sources[n]];
      ListedIsFound(sources[..n], src);
    }
  }

  lemma {:induction false} FoundIsListed(sources: seq<Source>, handle: string)
    requires handle in SourceMap(sources)
    ensures SourceMap(sources)[handle] in sources && SourceMap(sources)[handle].handle == handle
  {
    var n := |sources| - 1;
    if sources[n].handle != handle {
      FoundIsListed(sources[..n], handle);
    }
  }

  lemma {:induction false} CollaredNamesOf(sources: seq<Source>, n: PipeName)
    ensures n in CollaredNames(sources) <==> exists src :: src in sources && n in NamesUnder(src)
  {
    if sources != [] {
      var last := |sources| - 1;
      CollaredNamesOf(sources[..last], n);
      assert sources == sources[..last] + [sources[last]];
    }
  }

  /** The list of pipes is complete: a source's automatic and stored pipes under its
      own manifold and handle, the shared pipes under none, and nothing else. */
  lemma NamesOfExact(acct: Account, n: PipeName)
    ensures n in NamesOf(acct) <==>
            || (exists src :: src in acct.sources && n.manifold == src.manifold && n.handle == src.handle &&
                              n.name in AutoPipes(src.kind) + src.created)
            || (n.handle == "" && UncollaredPipe(n.manifold, n.name) in acct.uncollared)
  {
    CollaredNamesOf(acct.sources, n);
    forall src: Source
      ensures n in NamesUnder(src) <==>
              n.manifold == src.manifold && n.handle == src.handle && n.name in AutoPipes(src.kind) + src.created
    {
      UnderItsOwnHandle(src, n);
    }
    SharedExact(acct.uncollared, n);
  }

  lemma UnderItsOwnHandle(src: Source, n: PipeName)
    ensures n in NamesUnder(src) <==>
            n.manifold == src.manifold && n.handle == src.handle && n.name in AutoPipes(src.kind) + src.created
  {
    var names := AutoPipes(src.kind) + src.created;
    if n.manifold == src.manifold && n.handle == src.handle && n.name in names {
      var i :| 0 <= i < |names| && names[i] == n.name;
      assert NamesUnder(src)[i] == n;
    }
  }

  lemma SharedExact(rows: seq<UncollaredPipe>, n: PipeName)
    ensures n in SharedNames(rows) <==> n.handle == "" && UncollaredPipe(n.manifold, n.name) in rows
  {
    if n.handle == "" && UncollaredPipe(n.manifold, n.name) in rows {
      var i :| 0 <= i < |rows| && rows[i] == UncollaredPipe(n.manifold, n.name);
      assert SharedNames(rows)[i] == n;
    }
  }

  /** The pipes of an account, name by name. */
  lemma PipesSpelledOut(acct: Account, n: PipeName)
    ensures n in NamesOf(acct) <==>
            || (exists src :: src in acct.sources && n.manifold == src.manifold && n.handle == src.handle &&
                  (n.name == "inbox" || n.name in src.created ||
                   (src.kind == PtySource && n.name in {"stdin", "stdout", "stdctrl", "system", "heartbeat"})))
            || (n.handle == "" && UncollaredPipe(n.manifold, n.name) in acct.uncollared)
  {
    NamesOfExact(acct, n);
    forall src: Source
      ensures n.name in AutoPipes(src.kind) + src.created <==>
              n.name == "inbox" || n.name in src.created ||
              (src.kind == PtySource && n.name in {"stdin", "stdout", "stdctrl", "system", "heartbeat"})
    {
      AutoPipesSpelledOut(src.kind, n.name);
    }
  }

  lemma AutoPipesSpelledOut(kind: SourceKind, name: string)
    ensures name in AutoPipes(kind) <==>
            name == "inbox" || (kind == PtySource && name in {"stdin", "stdout", "stdctrl", "system", "heartbeat"})
  {
    var names := AutoPipes(kind);
    if kind == PtySource {
      assert names[0] == "stdin" && names[1] == "stdout" && names[2] == "stdctrl";
      assert names[3] == "system" && names[4] == "inbox" && names[5] == "heartbeat";
    } else {
      assert names[0] == "inbox";
    }
  }
}
