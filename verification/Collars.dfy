/** Whose pipe a pipe is. The documented defaults (docs/ACL.md) put every pipe under a
    handle in its owner's hands; evaluation finds the handle by the path's first
    segment (internal/server/acl_enforce.go). When the two are the same. */
module Collars {
  import opened Text
  import opened Acl
  import opened Naming
  import opened Inventory
  import opened Credentials

  /** The pipe as documented: under its source's handle, owned by its creator. */
  function OwnSubject(src: Source, n: PipeName): Subject { Subject(Path(n), src.handle, n.name, src.createdBy) }

  /** A pipe in shared space. */
  function SharedSubject(n: PipeName): Subject { Subject(Path(n), "", n.name, NIL_ID) }

  /** What evaluation looks up. */
  function FirstSegment(n: PipeName): string { Split(Path(n), '.')[0] }

  /** For everyone and whatever the grants, access to `n` is access to `s`. */
  ghost predicate EvaluatedAs(sources: map<string, Source>, n: PipeName, s: Subject) {
    forall p, grants :: AccessTo(p, grants, sources, Path(n)) == Access(p, s, grants)
  }

  lemma FirstSegmentIs(n: PipeName)
    requires ValidName(n)
    ensures FirstSegment(n) ==
            if n.manifold != "" then Split(n.manifold, '.')[0] else if n.handle != "" then n.handle else n.name
    ensures |Split(Path(n), '.')| >= 2 <==> n.manifold != "" || n.handle != ""
  {
    SegmentTokens(n.name);
    if n.handle != "" {
      SegmentTokens(n.handle);
      SplitAppend(n.handle, '.', n.name);
    }
    if n.manifold != "" {
      SplitAppend(n.manifold, '.', if n.handle != "" then n.handle + "." + n.name else n.name);
    }
  }

  /** The subject evaluation builds, in terms of the stored rows. */
  lemma SubjectIs(sources: map<string, Source>, n: PipeName)
    requires ValidName(n)
    ensures SubjectFor(Path(n), sources) ==
            if (n.manifold != "" || n.handle != "") && FirstSegment(n) in sources
            then Subject(Path(n), sources[FirstSegment(n)].handle, n.name, sources[FirstSegment(n)].createdBy)
            else SharedSubject(n)
  {
    FirstSegmentIs(n);
    PathEndsWithName(n);
  }

  /** Access sees a subject only through its path, its name, its owner and whether it
      has a collar at all. */
  lemma AccessDependsOn(p: Principal, a: Subject, b: Subject, grants: seq<Grant>)
    requires a.path == b.path && a.name == b.name && a.owner == b.owner && (a.collar == "" <==> b.collar == "")
    ensures Access(p, a, grants) == Access(p, b, grants)
  {
    forall c: Cap ensures Conferred(p, a, grants, c) <==> Conferred(p, b, grants, c) {
      assert forall g: Grant :: Confers(p, a, g, c) == Confers(p, b, g, c);
    }
  }

  function Member(id: Uuid): Principal { Principal(id, "", "member") }

  lemma NoGrants(p: Principal, s: Subject)
    ensures Access(p, s, []) == BaseAccess(p, s)
  {
  }

  /** Shared space and a handle never grant alike. */
  lemma CollarShows(a: Subject, b: Subject)
    requires a.collar == "" && b.collar != ""
    ensures exists p :: Access(p, a, []) != Access(p, b, [])
  {
    var p := Member(b.owner + 1);
    NoGrants(p, a);
    NoGrants(p, b);
    assert Read in Access(p, a, []) && Write in Access(p, a, []);
    assert !(Read in Access(p, b, []) && Write in Access(p, b, []));
  }

  /** Two handles grant alike only if they have one owner. */
  lemma OwnerShows(a: Subject, b: Subject)
    requires a.collar != "" && b.collar != "" && a.owner != b.owner
    ensures exists p :: Access(p, a, []) != Access(p, b, [])
  {
    var p := Member(if a.owner != NIL_ID then a.owner else b.owner);
    NoGrants(p, a);
    NoGrants(p, b);
    assert Admin in Access(p, a, []) <==> a.owner != NIL_ID;
    assert Admin in Access(p, b, []) <==> a.owner == NIL_ID;
  }

  /** Which handle a source's pipe is evaluated under: its own only at the root, or in
      a manifold whose first segment happens to be that same name. */
  lemma CollarIsHandleIff(acct: Account, src: Source, n: PipeName)
    requires ValidAccount(acct) && src in acct.sources && n in NamesUnder(src)
    ensures SubjectFor(Path(n), SourceMap(acct.sources)).collar == n.handle <==>
            n.manifold == "" || Split(n.manifold, '.')[0] == n.handle
  {
    Listed(acct, src, n);
    SubjectIs(SourceMap(acct.sources), n);
    FirstSegmentIs(n);
    ListedIsFound(acct.sources, src);
    if FirstSegment(n) in SourceMap(acct.sources) { FoundIsListed(acct.sources, FirstSegment(n)); }
  }

  lemma Listed(acct: Account, src: Source, n: PipeName)
    requires ValidAccount(acct) && src in acct.sources && n in NamesUnder(src)
    ensures n in NamesOf(acct) && ValidName(n) && n.handle == src.handle != "" && n.manifold == src.manifold
  {
    CollaredNamesOf(acct.sources, n);
    UnderItsOwnHandle(src, n);
  }

  /** The row whose owner evaluation takes for this source's pipes to be theirs. */
  predicate SameOwnerInFront(acct: Account, src: Source) {
    var first := if src.manifold != "" then Split(src.manifold, '.')[0] else src.handle;
    first in SourceMap(acct.sources) && SourceMap(acct.sources)[first].createdBy == src.createdBy
  }

  /** A source's pipe is treated as documented exactly when the path's first segment
      names a source - any source - that the same user created. */
  lemma OwnAccessIff(acct: Account, src: Source, n: PipeName)
    requires ValidAccount(acct) && src in acct.sources && n in NamesUnder(src)
    ensures EvaluatedAs(SourceMap(acct.sources), n, OwnSubject(src, n)) <==> SameOwnerInFront(acct, src)
  {
    var sources := SourceMap(acct.sources);
    Listed(acct, src, n);
    SubjectIs(sources, n);
    FirstSegmentIs(n);
    var s, own := SubjectFor(Path(n), sources), OwnSubject(src, n);
    if FirstSegment(n) !in sources {
      CollarShows(s, own);
      var p :| Access(p, s, []) != Access(p, own, []);
      assert AccessTo(p, [], sources, Path(n)) != Access(p, own, []);
    } else {
      FoundIsListed(acct.sources, FirstSegment(n));
      if SameOwnerInFront(acct, src) {
        forall p, grants ensures AccessTo(p, grants, sources, Path(n)) == Access(p, own, grants) {
          AccessDependsOn(p, s, own, grants);
        }
      } else {
        OwnerShows(s, own);
        var p :| Access(p, s, []) != Access(p, own, []);
        assert AccessTo(p, [], sources, Path(n)) != Access(p, own, []);
      }
    }
  }

  /** A shared pipe is treated as shared exactly when its manifold does not begin with
      the name of a source. */
  lemma SharedAccessIff(acct: Account, n: PipeName)
    requires ValidAccount(acct) && n in NamesOf(acct) && n.handle == ""
    ensures EvaluatedAs(SourceMap(acct.sources), n, SharedSubject(n)) <==>
            n.manifold == "" || Split(n.manifold, '.')[0] !in SourceMap(acct.sources)
  {
    var sources := SourceMap(acct.sources);
    SubjectIs(sources, n);
    FirstSegmentIs(n);
    if n.manifold != "" && FirstSegment(n) in sources {
      FoundIsListed(acct.sources, FirstSegment(n));
      CollarShows(SharedSubject(n), SubjectFor(Path(n), sources));
      var p :| Access(p, SharedSubject(n), []) != Access(p, SubjectFor(Path(n), sources), []);
      assert AccessTo(p, [], sources, Path(n)) != Access(p, SharedSubject(n), []);
    }
  }

  /** What an ordinary member gets, without a grant, on each listed pipe: the private
      rows of the default table apply exactly where the first of several segments is
      the name of a source, to everyone but that source's creator. */
  lemma ListedDefaults(acct: Account, p: Principal, grants: seq<Grant>, n: PipeName)
    requires ValidAccount(acct) && n in NamesOf(acct) && Governed(p)
    requires forall g :: g in grants ==> !Applies(p, SubjectFor(Path(n), SourceMap(acct.sources)), g)
    ensures var sources := SourceMap(acct.sources);
            AccessTo(p, grants, sources, Path(n)) ==
            if (n.manifold == "" && n.handle == "") || FirstSegment(n) !in sources then {Read, Write}
            else if sources[FirstSegment(n)].createdBy == p.id != NIL_ID then ALL
            else if n.name == "inbox" then {Write}
            else if n.name == "heartbeat" then {Read}
            else {}
  {
    var sources := SourceMap(acct.sources);
    var s := SubjectFor(Path(n), sources);
    SubjectIs(sources, n);
    if FirstSegment(n) in sources { FoundIsListed(acct.sources, FirstSegment(n)); }
    if OwnsHandle(p, s) {
      assert Access(p, s, grants) == ALL;
    } else {
      DefaultTable(p, s, grants);
    }
  }

  /** So in a manifold that is not also the name of a source, even a private pipe is
      open to every member of the org. */
  lemma ManifoldOpensToMembers(acct: Account, src: Source, n: PipeName, p: Principal, grants: seq<Grant>)
    requires ValidAccount(acct) && src in acct.sources && n in NamesUnder(src) && p.orgRole != ""
    requires n.manifold != "" && Split(n.manifold, '.')[0] !in SourceMap(acct.sources)
    ensures {Read, Write} <= AccessTo(p, grants, SourceMap(acct.sources), Path(n))
  {
    Listed(acct, src, n);
    SubjectIs(SourceMap(acct.sources), n);
    FirstSegmentIs(n);
  }

  /** At the root, a handle follows the last listed row of that name, in whatever
      manifold: when someone else created that row, they hold the root pipes too. */
  lemma LastRowDecides(acct: Account, src: Source, last: nat)
    requires src in acct.sources && src.manifold == "" && LastUnder(acct.sources, src.handle, last)
    ensures SameOwnerInFront(acct, src) <==> acct.sources[last].createdBy == src.createdBy
  {
    LookupIsLastRow(acct.sources, src.handle, last);
  }

  /** Every pipe of the account is treated as documented. */
  ghost predicate AsDocumented(acct: Account) {
    && (forall src, n :: src in acct.sources && n in NamesUnder(src) ==>
          EvaluatedAs(SourceMap(acct.sources), n, OwnSubject(src, n)))
    && (forall n :: n in NamesOf(acct) && n.handle == "" ==>
          EvaluatedAs(SourceMap(acct.sources), n, SharedSubject(n)))
  }

  /** The accounts whose every pipe is treated as documented, from their rows alone. */
  lemma AsDocumentedIff(acct: Account)
    requires ValidAccount(acct)
    ensures AsDocumented(acct) <==>
            && (forall src :: src in acct.sources ==> SameOwnerInFront(acct, src))
            && (forall n :: n in NamesOf(acct) && n.handle == "" && n.manifold != "" ==>
                  Split(n.manifold, '.')[0] !in SourceMap(acct.sources))
  {
    forall src, n | src in acct.sources && n in NamesUnder(src)
      ensures EvaluatedAs(SourceMap(acct.sources), n, OwnSubject(src, n)) <==> SameOwnerInFront(acct, src)
    {
      OwnAccessIff(acct, src, n);
    }
    forall src | src in acct.sources ensures Inbox(src) in NamesUnder(src) {
      UnderItsOwnHandle(src, Inbox(src));
    }
    forall n | n in NamesOf(acct) && n.handle == ""
      ensures EvaluatedAs(SourceMap(acct.sources), n, SharedSubject(n)) <==>
              n.manifold == "" || Split(n.manifold, '.')[0] !in SourceMap(acct.sources)
    {
      SharedAccessIff(acct, n);
    }
  }

  function Inbox(src: Source): PipeName { PipeName(src.manifold, src.handle, "inbox") }

  /** In particular an account that uses no manifolds, where handles are unique. */
  lemma FlatAccountsAsDocumented(acct: Account)
    requires ValidAccount(acct)
    requires forall n :: n in NamesOf(acct) ==> n.manifold == ""
    requires forall i, j :: 0 <= i < j < |acct.sources| ==> acct.sources[i].handle != acct.sources[j].handle
    ensures AsDocumented(acct)
  {
    forall src | src in acct.sources ensures SameOwnerInFront(acct, src) {
      UnderItsOwnHandle(src, Inbox(src));
      Listed(acct, src, Inbox(src));
      UniqueIsFound(acct.sources, src);
    }
    AsDocumentedIff(acct);
  }

  lemma UniqueIsFound(sources: seq<Source>, src: Source)
    requires src in sources
    requires forall i, j :: 0 <= i < j < |sources| ==> sources[i].handle != sources[j].handle
    ensures src.handle in SourceMap(sources) && SourceMap(sources)[src.handle] == src
  {
    ListedIsFound(sources, src);
    FoundIsListed(sources, src.handle);
    var i :| 0 <= i < |sources| && sources[i] == src;
    var j :| 0 <= j < |sources| && sources[j] == SourceMap(sources)[src.handle];
    assert i == j;
  }
}
