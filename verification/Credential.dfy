/** From stored grants to a signed credential (internal/server/acl_enforce.go,
    credential.go): enumerate, evaluate, compile - and what the whole chain means. */
module Credentials {
  import opened Text
  import opened Nats
  import opened Acl
  import opened Compiler
  import opened CompilerMeaning
  import opened Naming
  import opened Inventory
  import ControlPlane

  function SubjectFor(path: string, sources: map<string, Source>): Subject {
    var parts := Split(path, '.');
    var name := parts[|parts| - 1];
    if |parts| < 2 || parts[0] !in sources then Subject(path, "", name, NIL_ID)
    else Subject(path, sources[parts[0]].handle, name, sources[parts[0]].createdBy)
  }

  /** What evaluation grants `p` on the pipe named `n`. */
  function AccessTo(p: Principal, grants: seq<Grant>, sources: map<string, Source>, path: string): Perm {
    Access(p, SubjectFor(path, sources), grants)
  }

  function Unrestricted(): Permissions { Permissions([">"], [], [">"], []) }

  method PrincipalAccess(p: Principal, grants: seq<Grant>, sources: map<string, Source>, refs: seq<PipeRef>)
    returns (access: seq<PipeAccess>)
    ensures access == Table(p, grants, sources, refs)
  {
    access := [];
    for i := 0 to |refs|
      invariant access == Table(p, grants, sources, refs)[..i]
    {
      var d := Evaluate(p, SubjectFor(refs[i].path, sources), grants);
      access := access + [PipeAccess(refs[i], d.perm)];
    }
  }

  function Table(p: Principal, grants: seq<Grant>, sources: map<string, Source>, refs: seq<PipeRef>)
    : (t: seq<PipeAccess>)
    ensures |t| == |refs|
    ensures forall i :: 0 <= i < |refs| ==> t[i] == PipeAccess(refs[i], AccessTo(p, grants, sources, refs[i].path))
  {
    seq(|refs|, i requires 0 <= i < |refs| => PipeAccess(refs[i], AccessTo(p, grants, sources, refs[i].path)))
  }

  /** The credential lets `p` do on `n` exactly what evaluation says. */
  ghost predicate Faithful(perms: Permissions, account: string, n: PipeName, may: Perm) {
    && (PermitsPublish(perms, BuildSubject(account, n)) <==> Write in may)
    && (forall k: nat, tail :: k < 5 ==>
         (PermitsPublish(perms, ReadRequest(k, BuildStreamName(account, n), tail)) <==> Read in may))
    && (PermitsSubscribe(perms, BuildSubject(account, n)) <==> Presence(n) || Read in may)
  }

  /** Some listed pipe has this wire subject, and evaluation grants `c` on it. */
  ghost predicate Granted(account: string, p: Principal, grants: seq<Grant>, acct: Account, subject: string, c: Cap) {
    exists n :: n in NamesOf(acct) && BuildSubject(account, n) == subject &&
                c in AccessTo(p, grants, SourceMap(acct.sources), Path(n))
  }

  /** And nothing else: besides the account query and the read families of the stream
      API, only granted pipes can be published to; besides the families open to all,
      only granted pipes subscribed to. */
  ghost predicate NothingElse(perms: Permissions, account: string, p: Principal, grants: seq<Grant>, acct: Account) {
    forall subject ::
      && (Tokens(subject)[0] != "$JS" ==>
            (PermitsPublish(perms, subject) <==> Granted(account, p, grants, acct, subject, Write)))
      && (Tokens(subject)[0] == "$JS" && PermitsPublish(perms, subject) ==>
            Tokens(subject) == ["$JS", "API", "INFO"] || ControlPlane.InReadFamily(Tokens(subject)))
      && (PermitsSubscribe(perms, subject) <==>
            ControlPlane.OpenToAll(account, Tokens(subject)) || Granted(account, p, grants, acct, subject, Read))
  }

  /** End to end: whatever the grants, roles and stored rows, the credential an
      enforcing org hands out permits a publish on a pipe's wire subject iff
      evaluation grants Write, each stream-read request iff it grants Read, and the
      live tail iff it grants Read (presence is open to everyone) - and nothing else. */
  method NatsPermissionsFor(enforced: bool, account: string, p: Principal, grants: seq<Grant>, acct: Account)
    returns (perms: Permissions)
    requires ValidSegment(account) && ValidAccount(acct)
    ensures !enforced ==> perms == Unrestricted()
    ensures enforced ==> forall n :: n in NamesOf(acct) ==>
              Faithful(perms, account, n, AccessTo(p, grants, SourceMap(acct.sources), Path(n)))
    ensures enforced ==> NothingElse(perms, account, p, grants, acct)
  {
    if !enforced {
      return Unrestricted();
    }
    var names := EnumerateNames(acct);
    var sources := CollectSources(acct.sources);
    var refs := KeepFirstByPath(Candidates(account, names));
    var access := PrincipalAccess(p, grants, sources, refs);
    perms := Compile(account, access);
    forall n | n in names ensures Faithful(perms, account, n, AccessTo(p, grants, sources, Path(n))) {
      var m :| 0 <= m < |names| && names[m] == n;
      PathNonEmpty(n);
      assert HasPath(refs, Candidates(account, names)[m].path);
      var i :| 0 <= i < |refs| && refs[i].path == Path(n);
      var origin := Origins(account, names, refs);
      ChainFaithful(account, p, grants, sources, refs, origin, i, n);
    }
    CoversAll(account, names, refs);
    ChainClosed(account, p, grants, acct, refs);
  }

  /** The kept references are the listed pipes. */
  ghost predicate Covering(account: string, names: seq<PipeName>, refs: seq<PipeRef>) {
    && (forall n :: n in names ==> HasPath(refs, Path(n)))
    && (forall i :: 0 <= i < |refs| ==> refs[i] in Candidates(account, names))
    && (forall i, j :: 0 <= i < j < |refs| ==> refs[i].path != refs[j].path)
  }

  lemma CoversAll(account: string, names: seq<PipeName>, refs: seq<PipeRef>)
    requires forall n :: n in names ==> ValidName(n)
    requires forall i :: 0 <= i < |refs| ==> refs[i] in Candidates(account, names)
    requires forall i, j :: 0 <= i < j < |refs| ==> refs[i].path != refs[j].path
    requires forall i :: 0 <= i < |Candidates(account, names)| && Candidates(account, names)[i].path != "" ==>
               HasPath(refs, Candidates(account, names)[i].path)
    ensures Covering(account, names, refs)
  {
    forall n | n in names ensures HasPath(refs, Path(n)) {
      var m :| 0 <= m < |names| && names[m] == n;
      PathNonEmpty(n);
      assert Candidates(account, names)[m].path == Path(n);
    }
  }

  lemma GrantedByRef(account: string, p: Principal, grants: seq<Grant>, acct: Account, refs: seq<PipeRef>,
                     subject: string, c: Cap)
    requires ValidAccount(acct) && Covering(account, NamesOf(acct), refs)
    ensures Granted(account, p, grants, acct, subject, c) <==>
            exists i :: 0 <= i < |refs| && refs[i].subject == subject &&
                        c in AccessTo(p, grants, SourceMap(acct.sources), refs[i].path)
  {
    var names, sources := NamesOf(acct), SourceMap(acct.sources);
    if Granted(account, p, grants, acct, subject, c) {
      var n :| n in names && BuildSubject(account, n) == subject && c in AccessTo(p, grants, sources, Path(n));
      assert HasPath(refs, Path(n));
      var i :| 0 <= i < |refs| && refs[i].path == Path(n);
      var m := SourceOf(account, names, refs[i]);
      NamingFaithful(account, m, n);
      assert refs[i].subject == subject;
    }
    if i :| 0 <= i < |refs| && refs[i].subject == subject && c in AccessTo(p, grants, sources, refs[i].path) {
      var n := SourceOf(account, names, refs[i]);
      assert n in names && BuildSubject(account, n) == subject;
    }
  }

  lemma SourceOf(account: string, names: seq<PipeName>, ref: PipeRef) returns (n: PipeName)
    requires ref in Candidates(account, names)
    ensures n in names && ref == RefOf(account, n)
  {
    var k :| 0 <= k < |names| && Candidates(account, names)[k] == ref;
    n := names[k];
  }

  lemma TableLiteral(account: string, access: seq<PipeAccess>, refs: seq<PipeRef>, origin: seq<PipeName>)
    requires ValidSegment(account) && Enumerated(account, refs, origin)
    requires |access| == |refs| && forall i :: 0 <= i < |refs| ==> access[i].pipe == refs[i]
    ensures ControlPlane.LiteralWires(account, access)
  {
    forall i, wire | 0 <= i < |access| && ControlPlane.ReachedBy(access[i].pipe, account, wire)
      ensures Literal(Tokens(wire))
    {
      SubjectTokens(account, origin[i]);
    }
  }

  lemma ChainClosed(account: string, p: Principal, grants: seq<Grant>, acct: Account, refs: seq<PipeRef>)
    requires ValidSegment(account) && ValidAccount(acct) && Covering(account, NamesOf(acct), refs)
    ensures NothingElse(Compiled(account, Table(p, grants, SourceMap(acct.sources), refs)), account, p, grants, acct)
  {
    var access := Table(p, grants, SourceMap(acct.sources), refs);
    var origin := Origins(account, NamesOf(acct), refs);
    TableWellFormed(account, access, refs, origin);
    TableLiteral(account, access, refs, origin);
    forall subject
      ensures Tokens(subject)[0] != "$JS" ==>
                (PermitsPublish(Compiled(account, access), subject) <==>
                 Granted(account, p, grants, acct, subject, Write))
    {
      if Tokens(subject)[0] != "$JS" { PublishClosed(account, p, grants, acct, refs, subject); }
    }
    forall subject
      ensures Tokens(subject)[0] == "$JS" && PermitsPublish(Compiled(account, access), subject) ==>
                Tokens(subject) == ["$JS", "API", "INFO"] || ControlPlane.InReadFamily(Tokens(subject))
    {
      if Tokens(subject)[0] == "$JS" { ControlClosed(account, access, subject); }
    }
    forall subject
      ensures PermitsSubscribe(Compiled(account, access), subject) <==>
              ControlPlane.OpenToAll(account, Tokens(subject)) || Granted(account, p, grants, acct, subject, Read)
    {
      SubscribeClosed(account, p, grants, acct, refs, subject);
    }
  }

  lemma ControlClosed(account: string, access: seq<PipeAccess>, subject: string)
    requires WellFormed(account, access) && Tokens(subject)[0] == "$JS"
    ensures PermitsPublish(Compiled(account, access), subject) ==>
              Tokens(subject) == ["$JS", "API", "INFO"] || ControlPlane.InReadFamily(Tokens(subject))
  {
    ControlPlane.ControlPlaneExact(account, access, subject);
    if ControlPlane.ReadsListed(Tokens(subject), access, true) {
      ControlPlane.ListedApart(Tokens(subject), access, true);
    }
  }

  lemma PublishClosed(account: string, p: Principal, grants: seq<Grant>, acct: Account, refs: seq<PipeRef>,
                      subject: string)
    requires ValidAccount(acct) && Covering(account, NamesOf(acct), refs) && Tokens(subject)[0] != "$JS"
    requires var access := Table(p, grants, SourceMap(acct.sources), refs);
             WellFormed(account, access) && ControlPlane.LiteralWires(account, access)
    ensures PermitsPublish(Compiled(account, Table(p, grants, SourceMap(acct.sources), refs)), subject) <==>
            Granted(account, p, grants, acct, subject, Write)
  {
    var sources := SourceMap(acct.sources);
    var access := Table(p, grants, sources, refs);
    ControlPlane.PublishExact(account, access, subject);
    GrantedByRef(account, p, grants, acct, refs, subject, Write);
    forall i | 0 <= i < |refs|
      ensures ControlPlane.MayWrite(access[i].perm) <==> Write in AccessTo(p, grants, sources, refs[i].path)
    {
      AdminClosed(p, SubjectFor(refs[i].path, sources), grants);
    }
  }

  lemma SubscribeClosed(account: string, p: Principal, grants: seq<Grant>, acct: Account, refs: seq<PipeRef>,
                        subject: string)
    requires ValidSegment(account) && ValidAccount(acct) && Covering(account, NamesOf(acct), refs)
    requires ControlPlane.LiteralWires(account, Table(p, grants, SourceMap(acct.sources), refs))
    ensures PermitsSubscribe(Compiled(account, Table(p, grants, SourceMap(acct.sources), refs)), subject) <==>
            ControlPlane.OpenToAll(account, Tokens(subject)) || Granted(account, p, grants, acct, subject, Read)
  {
    var sources := SourceMap(acct.sources);
    var access := Table(p, grants, sources, refs);
    ValidNoDot(account);
    ControlPlane.SubscribeExact(account, access, subject);
    GrantedByRef(account, p, grants, acct, refs, subject, Read);
    forall i | 0 <= i < |refs|
      ensures ControlPlane.MayRead(access[i].perm) <==> Read in AccessTo(p, grants, sources, refs[i].path)
    {
      AdminClosed(p, SubjectFor(refs[i].path, sources), grants);
    }
  }

  lemma UnrestrictedPermitsAll(subject: string)
    ensures PermitsPublish(Unrestricted(), subject) && PermitsSubscribe(Unrestricted(), subject)
  {
    SplitToken(">", '.');
    assert Matches([">"][0], subject);
  }

  // ----- the pieces -----

  lemma PathNonEmpty(n: PipeName)
    requires ValidName(n)
    ensures Path(n) != ""
  {
    NameChars(n);
  }

  ghost predicate Enumerated(account: string, refs: seq<PipeRef>, origin: seq<PipeName>) {
    && |origin| == |refs|
    && (forall i :: 0 <= i < |refs| ==> ValidName(origin[i]) && refs[i] == RefOf(account, origin[i]))
    && (forall i, j :: 0 <= i < j < |refs| ==> refs[i].path != refs[j].path)
  }

  lemma Origins(account: string, names: seq<PipeName>, refs: seq<PipeRef>) returns (origin: seq<PipeName>)
    requires forall n :: n in names ==> ValidName(n)
    requires forall i :: 0 <= i < |refs| ==> refs[i] in Candidates(account, names)
    requires forall i, j :: 0 <= i < j < |refs| ==> refs[i].path != refs[j].path
    ensures Enumerated(account, refs, origin)
  {
    origin := [];
    for i := 0 to |refs|
      invariant |origin| == i
      invariant forall j :: 0 <= j < i ==> ValidName(origin[j]) && refs[j] == RefOf(account, origin[j])
    {
      var k :| 0 <= k < |names| && Candidates(account, names)[k] == refs[i];
      assert names[k] in names;
      origin := origin + [names[k]];
    }
  }

  lemma {:induction false} OrgShortPlain(account: string)
    requires '.' !in account
    ensures '.' !in WithoutHyphens(account) && '.' !in OrgShort(account)
  {
    if account != "" {
      OrgShortPlain(account[1..]);
    }
  }

  /** A stream name is one literal token. */
  lemma StreamIsToken(account: string, n: PipeName)
    requires ValidSegment(account) && ValidName(n)
    ensures StreamToken(BuildStreamName(account, n))
  {
    ValidNoDot(account);
    OrgShortPlain(account);
    StreamForm(account, n);
    var flat := ReplaceChar(if Presence(n) then Scope(n) else Path(n), '.', '_');
    assert '.' !in flat;
    assert '.' !in StreamPrefix(account, Presence(n));
    assert BuildStreamName(account, n)[0] == 'p';
  }

  lemma ValidTokensLiteral(ts: seq<string>)
    requires forall t :: t in ts ==> ValidSegment(t)
    ensures Literal(ts)
  {
    forall i | 0 <= i < |ts| ensures LiteralToken(ts[i]) {
      assert ts[i] in ts;
      ValidNoDot(ts[i]);
    }
  }

  lemma SegmentTokens(s: string)
    requires ValidSegment(s)
    ensures Tokens(s) == [s]
  {
    ValidNoDot(s);
    SplitToken(s, '.');
  }

  lemma PathTokensValid(n: PipeName)
    requires ValidName(n)
    ensures forall t :: t in Tokens(Path(n)) ==> ValidSegment(t)
    ensures Presence(n) ==> forall t :: t in Tokens(Scope(n)) ==> ValidSegment(t)
  {
    SegmentTokens(n.name);
    if n.handle != "" {
      SegmentTokens(n.handle);
      SplitAppend(n.handle, '.', n.name);
      SplitAppend(n.manifold, '.', n.handle + "." + n.name);
      SplitAppend(n.manifold, '.', n.handle);
    } else {
      SplitAppend(n.manifold, '.', n.name);
    }
  }

  lemma SubjectTokens(account: string, n: PipeName)
    requires ValidSegment(account) && ValidName(n)
    ensures Tokens(BuildSubject(account, n)) ==
            [account] + if Presence(n) then [PRESENCE_SEGMENT] + Tokens(Scope(n)) else Tokens(Path(n))
    ensures Literal(Tokens(BuildSubject(account, n)))
    ensures PlainWire(BuildSubject(account, n)) && BuildSubject(account, n) != ""
  {
    SubjectForm(account, n);
    SegmentTokens(account);
    ValidNoDot(account);
    PathTokensValid(n);
    if Presence(n) {
      PresenceTokens(account, Scope(n));
      ValidTokensLiteral(Tokens(Scope(n)));
    } else {
      SplitAppend(account, '.', Path(n));
      ValidTokensLiteral(Tokens(Path(n)));
    }
  }

  lemma PresenceTokens(account: string, scope: string)
    requires Tokens(account) == [account]
    ensures Tokens(account + "." + (PRESENCE_SEGMENT + "." + scope)) == [account] + ([PRESENCE_SEGMENT] + Tokens(scope))
  {
    SplitToken(PRESENCE_SEGMENT, '.');
    SplitAppend(PRESENCE_SEGMENT, '.', scope);
    SplitAppend(account, '.', PRESENCE_SEGMENT + "." + scope);
  }

  lemma TableWellFormed(account: string, access: seq<PipeAccess>, refs: seq<PipeRef>, origin: seq<PipeName>)
    requires ValidSegment(account) && Enumerated(account, refs, origin)
    requires |access| == |refs| && forall i :: 0 <= i < |refs| ==> access[i].pipe == refs[i]
    ensures WellFormed(account, access)
  {
    forall i | 0 <= i < |access|
      ensures StreamToken(access[i].pipe.stream) && PlainWire(WireSubject(access[i].pipe, account))
    {
      StreamIsToken(account, origin[i]);
      SubjectTokens(account, origin[i]);
    }
  }

  /** Names on the wire are as distinct as paths. */
  lemma DistinctOnTheWire(account: string, refs: seq<PipeRef>, origin: seq<PipeName>, i: nat, j: nat)
    requires Enumerated(account, refs, origin) && i < |refs| && j < |refs|
    ensures refs[i].stream == refs[j].stream <==> i == j
    ensures refs[i].subject == refs[j].subject <==> i == j
  {
    NamingFaithful(account, origin[i], origin[j]);
  }

  lemma BaseSubscriptionsMeaning(account: string, n: PipeName)
    requires ValidSegment(account) && ValidName(n)
    ensures AnyMatches(BaseSubscriptions(account), BuildSubject(account, n)) <==> Presence(n)
  {
    SubjectTokens(account, n);
    if Presence(n) {
      OpenToAll(account, BuildSubject(account, n), Tokens(Scope(n)));
    } else {
      PathTokensValid(n);
      assert Tokens(Path(n))[0] in Tokens(Path(n));
      ValidNoDot(Tokens(Path(n))[0]);
      NotOpenToAll(account, BuildSubject(account, n), Tokens(Path(n)));
    }
  }

  lemma OpenToAll(account: string, subject: string, scope: seq<string>)
    requires ValidSegment(account) && scope != []
    requires Tokens(subject) == [account] + ([PRESENCE_SEGMENT] + scope)
    ensures AnyMatches(BaseSubscriptions(account), subject)
  {
    ValidNoDot(account);
    BaseTokens(account);
    PresenceTail(account, scope);
    assert Matches(BaseSubscriptions(account)[1], subject);
  }

  lemma NotOpenToAll(account: string, subject: string, rest: seq<string>)
    requires ValidSegment(account) && rest != [] && '_' !in rest[0]
    requires Tokens(subject) == [account] + rest
    ensures !AnyMatches(BaseSubscriptions(account), subject)
  {
    ValidNoDot(account);
    BaseTokens(account);
    NotPrefixed("_INBOX", account, [">"], rest);
    NotFamily(account, PRESENCE_SEGMENT, rest);
    NotFamily(account, "_system", rest);
    NoneOfThree(BaseSubscriptions(account), subject);
  }

  lemma NoneOfThree(pats: seq<string>, subject: string)
    requires |pats| == 3
    requires !Matches(pats[0], subject) && !Matches(pats[1], subject) && !Matches(pats[2], subject)
    ensures !AnyMatches(pats, subject)
  {
  }

  lemma NotPrefixed(a: string, b: string, p: seq<string>, s: seq<string>)
    requires LiteralToken(a) && a != "" && a[0] == '_' && '_' !in b
    ensures !TokensMatch([a] + p, [b] + s)
  {
    MismatchAt([a] + p, [b] + s, 0);
  }

  lemma NotFamily(account: string, family: string, rest: seq<string>)
    requires LiteralToken(account) && LiteralToken(family) && family != "" && family[0] == '_'
    requires rest != [] && '_' !in rest[0]
    ensures !TokensMatch([account, family, ">"], [account] + rest)
  {
    MismatchAt([account, family, ">"], [account] + rest, 1);
  }

  lemma PresenceTail(account: string, scope: seq<string>)
    requires LiteralToken(account) && scope != []
    ensures TokensMatch([account, PRESENCE_SEGMENT, ">"], [account] + ([PRESENCE_SEGMENT] + scope))
  {
    var h := [account, PRESENCE_SEGMENT];
    MatchUnderPrefix(h, [">"], scope);
    assert h + [">"] == [account, PRESENCE_SEGMENT, ">"];
    assert h + scope == [account] + ([PRESENCE_SEGMENT] + scope);
  }

  lemma BaseTokens(account: string)
    requires ValidSegment(account)
    ensures Tokens(BaseSubscriptions(account)[0]) == ["_INBOX", ">"]
    ensures Tokens(BaseSubscriptions(account)[1]) == [account, PRESENCE_SEGMENT, ">"]
    ensures Tokens(BaseSubscriptions(account)[2]) == [account, "_system", ">"]
  {
    ValidNoDot(account);
    InboxTokens();
    Dotted3Tokens(account, PRESENCE_SEGMENT, ">");
    Dotted3Tokens(account, "_system", ">");
    FamilyText(account);
  }

  lemma FamilyText(account: string)
    ensures account + "._presence.>" == account + "." + PRESENCE_SEGMENT + "." + ">"
    ensures account + "._system.>" == account + "." + "_system" + "." + ">"
  {
  }

  lemma InboxTokens()
    ensures Tokens("_INBOX.>") == ["_INBOX", ">"]
  {
    SplitToken("_INBOX", '.');
    SplitToken(">", '.');
    SplitAppend("_INBOX", '.', ">");
    InboxText();
  }

  lemma InboxText() ensures "_INBOX.>" == "_INBOX" + "." + ">" {}

  lemma ChainFaithful(account: string, p: Principal, grants: seq<Grant>, sources: map<string, Source>,
                      refs: seq<PipeRef>, origin: seq<PipeName>, i: nat, n: PipeName)
    requires ValidSegment(account) && ValidName(n)
    requires Enumerated(account, refs, origin) && i < |refs| && refs[i].path == Path(n)
    ensures Faithful(Compiled(account, Table(p, grants, sources, refs)), account, n,
                     AccessTo(p, grants, sources, Path(n)))
  {
    var access := Table(p, grants, sources, refs);
    NamingFaithful(account, origin[i], n);
    TableWellFormed(account, access, refs, origin);
    AdminClosed(p, SubjectFor(Path(n), sources), grants);
    assert CanRead(access[i]) <==> Read in AccessTo(p, grants, sources, Path(n));
    assert CanWrite(access[i]) <==> Write in AccessTo(p, grants, sources, Path(n));
    ChainReads(account, access, refs, origin, i);
    ChainWire(account, access, refs, origin, i);
    BaseSubscriptionsMeaning(account, n);
    ChainTail(account, access, refs, origin, i, n);
  }

  lemma ChainReads(account: string, access: seq<PipeAccess>, refs: seq<PipeRef>, origin: seq<PipeName>, i: nat)
    requires Enumerated(account, refs, origin) && WellFormed(account, access) && i < |refs|
    requires |access| == |refs| && forall j :: 0 <= j < |refs| ==> access[j].pipe == refs[j]
    ensures forall k: nat, tail :: k < 5 ==>
              (PermitsPublish(Compiled(account, access), ReadRequest(k, refs[i].stream, tail)) <==> CanRead(access[i]))
  {
    forall a, b | 0 <= a < |access| && 0 <= b < |access| && access[a].pipe.stream == access[b].pipe.stream
      ensures CanRead(access[a]) == CanRead(access[b])
    {
      DistinctOnTheWire(account, refs, origin, a, b);
    }
    ReadsFaithfulIffConsistent(account, access);
  }

  /** Only the pipe's own entry can match its wire subject. */
  lemma OnlyOwnEntry(account: string, refs: seq<PipeRef>, origin: seq<PipeName>, i: nat, j: nat)
    requires ValidSegment(account) && Enumerated(account, refs, origin) && i < |refs| && j < |refs|
    ensures Matches(WireSubject(refs[j], account), refs[i].subject) <==> j == i
  {
    SubjectTokens(account, origin[j]);
    LiteralSubjectMatch(refs[j].subject, refs[i].subject);
    DistinctOnTheWire(account, refs, origin, j, i);
  }

  lemma ChainWire(account: string, access: seq<PipeAccess>, refs: seq<PipeRef>, origin: seq<PipeName>, i: nat)
    requires ValidSegment(account) && Enumerated(account, refs, origin) && WellFormed(account, access) && i < |refs|
    requires |access| == |refs| && forall j :: 0 <= j < |refs| ==> access[j].pipe == refs[j]
    ensures PermitsPublish(Compiled(account, access), refs[i].subject) <==> CanWrite(access[i])
  {
    SubjectTokens(account, origin[i]);
    PublishMeaning(account, access, refs[i].subject);
    forall j | 0 <= j < |refs| ensures Matches(WireSubject(access[j].pipe, account), refs[i].subject) <==> j == i {
      OnlyOwnEntry(account, refs, origin, i, j);
    }
  }

  lemma ChainTail(account: string, access: seq<PipeAccess>, refs: seq<PipeRef>, origin: seq<PipeName>,
                  i: nat, n: PipeName)
    requires ValidSegment(account) && Enumerated(account, refs, origin) && i < |refs|
    requires ValidName(n) && refs[i].subject == BuildSubject(account, n)
    requires |access| == |refs| && forall j :: 0 <= j < |refs| ==> access[j].pipe == refs[j]
    requires AnyMatches(BaseSubscriptions(account), BuildSubject(account, n)) <==> Presence(n)
    ensures PermitsSubscribe(Compiled(account, access), BuildSubject(account, n)) <==> Presence(n) || CanRead(access[i])
  {
    var subject := BuildSubject(account, n);
    if Presence(n) {
      AnyMatchesConcat(BaseSubscriptions(account), Listenable(account, access), subject);
    } else {
      SubscribeMeaning(account, access, subject);
      forall j | 0 <= j < |refs| ensures Matches(WireSubject(access[j].pipe, account), subject) <==> j == i {
        OnlyOwnEntry(account, refs, origin, i, j);
      }
    }
  }
}
