/** Access evaluation (internal/acl/acl.go): who may read, write or
    administer a pipe, and why. */
module Acl {
  import opened Common
  import opened Selectors

  /** A 128-bit identifier. */
  type Uuid = nat

  const NIL_ID: Uuid := 0
  const EVERYONE_ID: Uuid := 2

  datatype Cap = Read | Write | Admin

  /** A capability bitset. */
  type Perm = set<Cap>

  const ALL: Perm := {Read, Write, Admin}

  datatype Principal = Principal(id: Uuid, name: string, orgRole: string)

  datatype Subject = Subject(path: string, collar: string, name: string, owner: Uuid)

  datatype Grant = Grant(
    principalId: Uuid, principal: string, selector: string, perm: Perm, grantedBy: string, createdAt: int)

  datatype ReasonKind = ReasonNone | ReasonDefault | ReasonGrant | ReasonHandleOwner | ReasonOrgRole | ReasonKeyScope

  /** Which explanation survives when several confer the same capability. */
  function Rank(k: ReasonKind): nat {
    match k
    case ReasonOrgRole => 4
    case ReasonGrant => 3
    case ReasonHandleOwner => 2
    case ReasonDefault => 1
    case _ => 0
  }

  datatype Reason = Reason(kind: ReasonKind, grant: Option<Grant>, detail: string)

  predicate CanAdministerOrg(role: string) { role == "owner" || role == "admin" }

  /** Admin carries read and write; read and write never imply each other. */
  function Effective(p: Perm): Perm { if Admin in p then ALL else p }

  function Expand(p: Perm): seq<Cap> {
    if Admin in p then [Read, Write, Admin]
    else (if Read in p then [Read] else []) + (if Write in p then [Write] else [])
  }

  lemma ExpandExact(p: Perm, c: Cap)
    ensures c in Expand(p) <==> c in Effective(p)
  {
    if Admin in p {
      assert Expand(p)[0] == Read && Expand(p)[1] == Write && Expand(p)[2] == Admin;
    }
    match c
    case Read =>
    case Write =>
    case Admin =>
  }

  const SHARED_DETAIL := "default — org-shared space"
  const INBOX_DETAIL := "default — inbox is write-open"
  const PRESENCE_DETAIL := "default — presence is read-open"

  /** The derived default table; nothing in it is stored. */
  function DefaultsFor(s: Subject): map<Cap, string> {
    if s.collar == "" then map[Read := SHARED_DETAIL, Write := SHARED_DETAIL]
    else if s.name == "inbox" then map[Write := INBOX_DETAIL]
    else if s.name == "heartbeat" then map[Read := PRESENCE_DETAIL]
    else map[]
  }

  function DenialDetail(s: Subject, c: Cap): string {
    if s.collar == "" then "no grant"
    else if s.name == "inbox" && c == Read then "no grant; only the handle owner may read an inbox"
    else if s.name == "heartbeat" && c == Write then "no grant; only the handle owner may publish its heartbeat"
    else if c == Admin then "not the handle owner, not an org admin"
    else "no grant; pipes under a handle are owner-only by default"
  }

  predicate OwnsHandle(p: Principal, s: Subject) {
    s.collar != "" && s.owner != NIL_ID && s.owner == p.id
  }

  predicate Applies(p: Principal, s: Subject, g: Grant) {
    (g.principalId == p.id || g.principalId == EVERYONE_ID) && Match(g.selector, s.path)
  }

  const OUTSIDER_REASON := Reason(ReasonNone, None, "not a member of this org")
  const OWNER_REASON := Reason(ReasonHandleOwner, None, "handle owner")

  function RoleReason(role: string): Reason { Reason(ReasonOrgRole, None, "org " + role) }

  function GrantReason(g: Grant): Reason { Reason(ReasonGrant, Some(g), "grant by " + g.grantedBy) }

  // ----- the reference: what the decision should be, capability by capability -----

  /** Some applicable grant among `grants` confers `c`. */
  predicate Conferred(p: Principal, s: Subject, grants: seq<Grant>, c: Cap) {
    exists i :: 0 <= i < |grants| && Confers(p, s, grants[i], c)
  }

  predicate Confers(p: Principal, s: Subject, g: Grant, c: Cap) {
    Applies(p, s, g) && c in Effective(g.perm)
  }

  /** The earliest grant that confers `c`. */
  function FirstConferring(p: Principal, s: Subject, grants: seq<Grant>, c: Cap): (i: nat)
    requires Conferred(p, s, grants, c)
    ensures i < |grants| && Confers(p, s, grants[i], c)
    ensures forall j :: 0 <= j < i ==> !Confers(p, s, grants[j], c)
  {
    if Confers(p, s, grants[0], c) then 0 else
      var j :| 0 <= j < |grants| && Confers(p, s, grants[j], c);
      assert grants[1..][j - 1] == grants[j];
      FirstConferring(p, s, grants[1..], c) + 1
  }

  /** Access that needs no grant. */
  function BaseAccess(p: Principal, s: Subject): Perm {
    if p.orgRole == "" then {}
    else if CanAdministerOrg(p.orgRole) || OwnsHandle(p, s) then ALL
    else DefaultsFor(s).Keys
  }

  /** Base access together with everything the applicable grants carry. */
  function Access(p: Principal, s: Subject, grants: seq<Grant>): Perm {
    BaseAccess(p, s) +
    if p.orgRole == "" then {} else set c | c in ALL && Conferred(p, s, grants, c)
  }

  /** The explanation a capability must carry. */
  function Explanation(p: Principal, s: Subject, grants: seq<Grant>, c: Cap): Reason {
    if p.orgRole == "" then OUTSIDER_REASON
    else if CanAdministerOrg(p.orgRole) then RoleReason(p.orgRole)
    else if Conferred(p, s, grants, c) then GrantReason(grants[FirstConferring(p, s, grants, c)])
    else if OwnsHandle(p, s) then OWNER_REASON
    else if c in DefaultsFor(s) then Reason(ReasonDefault, None, DefaultsFor(s)[c])
    else Reason(ReasonNone, None, DenialDetail(s, c))
  }

  // ----- the program -----

  /** The result of evaluating one principal against one pipe, built up in place. */
  class Decision {
    var perm: Perm
    var why: map<Cap, Reason>

    constructor ()
      ensures perm == {} && why == map[]
    {
      perm, why := {}, map[];
    }

    method Allow(c: Cap, r: Reason)
      modifies this
      ensures perm == old(perm) + {c}
      ensures why == if c in old(why) && Rank(old(why)[c].kind) >= Rank(r.kind) then old(why) else old(why)[c := r]
    {
      perm := perm + {c};
      if !(c in why && Rank(why[c].kind) >= Rank(r.kind)) {
        why := why[c := r];
      }
    }

    method Deny(c: Cap, detail: string)
      modifies this
      ensures perm == old(perm)
      ensures why == if c in old(perm) then old(why) else old(why)[c := Reason(ReasonNone, None, detail)]
    {
      if c !in perm {
        why := why[c := Reason(ReasonNone, None, detail)];
      }
    }

    /** The loop every caller of `Allow` runs over a list of capabilities. */
    method AllowEach(caps: seq<Cap>, r: Reason)
      modifies this
      ensures perm == old(perm) + (set c | c in caps)
      ensures why == Explained(old(why), caps, r)
    {
      assert caps[..0] == [];
      for i := 0 to |caps|
        invariant perm == old(perm) + (set c | c in caps[..i])
        invariant why == Explained(old(why), caps[..i], r)
      {
        assert caps[..i + 1] == caps[..i] + [caps[i]];
        ExplainedSnoc(old(why), caps[..i], caps[i], r);
        Allow(caps[i], r);
      }
      assert caps[..|caps|] == caps;
    }

    method DenyEach(caps: seq<Cap>, details: Cap -> string)
      modifies this
      ensures perm == old(perm)
      ensures why == Refused(old(why), perm, caps, details)
    {
      assert caps[..0] == [];
      for i := 0 to |caps|
        invariant perm == old(perm)
        invariant why == Refused(old(why), perm, caps[..i], details)
      {
        assert caps[..i + 1] == caps[..i] + [caps[i]];
        RefusedSnoc(old(why), perm, caps[..i], caps[i], details);
        Deny(caps[i], details(caps[i]));
      }
      assert caps[..|caps|] == caps;
    }
  }

  const EACH: seq<Cap> := [Read, Write, Admin]

  /** A reason offered for several capabilities displaces only lower-ranked ones. */
  ghost function Explained(why: map<Cap, Reason>, caps: seq<Cap>, r: Reason): map<Cap, Reason> {
    map c | c in why.Keys + (set c | c in caps) ::
      if c !in why || (c in caps && Rank(why[c].kind) < Rank(r.kind)) then r else why[c]
  }

  lemma ExplainedSnoc(why: map<Cap, Reason>, caps: seq<Cap>, c: Cap, r: Reason)
    ensures var w := Explained(why, caps, r);
            Explained(why, caps + [c], r) ==
            if c in w && Rank(w[c].kind) >= Rank(r.kind) then w else w[c := r]
    ensures (set x | x in caps + [c]) == (set x | x in caps) + {c}
  {
  }

  /** A refusal is recorded only for capabilities that are not held. */
  ghost function Refused(why: map<Cap, Reason>, perm: Perm, caps: seq<Cap>, details: Cap -> string): map<Cap, Reason> {
    map c | c in why.Keys + ((set c | c in caps) - perm) ::
      if c in caps && c !in perm then Reason(ReasonNone, None, details(c)) else why[c]
  }

  lemma RefusedSnoc(why: map<Cap, Reason>, perm: Perm, caps: seq<Cap>, c: Cap, details: Cap -> string)
    ensures var w := Refused(why, perm, caps, details);
            Refused(why, perm, caps + [c], details) ==
            if c in perm then w else w[c := Reason(ReasonNone, None, details(c))]
  {
  }

  /** What holds of a decision under construction once some of the grants are in. */
  ghost predicate Resolved(p: Principal, s: Subject, grants: seq<Grant>, perm: Perm, why: map<Cap, Reason>)
  {
    && perm == Access(p, s, grants)
    && why.Keys == perm
    && forall c :: c in perm ==> why[c] == Explanation(p, s, grants, c)
  }

  /** Evaluating a principal against a pipe yields exactly the reference access,
      and for every capability exactly the reference explanation. */
  method Evaluate(p: Principal, s: Subject, grants: seq<Grant>) returns (d: Decision)
    ensures fresh(d)
    ensures d.perm == Access(p, s, grants)
    ensures d.why.Keys == ALL
    ensures forall c :: c in d.why ==> d.why[c] == Explanation(p, s, grants, c)
  {
    d := new Decision();
    if p.orgRole == "" {
      d.DenyEach(EACH, c => "not a member of this org");
      OutsiderDecided(p, s, grants, d.why);
    } else if CanAdministerOrg(p.orgRole) {
      d.AllowEach(EACH, RoleReason(p.orgRole));
      AdministratorDecided(p, s, grants, d.perm, d.why);
    } else {
      StartFromBase(d, p, s);
      ApplyGrants(d, p, s, grants);
      ghost var perm0, why0 := d.perm, d.why;
      d.DenyEach(EACH, c => DenialDetail(s, c));
      ResolvedRefused(p, s, grants, perm0, why0, d.why);
    }
  }

  lemma OutsiderDecided(p: Principal, s: Subject, grants: seq<Grant>, why: map<Cap, Reason>)
    requires p.orgRole == ""
    requires why == Refused(map[], {}, EACH, c => "not a member of this org")
    ensures Access(p, s, grants) == {} && why.Keys == ALL
    ensures forall c :: c in why ==> why[c] == Explanation(p, s, grants, c)
  {
    forall c: Cap ensures c in why { AllCaps(c); }
  }

  lemma AdministratorDecided(p: Principal, s: Subject, grants: seq<Grant>, perm: Perm, why: map<Cap, Reason>)
    requires CanAdministerOrg(p.orgRole)
    requires perm == {} + (set c | c in EACH) && why == Explained(map[], EACH, RoleReason(p.orgRole))
    ensures perm == Access(p, s, grants) && why.Keys == ALL
    ensures forall c :: c in why ==> why[c] == Explanation(p, s, grants, c)
  {
    forall c: Cap ensures c in why && c in perm && c in Access(p, s, grants) { AllCaps(c); }
  }

  method StartFromBase(d: Decision, p: Principal, s: Subject)
    requires Governed(p) && d.perm == {} && d.why == map[]
    modifies d
    ensures Resolved(p, s, [], d.perm, d.why)
  {
    if OwnsHandle(p, s) {
      d.AllowEach(EACH, OWNER_REASON);
      forall c: Cap ensures c in d.perm && c in d.why { AllCaps(c); }
    } else {
      AllowDefaults(d, DefaultsFor(s));
    }
  }

  method ApplyGrants(d: Decision, p: Principal, s: Subject, grants: seq<Grant>)
    requires Governed(p) && Resolved(p, s, [], d.perm, d.why)
    modifies d
    ensures Resolved(p, s, grants, d.perm, d.why)
  {
    ghost var done: seq<Grant> := [];
    for i := 0 to |grants|
      invariant done == grants[..i]
      invariant Resolved(p, s, done, d.perm, d.why)
    {
      ApplyGrant(d, p, s, done, grants[i]);
      done := done + [grants[i]];
    }
    assert done == grants;
  }

  method ApplyGrant(d: Decision, p: Principal, s: Subject, ghost done: seq<Grant>, g: Grant)
    requires Governed(p) && Resolved(p, s, done, d.perm, d.why)
    modifies d
    ensures Resolved(p, s, done + [g], d.perm, d.why)
  {
    ghost var perm0, why0 := d.perm, d.why;
    var applies := (g.principalId == p.id || g.principalId == EVERYONE_ID) && Match(g.selector, s.path);
    if applies {
      d.AllowEach(Expand(g.perm), GrantReason(g));
    }
    ResolvedSnoc(p, s, done, g, perm0, why0, d.perm, d.why);
  }

  /** The table is iterated in no particular order. */
  method AllowDefaults(d: Decision, defaults: map<Cap, string>)
    requires d.perm == {} && d.why == map[]
    modifies d
    ensures d.perm == d.why.Keys == defaults.Keys
    ensures forall c :: c in d.why ==> d.why[c] == Reason(ReasonDefault, None, defaults[c])
  {
    var left := defaults.Keys;
    while left != {}
      invariant left <= defaults.Keys
      invariant d.perm == d.why.Keys == defaults.Keys - left
      invariant forall c :: c in d.why ==> d.why[c] == Reason(ReasonDefault, None, defaults[c])
      decreases left
    {
      var c :| c in left;
      d.Allow(c, Reason(ReasonDefault, None, defaults[c]));
      left := left - {c};
    }
  }

  predicate Governed(p: Principal) { p.orgRole != "" && !CanAdministerOrg(p.orgRole) }

  lemma AllCaps(c: Cap)
    ensures c in ALL && c in EACH
  {
    match c
    case Read => assert EACH[0] == c;
    case Write => assert EACH[1] == c;
    case Admin => assert EACH[2] == c;
  }

  lemma ResolvedSnoc(p: Principal, s: Subject, done: seq<Grant>, g: Grant,
                     perm: Perm, why: map<Cap, Reason>, perm': Perm, why': map<Cap, Reason>)
    requires Governed(p)
    requires Resolved(p, s, done, perm, why)
    requires Applies(p, s, g) ==>
      && perm' == perm + (set c | c in Expand(g.perm))
      && why' == Explained(why, Expand(g.perm), GrantReason(g))
    requires !Applies(p, s, g) ==> perm' == perm && why' == why
    ensures Resolved(p, s, done + [g], perm', why')
  {
    forall c: Cap
      ensures c in perm' <==> c in Access(p, s, done + [g])
      ensures c in perm' <==> c in why'
      ensures c in perm' ==> why'[c] == Explanation(p, s, done + [g], c)
    {
      AllCaps(c);
      ConferredSnoc(p, s, done, g, c);
      ExplanationSnoc(p, s, done, g, c);
      ExpandExact(g.perm, c);
      assert c in perm && !Conferred(p, s, done, c) ==> Rank(why[c].kind) < Rank(ReasonGrant);
    }
  }

  lemma ResolvedRefused(p: Principal, s: Subject, grants: seq<Grant>,
                        perm: Perm, why: map<Cap, Reason>, why': map<Cap, Reason>)
    requires Governed(p)
    requires Resolved(p, s, grants, perm, why)
    requires why' == Refused(why, perm, EACH, c => DenialDetail(s, c))
    ensures why'.Keys == ALL
    ensures forall c :: c in why' ==> why'[c] == Explanation(p, s, grants, c)
  {
    forall c: Cap ensures c in why' && why'[c] == Explanation(p, s, grants, c) {
      AllCaps(c);
    }
  }

  lemma ConferredSnoc(p: Principal, s: Subject, done: seq<Grant>, g: Grant, c: Cap)
    ensures Conferred(p, s, done + [g], c) <==> Conferred(p, s, done, c) || Confers(p, s, g, c)
  {
    var all := done + [g];
    if Conferred(p, s, done, c) {
      var i :| 0 <= i < |done| && Confers(p, s, done[i], c);
      assert all[i] == done[i];
    }
    assert all[|done|] == g;
  }

  lemma ExplanationSnoc(p: Principal, s: Subject, done: seq<Grant>, g: Grant, c: Cap)
    requires Governed(p)
    ensures Explanation(p, s, done + [g], c) ==
            if !Conferred(p, s, done, c) && Confers(p, s, g, c) then GrantReason(g) else Explanation(p, s, done, c)
  {
    ConferredSnoc(p, s, done, g, c);
    var all := done + [g];
    if Conferred(p, s, all, c) {
      var i := FirstConferring(p, s, all, c);
      if Conferred(p, s, done, c) {
        var j := FirstConferring(p, s, done, c);
        assert all[j] == done[j];
        assert i <= j;
        assert all[i] == done[i];
      } else {
        assert i == |done|;
      }
    }
  }

  // ----- consequences -----

  /** Whom a grant reaches: one to somebody else changes neither access nor any
      explanation, whatever it carries. */
  lemma GrantToOthersIsInert(p: Principal, s: Subject, grants: seq<Grant>, g: Grant)
    requires g.principalId !in {p.id, EVERYONE_ID}
    ensures Access(p, s, grants + [g]) == Access(p, s, grants)
    ensures forall c :: Explanation(p, s, grants + [g], c) == Explanation(p, s, grants, c)
  {
    UselessGrant(p, s, grants, g);
  }

  /** Nor does one for other pipes. */
  lemma GrantElsewhereIsInert(p: Principal, s: Subject, grants: seq<Grant>, g: Grant)
    requires !Match(g.selector, s.path)
    ensures Access(p, s, grants + [g]) == Access(p, s, grants)
    ensures forall c :: Explanation(p, s, grants + [g], c) == Explanation(p, s, grants, c)
  {
    UselessGrant(p, s, grants, g);
  }

  lemma UselessGrant(p: Principal, s: Subject, grants: seq<Grant>, g: Grant)
    requires !Applies(p, s, g)
    ensures Access(p, s, grants + [g]) == Access(p, s, grants)
    ensures forall c :: Explanation(p, s, grants + [g], c) == Explanation(p, s, grants, c)
  {
    forall c: Cap
      ensures Conferred(p, s, grants + [g], c) <==> Conferred(p, s, grants, c)
      ensures Explanation(p, s, grants + [g], c) == Explanation(p, s, grants, c)
    {
      ConferredSnoc(p, s, grants, g, c);
      if Governed(p) { ExplanationSnoc(p, s, grants, g, c); }
    }
  }

  /** What one does that reaches the principal, by name or through everyone: it adds
      what it carries, and with admin all three. */
  lemma GrantReaches(p: Principal, s: Subject, grants: seq<Grant>, g: Grant)
    requires p.orgRole != "" && g.principalId in {p.id, EVERYONE_ID} && Match(g.selector, s.path)
    ensures Access(p, s, grants + [g]) ==
            Access(p, s, grants) + if Admin in g.perm then {Read, Write, Admin} else g.perm
  {
    forall c: Cap
      ensures c in ALL
      ensures Conferred(p, s, grants + [g], c) <==> Conferred(p, s, grants, c) || c in g.perm || Admin in g.perm
    {
      AllCaps(c);
      ConferredSnoc(p, s, grants, g, c);
    }
  }

  /** Access from the request alone, case by case. */
  lemma AccessSpelledOut(p: Principal, s: Subject, grants: seq<Grant>, c: Cap)
    ensures c in Access(p, s, grants) <==>
            p.orgRole != "" &&
            (|| p.orgRole in {"owner", "admin"}
             || (s.collar != "" && s.owner != 0 && s.owner == p.id)
             || (s.collar == "" && c in {Read, Write})
             || (s.collar != "" && s.name == "inbox" && c == Write)
             || (s.collar != "" && s.name == "heartbeat" && c == Read)
             || exists i :: 0 <= i < |grants| && grants[i].principalId in {p.id, 2} &&
                            Match(grants[i].selector, s.path) && (c in grants[i].perm || Admin in grants[i].perm))
  {
    AllCaps(c);
    assert forall i :: 0 <= i < |grants| ==>
        (Confers(p, s, grants[i], c) <==>
           (grants[i].principalId in {p.id, 2} && Match(grants[i].selector, s.path) &&
            (c in grants[i].perm || Admin in grants[i].perm)));
  }

  /** Which grant an explanation names: the first stored one that reaches the principal
      on that pipe and carries the capability. */
  lemma GrantNamed(p: Principal, s: Subject, grants: seq<Grant>, c: Cap, i: nat)
    requires p.orgRole !in {"", "owner", "admin"} && i < |grants|
    requires grants[i].principalId in {p.id, 2} && Match(grants[i].selector, s.path)
    requires c in grants[i].perm || Admin in grants[i].perm
    requires forall j :: 0 <= j < i ==>
               grants[j].principalId !in {p.id, 2} || !Match(grants[j].selector, s.path) ||
               (c !in grants[j].perm && Admin !in grants[j].perm)
    ensures var r := Explanation(p, s, grants, c);
            r.kind == ReasonGrant && r.grant == Some(grants[i]) && r.detail == "grant by " + grants[i].grantedBy
  {
    AllCaps(c);
    assert Confers(p, s, grants[i], c);
    assert forall j :: 0 <= j < i ==> !Confers(p, s, grants[j], c);
    var k := FirstConferring(p, s, grants, c);
    assert k == i;
  }

  /** And without one, every other explanation. */
  lemma ReasonsSpelledOut(p: Principal, s: Subject, grants: seq<Grant>, c: Cap)
    requires forall i :: 0 <= i < |grants| ==>
               grants[i].principalId !in {p.id, 2} || !Match(grants[i].selector, s.path)
    ensures Explanation(p, s, grants, c) ==
            if p.orgRole == "" then Reason(ReasonNone, None, "not a member of this org")
            else if p.orgRole in {"owner", "admin"} then Reason(ReasonOrgRole, None, "org " + p.orgRole)
            else if s.collar == "" then
              if c == Admin then Reason(ReasonNone, None, "no grant")
              else Reason(ReasonDefault, None, "default — org-shared space")
            else if s.owner != 0 && s.owner == p.id then Reason(ReasonHandleOwner, None, "handle owner")
            else if s.name == "inbox" && c == Write then Reason(ReasonDefault, None, "default — inbox is write-open")
            else if s.name == "heartbeat" && c == Read then
              Reason(ReasonDefault, None, "default — presence is read-open")
            else Reason(ReasonNone, None,
              if s.name == "inbox" && c == Read then "no grant; only the handle owner may read an inbox"
              else if s.name == "heartbeat" && c == Write then
                "no grant; only the handle owner may publish its heartbeat"
              else if c == Admin then "not the handle owner, not an org admin"
              else "no grant; pipes under a handle are owner-only by default")
  {
    assert forall i :: 0 <= i < |grants| ==> !Confers(p, s, grants[i], c);
    AllCaps(c);
  }

  /** The order in which grants are stored never changes what they allow, and
      widening the stored set never narrows anybody. */
  lemma AccessMonotone(p: Principal, s: Subject, few: seq<Grant>, more: seq<Grant>)
    requires forall g :: g in few ==> g in more
    ensures Access(p, s, few) <= Access(p, s, more)
  {
    forall c | Conferred(p, s, few, c) ensures Conferred(p, s, more, c) {
      var i :| 0 <= i < |few| && Confers(p, s, few[i], c);
      assert few[i] in few;
      var j :| 0 <= j < |more| && more[j] == few[i];
      assert Confers(p, s, more[j], c);
    }
  }

  lemma AccessOrderFree(p: Principal, s: Subject, a: seq<Grant>, b: seq<Grant>)
    requires multiset(a) == multiset(b)
    ensures Access(p, s, a) == Access(p, s, b)
  {
    forall g ensures g in a <==> g in b {
      assert g in multiset(a) <==> g in multiset(b);
    }
    AccessMonotone(p, s, a, b);
    AccessMonotone(p, s, b, a);
  }

  /** Holding admin always means holding all three. */
  lemma AdminClosed(p: Principal, s: Subject, grants: seq<Grant>)
    ensures Effective(Access(p, s, grants)) == Access(p, s, grants)
  {
    if Admin in Access(p, s, grants) {
      if Admin !in BaseAccess(p, s) {
        var i :| 0 <= i < |grants| && Confers(p, s, grants[i], Admin);
        forall c: Cap ensures Conferred(p, s, grants, c) {
          AllCaps(c);
          assert Confers(p, s, grants[i], c);
        }
      }
    }
  }

  /** The documented defaults, for a member on a pipe that is not theirs and that no
      grant reaches: shared space is open, an inbox takes mail from anyone, presence
      can be seen by anyone, everything else under a handle is private. */
  lemma DefaultTable(p: Principal, s: Subject, grants: seq<Grant>)
    requires Governed(p) && !OwnsHandle(p, s)
    requires forall i :: 0 <= i < |grants| ==> !Applies(p, s, grants[i])
    ensures s.collar == "" ==> Access(p, s, grants) == {Read, Write}
    ensures s.collar != "" && s.name == "inbox" ==> Access(p, s, grants) == {Write}
    ensures s.collar != "" && s.name == "heartbeat" ==> Access(p, s, grants) == {Read}
    ensures s.collar != "" && s.name !in {"inbox", "heartbeat"} ==> Access(p, s, grants) == {}
  {
    forall c: Cap ensures !Conferred(p, s, grants, c) {
    }
  }

  /** Whatever role text is not one of the administering ones and not empty is
      evaluated exactly like a plain member. */
  lemma OtherRolesAreMembers(p: Principal, s: Subject, grants: seq<Grant>)
    requires Governed(p)
    ensures Access(p, s, grants) == Access(p.(orgRole := "member"), s, grants)
  {
    var q := p.(orgRole := "member");
    forall c: Cap ensures Conferred(p, s, grants, c) <==> Conferred(q, s, grants, c) {
      assert forall g: Grant :: Confers(p, s, g, c) == Confers(q, s, g, c);
    }
  }

  /** So the one role that is shut out everywhere is the empty one. */
  lemma ShutOutIff(p: Principal)
    ensures (forall s, grants :: Access(p, s, grants) == {}) <==> p.orgRole == ""
  {
    var shared := Subject("x", "", "x", NIL_ID);
    assert p.orgRole != "" ==> Read in Access(p, shared, []);
  }

  /** The role lookup every caller of the evaluator uses: the account's owner, then
      the stored membership role, with anything unexpected read as "member". */
  function RoleInOrg(isOwner: bool, stored: Option<string>): (role: string)
    ensures role in {"", "member", "admin", "owner"}
    ensures role == "" <==> !isOwner && stored.None?
    ensures role == "owner" <==> isOwner
    ensures role == "admin" <==> !isOwner && stored in {Some("admin"), Some("owner")}
  {
    if isOwner then "owner"
    else if stored.None? then ""
    else if stored.value == "admin" || stored.value == "owner" then "admin"
    else "member"
  }

  /** The kinds of reason that would each confer `c`. */
  function Contributors(p: Principal, s: Subject, grants: seq<Grant>, c: Cap): set<ReasonKind> {
    if p.orgRole == "" then {}
    else (if CanAdministerOrg(p.orgRole) then {ReasonOrgRole} else {}) +
         (if Conferred(p, s, grants, c) then {ReasonGrant} else {}) +
         (if OwnsHandle(p, s) then {ReasonHandleOwner} else if c in DefaultsFor(s) then {ReasonDefault} else {})
  }

  /** A capability is held iff its reason is not "none", and the surviving
      reason is the highest-ranked contributor. */
  lemma ReasonIsBest(p: Principal, s: Subject, grants: seq<Grant>, c: Cap)
    ensures c in Access(p, s, grants) <==> Explanation(p, s, grants, c).kind != ReasonNone
    ensures c in Access(p, s, grants) ==> Explanation(p, s, grants, c).kind in Contributors(p, s, grants, c)
    ensures forall k :: k in Contributors(p, s, grants, c) ==> Rank(k) <= Rank(Explanation(p, s, grants, c).kind)
  {
    AllCaps(c);
  }

  /** Revoking the grant a decision names always changes that explanation
      (when no equal row remains), so a revoke is never silent. */
  lemma RevokeIsVisible(p: Principal, s: Subject, grants: seq<Grant>, c: Cap, rest: seq<Grant>)
    requires Governed(p) && Conferred(p, s, grants, c)
    requires Explanation(p, s, grants, c).grant.value !in rest
    ensures Explanation(p, s, rest, c) != Explanation(p, s, grants, c)
  {
    if Conferred(p, s, rest, c) {
      var i := FirstConferring(p, s, rest, c);
      assert rest[i] in rest;
    }
  }
}
