/** Everything a compiled credential permits (internal/acl/compile.go), token by token:
    the stream API, the wire subjects, and nothing else. */
module ControlPlane {
  import opened Text
  import opened Nats
  import opened Acl
  import opened Compiler
  import opened CompilerMeaning

  // ----- the shapes -----

  /** A request that reads `stream`. */
  predicate ReadsStream(ts: seq<string>, stream: string) {
    || ts == ["$JS", "API", "STREAM", "INFO", stream]
    || ts == ["$JS", "API", "STREAM", "MSG", "GET", stream]
    || ts == ["$JS", "API", "DIRECT", "GET", stream]
    || (|ts| > 5 && ts[..5] == ["$JS", "API", "CONSUMER", "CREATE", stream])
    || (|ts| > 6 && ts[..6] == ["$JS", "API", "CONSUMER", "MSG", "NEXT", stream])
  }

  /** A request in one of the five read families, on whatever follows. */
  predicate InReadFamily(ts: seq<string>) {
    || (|ts| > 4 && ts[..4] == ["$JS", "API", "STREAM", "INFO"])
    || (|ts| > 5 && ts[..5] == ["$JS", "API", "STREAM", "MSG", "GET"])
    || (|ts| > 4 && ts[..4] == ["$JS", "API", "DIRECT", "GET"])
    || (|ts| > 4 && ts[..4] == ["$JS", "API", "CONSUMER", "CREATE"])
    || (|ts| > 5 && ts[..5] == ["$JS", "API", "CONSUMER", "MSG", "NEXT"])
  }

  /** A request to list, or to manage, streams. */
  predicate ManagesStreams(ts: seq<string>) {
    || ts == ["$JS", "API", "STREAM", "LIST"]
    || ts == ["$JS", "API", "STREAM", "NAMES"]
    || (|ts| > 4 && ts[..3] == ["$JS", "API", "STREAM"] && ts[3] in {"CREATE", "UPDATE", "DELETE", "PURGE"})
  }

  predicate MayRead(perm: Perm) { Read in perm || Admin in perm }

  predicate MayWrite(perm: Perm) { Write in perm || Admin in perm }

  // ----- what the entries cover -----

  lemma {:induction false} PrefixThenMore(h: seq<string>, ts: seq<string>)
    requires Literal(h)
    ensures TokensMatch(h + [">"], ts) <==> |ts| > |h| && ts[..|h|] == h
  {
    if h == [] {
      assert h + [">"] == [">"];
    } else {
      var p := h + [">"];
      assert p[0] == h[0] && p[1..] == h[1..] + [">"] && LiteralToken(h[0]);
      if ts != [] {
        PrefixThenMore(h[1..], ts[1..]);
        ConsPrefix(h, ts);
      }
    }
  }

  lemma ConsPrefix(h: seq<string>, ts: seq<string>)
    requires h != [] && ts != []
    ensures |ts| > |h| && ts[..|h|] == h <==> h[0] == ts[0] && |ts[1..]| > |h[1..]| && ts[1..][..|h[1..]|] == h[1..]
  {
    if |ts| > |h| {
      assert ts[..|h|] == [ts[0]] + ts[1..][..|h| - 1];
      assert h == [h[0]] + h[1..];
    }
  }

  lemma EntryExact(pat: string, h: seq<string>, more: bool, subject: string)
    requires Literal(h) && Tokens(pat) == h + if more then [">"] else []
    ensures Matches(pat, subject) <==>
            var ts := Tokens(subject); if more then |ts| > |h| && ts[..|h|] == h else ts == h
  {
    if more {
      PrefixThenMore(h, Tokens(subject));
    } else {
      assert h + [] == h;
      LiteralMatch(h, Tokens(subject));
    }
  }

  lemma ReadEntryExact(k: nat, stream: string, subject: string)
    requires k < 5 && StreamToken(stream)
    ensures Matches(ReadEntries(stream)[k], subject) <==>
            var ts, h := Tokens(subject), Head(k) + [stream];
            if k >= 3 then |ts| > |h| && ts[..|h|] == h else ts == h
  {
    ReadTokens(k, stream, "");
    EntryExact(ReadEntries(stream)[k], Head(k) + [stream], k >= 3, subject);
  }

  lemma Heads(stream: string)
    ensures Head(0) + [stream] == ["$JS", "API", "STREAM", "INFO", stream]
    ensures Head(1) + [stream] == ["$JS", "API", "STREAM", "MSG", "GET", stream]
    ensures Head(2) + [stream] == ["$JS", "API", "DIRECT", "GET", stream]
    ensures Head(3) + [stream] == ["$JS", "API", "CONSUMER", "CREATE", stream]
    ensures Head(4) + [stream] == ["$JS", "API", "CONSUMER", "MSG", "NEXT", stream]
  {
  }

  lemma AnyOfFive(es: seq<string>, subject: string)
    requires |es| == 5
    ensures AnyMatches(es, subject) <==>
            || Matches(es[0], subject) || Matches(es[1], subject) || Matches(es[2], subject)
            || Matches(es[3], subject) || Matches(es[4], subject)
  {
  }

  lemma ReadEntriesExact(stream: string, subject: string)
    requires StreamToken(stream)
    ensures AnyMatches(ReadEntries(stream), subject) <==> ReadsStream(Tokens(subject), stream)
  {
    AnyOfFive(ReadEntries(stream), subject);
    Heads(stream);
    ReadEntryExact(0, stream, subject);
    ReadEntryExact(1, stream, subject);
    ReadEntryExact(2, stream, subject);
    ReadEntryExact(3, stream, subject);
    ReadEntryExact(4, stream, subject);
  }

  lemma BroadEntryExact(k: nat, subject: string)
    requires k < 5
    ensures Matches(BroadEntries()[k], subject) <==>
            var ts, h := Tokens(subject), Head(k); |ts| > |h| && ts[..|h|] == h
  {
    ReadTokens(k, "", "");
    EntryExact(BroadEntries()[k], Head(k), true, subject);
  }

  lemma BroadEntriesExact(subject: string)
    ensures AnyMatches(BroadEntries(), subject) <==> InReadFamily(Tokens(subject))
  {
    AnyOfFive(BroadEntries(), subject);
    BroadEntryExact(0, subject);
    BroadEntryExact(1, subject);
    BroadEntryExact(2, subject);
    BroadEntryExact(3, subject);
    BroadEntryExact(4, subject);
  }

  lemma AllowedExact(subject: string)
    ensures AnyMatches(ALWAYS_ALLOWED, subject) <==> Tokens(subject) == ["$JS", "API", "INFO"]
  {
    AllowedTokens();
    EntryExact(ALWAYS_ALLOWED[0], ["$JS", "API", "INFO"], false, subject);
    assert |ALWAYS_ALLOWED| == 1;
  }

  lemma DeniedEntryExact(i: nat, subject: string)
    requires i < 6
    ensures Matches(ALWAYS_DENIED[i], subject) <==> Manages(Tokens(subject), DeniedVerb(i), i >= 2)
  {
    DeniedTokens(i);
    VerbLiteral(DeniedVerb(i));
    EntryExact(ALWAYS_DENIED[i], ["$JS", "API", "STREAM", DeniedVerb(i)], i >= 2, subject);
    if |Tokens(subject)| > 4 { FirstFour(Tokens(subject), DeniedVerb(i)); }
  }

  predicate Manages(ts: seq<string>, verb: string, more: bool) {
    if more then |ts| > 4 && ts[..3] == ["$JS", "API", "STREAM"] && ts[3] == verb
    else ts == ["$JS", "API", "STREAM", verb]
  }

  lemma FirstFour(ts: seq<string>, verb: string)
    requires |ts| > 4
    ensures ts[..4] == ["$JS", "API", "STREAM", verb] <==> ts[..3] == ["$JS", "API", "STREAM"] && ts[3] == verb
  {
    assert ts[..4] == ts[..3] + [ts[3]];
    assert ["$JS", "API", "STREAM", verb] == ["$JS", "API", "STREAM"] + [verb];
    if ts[..4] == ["$JS", "API", "STREAM", verb] {
      assert ts[..3] == ts[..4][..3] == ["$JS", "API", "STREAM", verb][..3] == ["$JS", "API", "STREAM"];
    }
  }

  lemma ManagesCases(ts: seq<string>)
    ensures ManagesStreams(ts) <==>
            || Manages(ts, "LIST", false) || Manages(ts, "NAMES", false)
            || Manages(ts, "CREATE", true) || Manages(ts, "UPDATE", true)
            || Manages(ts, "DELETE", true) || Manages(ts, "PURGE", true)
  {
  }

  lemma DeniedExact(subject: string)
    ensures AnyMatches(ALWAYS_DENIED, subject) <==> ManagesStreams(Tokens(subject))
  {
    DeniedEntryExact(0, subject);
    DeniedEntryExact(1, subject);
    DeniedEntryExact(2, subject);
    DeniedEntryExact(3, subject);
    DeniedEntryExact(4, subject);
    DeniedEntryExact(5, subject);
    AnyOfSix(ALWAYS_DENIED, subject);
    ManagesCases(Tokens(subject));
  }

  lemma AnyOfSix(es: seq<string>, subject: string)
    requires |es| == 6
    ensures AnyMatches(es, subject) <==>
            || Matches(es[0], subject) || Matches(es[1], subject) || Matches(es[2], subject)
            || Matches(es[3], subject) || Matches(es[4], subject) || Matches(es[5], subject)
  {
  }

  predicate ReadsOneOf(ts: seq<string>, pipes: seq<PipeRef>) {
    exists i :: 0 <= i < |pipes| && ReadsStream(ts, pipes[i].stream)
  }

  lemma ReadsOneOfSnoc(ts: seq<string>, pipes: seq<PipeRef>, pipe: PipeRef)
    ensures ReadsOneOf(ts, pipes + [pipe]) <==> ReadsOneOf(ts, pipes) || ReadsStream(ts, pipe.stream)
  {
    var all := pipes + [pipe];
    assert all[|pipes|] == pipe;
    if ReadsOneOf(ts, pipes) {
      var i :| 0 <= i < |pipes| && ReadsStream(ts, pipes[i].stream);
      assert all[i] == pipes[i];
    }
  }

  lemma {:induction false} EntriesForExact(pipes: seq<PipeRef>, subject: string)
    requires forall i :: 0 <= i < |pipes| ==> StreamToken(pipes[i].stream)
    ensures AnyMatches(EntriesFor(pipes), subject) <==> ReadsOneOf(Tokens(subject), pipes)
  {
    if pipes != [] {
      var n := |pipes| - 1;
      EntriesForExact(pipes[..n], subject);
      ReadEntriesExact(pipes[n].stream, subject);
      AnyMatchesConcat(EntriesFor(pipes[..n]), ReadEntries(pipes[n].stream), subject);
      ReadsOneOfSnoc(Tokens(subject), pipes[..n], pipes[n]);
      assert pipes == pipes[..n] + [pipes[n]];
    }
  }

  /** A request that reads the stream of some listed pipe which may be read - or may not. */
  predicate ReadsListed(ts: seq<string>, access: seq<PipeAccess>, readable: bool) {
    exists i :: 0 <= i < |access| && MayRead(access[i].perm) == readable && ReadsStream(ts, access[i].pipe.stream)
  }

  lemma ReadsListedSnoc(ts: seq<string>, access: seq<PipeAccess>, a: PipeAccess, readable: bool)
    ensures ReadsListed(ts, access + [a], readable) <==>
            ReadsListed(ts, access, readable) || (MayRead(a.perm) == readable && ReadsStream(ts, a.pipe.stream))
  {
    var all := access + [a];
    assert all[|access|] == a;
    if ReadsListed(ts, access, readable) {
      var i :| 0 <= i < |access| && MayRead(access[i].perm) == readable && ReadsStream(ts, access[i].pipe.stream);
      assert all[i] == access[i];
    }
  }

  lemma {:induction false} PipesWhereExact(access: seq<PipeAccess>, readable: bool, ts: seq<string>)
    ensures ReadsOneOf(ts, PipesWhere(access, readable)) <==> ReadsListed(ts, access, readable)
  {
    if access != [] {
      var n := |access| - 1;
      PipesWhereExact(access[..n], readable, ts);
      ReadsListedSnoc(ts, access[..n], access[n], readable);
      assert access == access[..n] + [access[n]];
      if CanRead(access[n]) == readable {
        ReadsOneOfSnoc(ts, PipesWhere(access[..n], readable), access[n].pipe);
      } else {
        assert PipesWhere(access[..n], readable) + [] == PipesWhere(access[..n], readable);
      }
    }
  }

  /** How many listed pipes may be read. */
  function Readable(access: seq<PipeAccess>): (n: nat) {
    |set i | 0 <= i < |access| && MayRead(access[i].perm)|
  }

  lemma {:induction false} ReadableExact(access: seq<PipeAccess>)
    ensures |PipesWhere(access, true)| == Readable(access)
    ensures |PipesWhere(access, true)| + |PipesWhere(access, false)| == |access|
  {
    if access != [] {
      var n := |access| - 1;
      var init := access[..n];
      ReadableExact(init);
      var all := set i | 0 <= i < |access| && MayRead(access[i].perm);
      var before := set i | 0 <= i < |init| && MayRead(init[i].perm);
      assert all == before + if MayRead(access[n].perm) then {n} else {};
    }
  }

  // ----- the exact sets -----

  lemma FamiliesApart(ts: seq<string>, stream: string)
    ensures ManagesStreams(ts) ==> !InReadFamily(ts) && !ReadsStream(ts, stream) && ts != ["$JS", "API", "INFO"]
    ensures ReadsStream(ts, stream) ==> InReadFamily(ts) && ts != ["$JS", "API", "INFO"]
    ensures InReadFamily(ts) ==> ts != ["$JS", "API", "INFO"]
  {
    if |ts| > 4 {
      FirstThree(ts);
    }
    if ReadsStream(ts, stream) { ReadFamilyOf(ts, stream); }
  }

  lemma FirstThree(ts: seq<string>)
    requires |ts| > 4
    ensures forall a, b, c, d: string :: ts[..4] == [a, b, c, d] ==> ts[2] == c && ts[3] == d
    ensures forall a, b, c, d, e: string :: |ts| > 5 && ts[..5] == [a, b, c, d, e] ==> ts[2] == c && ts[3] == d
  {
    assert ts[..4][2] == ts[2] && ts[..4][3] == ts[3];
    if |ts| > 5 { assert ts[..5][2] == ts[2] && ts[..5][3] == ts[3]; }
  }

  lemma ReadFamilyOf(ts: seq<string>, stream: string)
    requires ReadsStream(ts, stream)
    ensures InReadFamily(ts)
  {
    assert |ts| > 5 ==> ts[..5][..4] == ts[..4];
    assert |ts| > 6 ==> ts[..6][..5] == ts[..5];
    assert ["$JS", "API", "CONSUMER", "CREATE", stream][..4] == ["$JS", "API", "CONSUMER", "CREATE"];
    assert ["$JS", "API", "CONSUMER", "MSG", "NEXT", stream][..5] == ["$JS", "API", "CONSUMER", "MSG", "NEXT"];
  }

  /** The whole control plane, for every table and every subject under it. Listing the
      readable pipes, a credential permits the account query and the five read requests
      on the stream of a pipe it may read. Listing the others, which is done when that
      is shorter, it permits every request of the five families except the five read
      requests on the stream of a pipe it may not read. */
  lemma ControlPlaneExact(account: string, access: seq<PipeAccess>, subject: string)
    requires WellFormed(account, access) && Tokens(subject)[0] == "$JS"
    ensures var ts := Tokens(subject);
            PermitsPublish(Compiled(account, access), subject) <==>
            || ts == ["$JS", "API", "INFO"]
            || if 1 + |access| - Readable(access) < Readable(access)
               then InReadFamily(ts) && !ReadsListed(ts, access, false)
               else ReadsListed(ts, access, true)
  {
    var ts := Tokens(subject);
    ReadableExact(access);
    ReadPartsExact(access, subject);
    BroadEntriesExact(subject);
    AllowedExact(subject);
    DeniedExact(subject);
    WireSubjectsElsewhere(account, access, subject);
    PublishParts(account, access, subject);
    if ReadsListed(ts, access, true) { ListedApart(ts, access, true); }
    if ReadsListed(ts, access, false) { ListedApart(ts, access, false); }
    FamiliesApart(ts, "");
  }

  lemma WireSubjectsElsewhere(account: string, access: seq<PipeAccess>, subject: string)
    requires WellFormed(account, access) && Tokens(subject)[0] == "$JS"
    ensures !AnyMatches(Writable(account, access), subject)
  {
    WiresOutsideJs(account, access, subject);
  }

  lemma ReadPartsExact(access: seq<PipeAccess>, subject: string)
    requires forall i :: 0 <= i < |access| ==> StreamToken(access[i].pipe.stream)
    ensures forall b: bool ::
              AnyMatches(EntriesFor(PipesWhere(access, b)), subject) <==> ReadsListed(Tokens(subject), access, b)
  {
    forall b: bool
      ensures AnyMatches(EntriesFor(PipesWhere(access, b)), subject) <==> ReadsListed(Tokens(subject), access, b)
    {
      PipesWhereStreams(access, b);
      EntriesForExact(PipesWhere(access, b), subject);
      PipesWhereExact(access, b, Tokens(subject));
    }
  }

  lemma ListedApart(ts: seq<string>, access: seq<PipeAccess>, readable: bool)
    requires ReadsListed(ts, access, readable)
    ensures InReadFamily(ts) && !ManagesStreams(ts) && ts != ["$JS", "API", "INFO"]
  {
    var i :| 0 <= i < |access| && MayRead(access[i].perm) == readable && ReadsStream(ts, access[i].pipe.stream);
    FamiliesApart(ts, access[i].pipe.stream);
  }

  /** A credential's publish half, taken apart into its lists. */
  lemma PublishParts(account: string, access: seq<PipeAccess>, subject: string)
    ensures var broad := PrefersBroad(access);
            PermitsPublish(Compiled(account, access), subject) <==>
            && (|| AnyMatches(ALWAYS_ALLOWED, subject) || AnyMatches(Writable(account, access), subject)
                || AnyMatches(if broad then BroadEntries() else EntriesFor(PipesWhere(access, true)), subject))
            && !AnyMatches(ALWAYS_DENIED, subject)
            && !(broad && AnyMatches(EntriesFor(PipesWhere(access, false)), subject))
  {
    var broad := PrefersBroad(access);
    var readPart := if broad then BroadEntries() else EntriesFor(PipesWhere(access, true));
    AnyMatchesConcat(ALWAYS_ALLOWED, Writable(account, access), subject);
    AnyMatchesConcat(ALWAYS_ALLOWED + Writable(account, access), readPart, subject);
    AnyMatchesConcat(ALWAYS_DENIED, if broad then EntriesFor(PipesWhere(access, false)) else [], subject);
  }

  /** The subject a pipe is reached by: its own, or else its path under the account. */
  predicate ReachedBy(r: PipeRef, account: string, subject: string) {
    subject == if r.subject != "" then r.subject else account + "." + r.path
  }

  ghost predicate LiteralWires(account: string, access: seq<PipeAccess>) {
    forall i, wire :: 0 <= i < |access| && ReachedBy(access[i].pipe, account, wire) ==> Literal(Tokens(wire))
  }

  lemma WireExact(r: PipeRef, account: string, subject: string)
    requires forall wire :: ReachedBy(r, account, wire) ==> Literal(Tokens(wire))
    ensures Matches(WireSubject(r, account), subject) <==> ReachedBy(r, account, subject)
  {
    assert ReachedBy(r, account, WireSubject(r, account));
    LiteralSubjectMatch(WireSubject(r, account), subject);
  }

  /** Outside the control plane: exactly the subjects of the pipes that may be written. */
  lemma PublishExact(account: string, access: seq<PipeAccess>, subject: string)
    requires WellFormed(account, access) && LiteralWires(account, access) && Tokens(subject)[0] != "$JS"
    ensures PermitsPublish(Compiled(account, access), subject) <==>
            exists i :: 0 <= i < |access| && MayWrite(access[i].perm) && ReachedBy(access[i].pipe, account, subject)
  {
    PublishMeaning(account, access, subject);
    forall i | 0 <= i < |access|
      ensures Matches(WireSubject(access[i].pipe, account), subject) <==> ReachedBy(access[i].pipe, account, subject)
    {
      WireExact(access[i].pipe, account, subject);
    }
  }

  predicate OpenToAll(account: string, ts: seq<string>) {
    || (|ts| > 1 && ts[0] == "_INBOX")
    || (|ts| > 2 && ts[0] == account && ts[1] in {"_presence", "_system"})
  }

  lemma TwoOf(ts: seq<string>, a: string, b: string)
    requires |ts| > 2
    ensures ts[..2] == [a, b] <==> ts[0] == a && ts[1] == b
  {
    assert ts[..2] == [ts[0], ts[1]];
  }

  lemma BaseExact(account: string, subject: string)
    requires '.' !in account && LiteralToken(account)
    ensures AnyMatches(BaseSubscriptions(account), subject) <==> OpenToAll(account, Tokens(subject))
  {
    var ts := Tokens(subject);
    FamilyTokens(account);
    var base := BaseSubscriptions(account);
    EntryExact(base[0], ["_INBOX"], true, subject);
    EntryExact(base[1], [account, "_presence"], true, subject);
    EntryExact(base[2], [account, "_system"], true, subject);
    if |ts| > 2 {
      TwoOf(ts, account, "_presence");
      TwoOf(ts, account, "_system");
    }
    assert |ts| > 1 ==> ts[..1] == [ts[0]];
    AnyOfThree(base, subject);
  }

  lemma AnyOfThree(es: seq<string>, subject: string)
    requires |es| == 3
    ensures AnyMatches(es, subject) <==> Matches(es[0], subject) || Matches(es[1], subject) || Matches(es[2], subject)
  {
  }

  lemma FamilyTokens(account: string)
    requires '.' !in account
    ensures Tokens(BaseSubscriptions(account)[0]) == ["_INBOX"] + [">"]
    ensures Tokens(BaseSubscriptions(account)[1]) == [account, "_presence"] + [">"]
    ensures Tokens(BaseSubscriptions(account)[2]) == [account, "_system"] + [">"]
  {
    InboxFamily();
    Dotted3Tokens(account, "_presence", ">");
    Dotted3Tokens(account, "_system", ">");
    FamilyText(account);
  }

  lemma InboxFamily()
    ensures Tokens("_INBOX.>") == ["_INBOX"] + [">"]
  {
    SplitToken("_INBOX", '.');
    SplitToken(">", '.');
    SplitAppend("_INBOX", '.', ">");
    InboxText();
  }

  lemma InboxText() ensures "_INBOX.>" == "_INBOX" + "." + ">" {}

  lemma FamilyText(account: string)
    ensures account + "._presence.>" == account + "." + "_presence" + "." + ">"
    ensures account + "._system.>" == account + "." + "_system" + "." + ">"
  {
  }

  /** Subscriptions: the principal's inboxes, the account's presence and system families,
      and exactly the subjects of the pipes that may be read. */
  lemma SubscribeExact(account: string, access: seq<PipeAccess>, subject: string)
    requires '.' !in account && LiteralToken(account) && LiteralWires(account, access)
    ensures PermitsSubscribe(Compiled(account, access), subject) <==>
            || OpenToAll(account, Tokens(subject))
            || exists i :: 0 <= i < |access| && MayRead(access[i].perm) && ReachedBy(access[i].pipe, account, subject)
  {
    BaseExact(account, subject);
    AnyMatchesConcat(BaseSubscriptions(account), Listenable(account, access), subject);
    ListenableMatch(account, access, subject);
    forall i | 0 <= i < |access|
      ensures Matches(WireSubject(access[i].pipe, account), subject) <==> ReachedBy(access[i].pipe, account, subject)
    {
      WireExact(access[i].pipe, account, subject);
    }
  }
}
