/** What a compiled credential permits, for every access table. */
module CompilerMeaning {
  import opened Common
  import opened Text
  import opened Nats
  import opened Compiler

  // ----- entries under the control-plane prefix -----

  predicate UnderJs(entries: seq<string>) {
    forall i :: 0 <= i < |entries| ==> Tokens(entries[i])[0] == "$JS"
  }

  lemma JsNeverMatchesOutside(entries: seq<string>, subject: string)
    requires UnderJs(entries) && Tokens(subject)[0] != "$JS"
    ensures !AnyMatches(entries, subject)
  {
    forall i | 0 <= i < |entries| ensures !Matches(entries[i], subject) {
      MismatchAt(Tokens(entries[i]), Tokens(subject), 0);
    }
  }

  lemma ReadEntriesUnderJs(stream: string)
    requires StreamToken(stream)
    ensures UnderJs(ReadEntries(stream)) && UnderJs(BroadEntries())
  {
    forall k | 0 <= k < 5
      ensures Tokens(ReadEntries(stream)[k])[0] == "$JS" && Tokens(BroadEntries()[k])[0] == "$JS"
    {
      ReadTokens(k, stream, "");
      assert Head(k)[0] == "$JS";
    }
  }

  lemma {:induction false} EntriesForUnderJs(pipes: seq<PipeRef>)
    requires forall i :: 0 <= i < |pipes| ==> StreamToken(pipes[i].stream)
    ensures UnderJs(EntriesFor(pipes))
  {
    if pipes != [] {
      var n := |pipes| - 1;
      EntriesForUnderJs(pipes[..n]);
      ReadEntriesUnderJs(pipes[n].stream);
    }
  }

  /** The verbs of the always-denied control-plane subjects. */
  function DeniedVerb(i: nat): (v: string)
    requires i < 6
    ensures '.' !in v && LiteralToken(v) && v != "INFO" && v != "MSG"
  {
    if i == 0 then "LIST"
    else if i == 1 then "NAMES"
    else if i == 2 then "CREATE"
    else if i == 3 then "UPDATE"
    else if i == 4 then "DELETE"
    else "PURGE"
  }

  lemma ListText() ensures ALWAYS_DENIED[0] == Dotted4("$JS", "API", "STREAM", "LIST") {}
  lemma NamesText() ensures ALWAYS_DENIED[1] == Dotted4("$JS", "API", "STREAM", "NAMES") {}
  lemma CreateText() ensures ALWAYS_DENIED[2] == Dotted4("$JS", "API", "STREAM", "CREATE") + "." + ">" {}
  lemma UpdateText() ensures ALWAYS_DENIED[3] == Dotted4("$JS", "API", "STREAM", "UPDATE") + "." + ">" {}
  lemma DeleteText() ensures ALWAYS_DENIED[4] == Dotted4("$JS", "API", "STREAM", "DELETE") + "." + ">" {}
  lemma PurgeText() ensures ALWAYS_DENIED[5] == Dotted4("$JS", "API", "STREAM", "PURGE") + "." + ">" {}

  lemma DeniedTokens(i: nat)
    requires i < 6
    ensures Tokens(ALWAYS_DENIED[i]) == ["$JS", "API", "STREAM", DeniedVerb(i)] + if i < 2 then [] else [">"]
  {
    if i < 2 {
      Dotted4Tokens("$JS", "API", "STREAM", DeniedVerb(i));
    } else {
      Longer("$JS", "API", "STREAM", DeniedVerb(i), ">");
    }
    if i == 0 { ListText(); } else if i == 1 { NamesText(); } else if i == 2 { CreateText(); }
    else if i == 3 { UpdateText(); } else if i == 4 { DeleteText(); } else { PurgeText(); }
  }

  lemma Dotted3Tokens(a: string, b: string, c: string)
    requires '.' !in a && '.' !in b && '.' !in c
    ensures Tokens(a + "." + b + "." + c) == [a, b, c]
  {
    SplitToken(a, '.');
    SplitToken(b, '.');
    SplitToken(c, '.');
    SplitAppend(a, '.', b);
    SplitAppend(a + "." + b, '.', c);
  }

  lemma InfoText() ensures ALWAYS_ALLOWED[0] == "$JS" + "." + "API" + "." + "INFO" {}

  lemma AllowedTokens()
    ensures Tokens(ALWAYS_ALLOWED[0]) == ["$JS", "API", "INFO"]
  {
    InfoText();
    Dotted3Tokens("$JS", "API", "INFO");
  }

  lemma DeniedSilent(i: nat, k: nat, stream: string, tail: string)
    requires i < 6 && k < 5 && StreamToken(stream)
    ensures !Matches(ALWAYS_DENIED[i], ReadRequest(k, stream, tail))
  {
    ReadTokens(k, stream, tail);
    DeniedTokens(i);
    var v := DeniedVerb(i);
    UnlikeVerbs(v, k);
    UnlikeHeads(["$JS", "API", "STREAM", v], Head(k), if k < 2 then 3 else 2,
                Tokens(ALWAYS_DENIED[i]), Tokens(ReadRequest(k, stream, tail)));
  }

  lemma UnlikeVerbs(v: string, k: nat)
    requires k < 5 && LiteralToken(v) && v != "INFO" && v != "MSG"
    ensures Literal(["$JS", "API", "STREAM", v])
    ensures var n := if k < 2 then 3 else 2; ["$JS", "API", "STREAM", v][n] != Head(k)[n]
  {
  }

  lemma AllowedSilent(k: nat, stream: string, tail: string)
    requires k < 5 && StreamToken(stream)
    ensures !Matches(ALWAYS_ALLOWED[0], ReadRequest(k, stream, tail))
  {
    ReadTokens(k, stream, tail);
    AllowedTokens();
    UnlikeInfo(k);
    UnlikeHeads(["$JS", "API", "INFO"], Head(k), 2, ["$JS", "API", "INFO"], Tokens(ReadRequest(k, stream, tail)));
  }

  lemma UnlikeInfo(k: nat)
    requires k < 5
    ensures Literal(["$JS", "API", "INFO"]) && ["$JS", "API", "INFO"][2] != Head(k)[2]
  {
  }

  /** The fixed entries neither grant nor refuse any stream read. */
  lemma FixedEntriesSilent(k: nat, stream: string, tail: string)
    requires k < 5 && StreamToken(stream)
    ensures !AnyMatches(ALWAYS_DENIED, ReadRequest(k, stream, tail))
    ensures !AnyMatches(ALWAYS_ALLOWED, ReadRequest(k, stream, tail))
  {
    var req := ReadRequest(k, stream, tail);
    forall i | 0 <= i < |ALWAYS_DENIED| ensures !Matches(ALWAYS_DENIED[i], req) {
      DeniedSilent(i, k, stream, tail);
    }
    AllowedSilent(k, stream, tail);
  }

  // ----- tables the account can produce -----

  /** A wire subject that starts with a literal token outside the control plane. */
  predicate PlainWire(wire: string) {
    var first := Tokens(wire)[0];
    LiteralToken(first) && first != "$JS"
  }

  predicate WellFormed(account: string, access: seq<PipeAccess>) {
    forall i :: 0 <= i < |access| ==>
      StreamToken(access[i].pipe.stream) && PlainWire(WireSubject(access[i].pipe, account))
  }

  lemma RequestUnderJs(k: nat, stream: string, tail: string)
    requires k < 5 && StreamToken(stream)
    ensures Tokens(ReadRequest(k, stream, tail))[0] == "$JS"
  {
    ReadTokens(k, stream, tail);
    assert Head(k)[0] == "$JS";
  }

  lemma WiresOutsideJs(account: string, access: seq<PipeAccess>, req: string)
    requires WellFormed(account, access) && Tokens(req)[0] == "$JS"
    ensures !AnyMatches(Writable(account, access), req)
  {
    WritableMatch(account, access, req);
    forall i | 0 <= i < |access| ensures !Matches(WireSubject(access[i].pipe, account), req) {
      assert PlainWire(WireSubject(access[i].pipe, account));
      MismatchAt(Tokens(WireSubject(access[i].pipe, account)), Tokens(req), 0);
    }
  }

  /** Some listed pipe on `stream` is readable (or is not). */
  predicate Listed(access: seq<PipeAccess>, stream: string, readable: bool) {
    exists i :: 0 <= i < |access| && access[i].pipe.stream == stream && CanRead(access[i]) == readable
  }

  /** The meaning of either encoding, for every table and every stream: the
      allow-list answers "some listed pipe on this stream is readable", the
      deny-list "no listed pipe on this stream is unreadable". */
  lemma ReadMeaning(account: string, access: seq<PipeAccess>, k: nat, stream: string, tail: string)
    requires WellFormed(account, access) && k < 5 && StreamToken(stream)
    ensures PermitsPublish(Compiled(account, access), ReadRequest(k, stream, tail)) <==>
            if PrefersBroad(access) then !Listed(access, stream, false) else Listed(access, stream, true)
  {
    var req := ReadRequest(k, stream, tail);
    var p := Compiled(account, access);
    var readable, excluded := PipesWhere(access, true), PipesWhere(access, false);
    PipesWhereStreams(access, true);
    PipesWhereStreams(access, false);
    EntriesForMatch(readable, k, stream, tail);
    EntriesForMatch(excluded, k, stream, tail);
    PipesWhereLists(access, true, stream);
    PipesWhereLists(access, false, stream);
    BroadEntriesMatch(k, stream, tail);
    FixedEntriesSilent(k, stream, tail);
    RequestUnderJs(k, stream, tail);
    WiresOutsideJs(account, access, req);
    var readPart := if PrefersBroad(access) then BroadEntries() else EntriesFor(readable);
    AnyMatchesConcat(ALWAYS_ALLOWED, Writable(account, access), req);
    AnyMatchesConcat(ALWAYS_ALLOWED + Writable(account, access), readPart, req);
    AnyMatchesConcat(ALWAYS_DENIED, if PrefersBroad(access) then EntriesFor(excluded) else [], req);
  }

  /** Every read request of every listed pipe is permitted iff that pipe is readable. */
  ghost predicate ReadsFaithful(account: string, access: seq<PipeAccess>) {
    forall i, k: nat, tail :: 0 <= i < |access| && k < 5 && StreamToken(access[i].pipe.stream) ==>
      (PermitsPublish(Compiled(account, access), ReadRequest(k, access[i].pipe.stream, tail)) <==> CanRead(access[i]))
  }

  /** Two listed pipes on one stream agree about reading. */
  predicate ReadConsistent(access: seq<PipeAccess>) {
    forall i, j :: 0 <= i < |access| && 0 <= j < |access| && access[i].pipe.stream == access[j].pipe.stream ==>
      CanRead(access[i]) == CanRead(access[j])
  }

  /** Compilation preserves the read half of the table exactly when pipes sharing
      a stream agree, whichever encoding was chosen. */
  lemma ReadsFaithfulIffConsistent(account: string, access: seq<PipeAccess>)
    requires WellFormed(account, access)
    ensures ReadsFaithful(account, access) <==> ReadConsistent(access)
  {
    if ReadConsistent(access) {
      forall i, k: nat, tail | 0 <= i < |access| && k < 5
        ensures PermitsPublish(Compiled(account, access), ReadRequest(k, access[i].pipe.stream, tail)) <==>
                CanRead(access[i])
      {
        ReadMeaning(account, access, k, access[i].pipe.stream, tail);
      }
    }
    if ReadsFaithful(account, access) {
      forall i, j | 0 <= i < |access| && 0 <= j < |access| && access[i].pipe.stream == access[j].pipe.stream
        ensures CanRead(access[i]) == CanRead(access[j])
      {
        var req := ReadRequest(0, access[i].pipe.stream, "");
        assert PermitsPublish(Compiled(account, access), req) <==> CanRead(access[i]);
        assert PermitsPublish(Compiled(account, access), ReadRequest(0, access[j].pipe.stream, "")) <==>
               CanRead(access[j]);
      }
    }
  }

  /** A witness: two pipes on one stream, of which only one may be read. */
  lemma SharedStreamMisreads(account: string, a: PipeAccess, b: PipeAccess)
    requires WellFormed(account, [a, b])
    requires a.pipe.stream == b.pipe.stream && CanRead(a) && !CanRead(b)
    ensures !ReadsFaithful(account, [a, b])
  {
    assert [a, b][0].pipe.stream == [a, b][1].pipe.stream;
    ReadsFaithfulIffConsistent(account, [a, b]);
  }

  /** Publishing outside the control plane is permitted exactly on the wire
      subjects of writable pipes; the read encoding never interferes. */
  lemma PublishMeaning(account: string, access: seq<PipeAccess>, subject: string)
    requires WellFormed(account, access) && Tokens(subject)[0] != "$JS"
    ensures PermitsPublish(Compiled(account, access), subject) <==>
            exists i :: 0 <= i < |access| && CanWrite(access[i]) &&
                        Matches(WireSubject(access[i].pipe, account), subject)
  {
    var readable, excluded := PipesWhere(access, true), PipesWhere(access, false);
    PipesWhereStreams(access, true);
    PipesWhereStreams(access, false);
    EntriesForUnderJs(readable);
    EntriesForUnderJs(excluded);
    ReadEntriesUnderJs("x");
    AllowedTokens();
    forall i | 0 <= i < 6 ensures Tokens(ALWAYS_DENIED[i])[0] == "$JS" { DeniedTokens(i); }
    var readPart := if PrefersBroad(access) then BroadEntries() else EntriesFor(readable);
    var denies := if PrefersBroad(access) then EntriesFor(excluded) else [];
    JsNeverMatchesOutside(ALWAYS_ALLOWED, subject);
    JsNeverMatchesOutside(readPart, subject);
    JsNeverMatchesOutside(ALWAYS_DENIED, subject);
    JsNeverMatchesOutside(denies, subject);
    AnyMatchesConcat(ALWAYS_ALLOWED, Writable(account, access), subject);
    AnyMatchesConcat(ALWAYS_ALLOWED + Writable(account, access), readPart, subject);
    AnyMatchesConcat(ALWAYS_DENIED, denies, subject);
    WritableMatch(account, access, subject);
  }

  /** Live-tail subscriptions outside the three families everybody holds are
      exactly the wire subjects of readable pipes. */
  lemma SubscribeMeaning(account: string, access: seq<PipeAccess>, subject: string)
    requires !AnyMatches(BaseSubscriptions(account), subject)
    ensures PermitsSubscribe(Compiled(account, access), subject) <==>
            exists i :: 0 <= i < |access| && CanRead(access[i]) &&
                        Matches(WireSubject(access[i].pipe, account), subject)
  {
    AnyMatchesConcat(BaseSubscriptions(account), Listenable(account, access), subject);
    ListenableMatch(account, access, subject);
  }

  /** No access table can open the control plane: enumerating streams, and creating,
      updating, deleting or purging any stream, is refused to everyone. */
  lemma ControlPlaneClosed(account: string, access: seq<PipeAccess>, subject: string, verb: string, rest: seq<string>)
    requires Tokens(subject) == ["$JS", "API", "STREAM", verb] + rest
    requires (verb in {"LIST", "NAMES"} && rest == []) ||
             (verb in {"CREATE", "UPDATE", "DELETE", "PURGE"} && rest != [])
    ensures !PermitsPublish(Compiled(account, access), subject)
  {
    var i := VerbIndex(verb);
    DeniedTokens(i);
    var h := ["$JS", "API", "STREAM", verb];
    VerbLiteral(verb);
    MatchUnderPrefix(h, if i < 2 then [] else [">"], rest);
    assert Matches(ALWAYS_DENIED[i], subject);
    assert AnyMatches(ALWAYS_DENIED, subject);
    var excluded := if PrefersBroad(access) then EntriesFor(PipesWhere(access, false)) else [];
    AnyMatchesConcat(ALWAYS_DENIED, excluded, subject);
  }

  lemma VerbLiteral(verb: string)
    requires LiteralToken(verb)
    ensures Literal(["$JS", "API", "STREAM", verb])
  {
  }

  lemma VerbIndex(verb: string) returns (i: nat)
    requires verb in {"LIST", "NAMES", "CREATE", "UPDATE", "DELETE", "PURGE"}
    ensures i < 6 && DeniedVerb(i) == verb && LiteralToken(verb)
    ensures i < 2 <==> verb in {"LIST", "NAMES"}
  {
    i := if verb == "LIST" then 0 else if verb == "NAMES" then 1 else if verb == "CREATE" then 2
         else if verb == "UPDATE" then 3 else if verb == "DELETE" then 4 else 5;
  }

  /** The credential always carries the cheaper encoding: five entries per
      stream named, and never more streams than the smaller side needs. */
  lemma CheapestEncoding(account: string, access: seq<PipeAccess>)
    ensures var p := Compiled(account, access);
            |p.pubAllow| + |p.pubDeny| ==
            |ALWAYS_ALLOWED| + |ALWAYS_DENIED| + |Writable(account, access)| +
            5 * Min(|PipesWhere(access, true)|, 1 + |PipesWhere(access, false)|)
  {
  }
}
