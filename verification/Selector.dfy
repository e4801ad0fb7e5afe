/** Grant selectors (internal/acl/selector.go) and their exact relation to
    the bus's own wildcard matching. */
module Selectors {
  import opened Text
  import opened Nats

  const ANY := "*"
  const REST := "**"

  predicate HasEmpty(parts: seq<string>) { "" in parts }

  /** `**` anywhere but last makes a selector malformed. */
  predicate RestOnlyLast(parts: seq<string>) {
    forall i :: 0 <= i < |parts| - 1 ==> parts[i] != REST
  }

  predicate MatchParts(sel: seq<string>, path: seq<string>) {
    if sel == [] then path == []
    else if sel[0] == REST then path != []
    else path != [] && (sel[0] == ANY || sel[0] == path[0]) && MatchParts(sel[1..], path[1..])
  }

  predicate Match(sel: string, path: string) {
    if sel == "" || path == "" then false
    else
      var selParts := Split(sel, '.');
      var pathParts := Split(path, '.');
      !HasEmpty(selParts) && !HasEmpty(pathParts) && RestOnlyLast(selParts) && MatchParts(selParts, pathParts)
  }

  predicate ValidSelector(sel: string) {
    sel != "" && !HasEmpty(Split(sel, '.')) && RestOnlyLast(Split(sel, '.'))
  }

  // ----- what some path looks like -----

  /** A path that a given selector covers: wildcards become an ordinary token. */
  function Witness(sel: seq<string>, token: string): (w: seq<string>)
    ensures |w| == |sel|
    ensures forall i :: 0 <= i < |sel| ==> w[i] == if sel[i] == ANY || sel[i] == REST then token else sel[i]
  {
    seq(|sel|, i requires 0 <= i < |sel| => if sel[i] == ANY || sel[i] == REST then token else sel[i])
  }

  lemma {:induction false} WitnessMatches(sel: seq<string>, token: string)
    requires RestOnlyLast(sel)
    ensures MatchParts(sel, Witness(sel, token))
  {
    if sel != [] && sel[0] != REST {
      assert Witness(sel, token)[1..] == Witness(sel[1..], token);
      WitnessMatches(sel[1..], token);
    }
  }

  lemma NonEmptyParts(s: string)
    requires !HasEmpty(Split(s, '.'))
    ensures s != ""
  {
    assert Split("", '.')[0] == "";
  }

  /** Validity is exactly usefulness: a selector is accepted iff it covers something. */
  lemma ValidIffCoversSomething(sel: string)
    ensures ValidSelector(sel) <==> exists path :: Match(sel, path)
  {
    if ValidSelector(sel) {
      var parts := Split(sel, '.');
      var w := Witness(parts, "x");
      forall p | p in w ensures '.' !in p && p != "" {
        var i :| 0 <= i < |w| && w[i] == p;
        assert parts[i] in parts;
      }
      var path := Join(w, '.');
      SplitJoin(w, '.');
      NonEmptyParts(path);
      WitnessMatches(parts, "x");
      assert Match(sel, path);
    }
  }

  // ----- translation to the bus's wildcards -----

  function TranslateToken(t: string): string { if t == REST then ">" else t }

  function Translate(sel: seq<string>): (pat: seq<string>)
    ensures |pat| == |sel|
    ensures forall i :: 0 <= i < |sel| ==> pat[i] == TranslateToken(sel[i])
  {
    seq(|sel|, i requires 0 <= i < |sel| => TranslateToken(sel[i]))
  }

  /** What the translated selector covers on the bus, on well-formed paths. */
  predicate CoversOnBus(sel: string, path: string) {
    !HasEmpty(Split(path, '.')) && TokensMatch(Translate(Split(sel, '.')), Split(path, '.'))
  }

  predicate EndsInLiteralRest(sel: string) {
    var parts := Split(sel, '.');
    parts[|parts| - 1] == ">"
  }

  lemma TranslateTail(sel: seq<string>)
    requires sel != []
    ensures Translate(sel)[1..] == Translate(sel[1..])
  {
  }

  lemma {:induction false} PartsAgree(sel: seq<string>, path: seq<string>)
    requires RestOnlyLast(sel)
    requires sel == [] || sel[|sel| - 1] != ">"
    ensures MatchParts(sel, path) <==> TokensMatch(Translate(sel), path)
  {
    if sel != [] {
      var pat := Translate(sel);
      if |sel| == 1 {
        assert sel[1..] == [] && pat[1..] == [];
        assert pat == [TranslateToken(sel[0])];
        assert MatchParts([], path) <==> TokensMatch([], path);
      } else {
        assert sel[0] != REST;
        assert pat[0] == sel[0];
        if path != [] {
          TranslateTail(sel);
          assert sel[1..][|sel| - 2] == sel[|sel| - 1];
          PartsAgree(sel[1..], path[1..]);
        }
      }
    }
  }

  /** `*` and `**` map one to one onto the bus's `*` and `>`, for every valid
      selector except those whose last token is itself a literal `>`, and for
      those the two always disagree somewhere. */
  lemma TranslationExact(sel: string)
    requires ValidSelector(sel)
    ensures (forall path :: Match(sel, path) <==> CoversOnBus(sel, path)) <==> !EndsInLiteralRest(sel)
  {
    var parts := Split(sel, '.');
    if !EndsInLiteralRest(sel) {
      forall path ensures Match(sel, path) <==> CoversOnBus(sel, path) {
        PartsAgree(parts, Split(path, '.'));
        if CoversOnBus(sel, path) {
          NonEmptyParts(path);
        }
      }
    } else {
      var path := LiteralRestDiffers(sel);
      assert Match(sel, path) != CoversOnBus(sel, path);
    }
  }

  lemma LiteralRestDiffers(sel: string) returns (path: string)
    requires ValidSelector(sel) && EndsInLiteralRest(sel)
    ensures !Match(sel, path) && CoversOnBus(sel, path)
  {
    var parts := Split(sel, '.');
    var n := |parts| - 1;
    var w := Witness(parts, "x")[n := "x"];
    forall p | p in w ensures '.' !in p && p != "" {
      var i :| 0 <= i < |w| && w[i] == p;
      assert parts[i] in parts;
    }
    path := Join(w, '.');
    SplitJoin(w, '.');
    LastTokenUnmatched(parts, w);
    LastTokenCovered(parts, w);
  }

  lemma WitnessTail(sel: seq<string>)
    requires |sel| >= 2
    ensures var w := Witness(sel, "x")[|sel| - 1 := "x"];
            w[1..] == Witness(sel[1..], "x")[|sel| - 2 := "x"] && w[0] == Witness(sel, "x")[0]
  {
  }

  /** `w` is a path the selector would match but for its last token. */
  predicate NearMiss(sel: seq<string>, w: seq<string>) {
    && |sel| >= 1 && sel[|sel| - 1] == ">" && RestOnlyLast(sel)
    && w == Witness(sel, "x")[|sel| - 1 := "x"]
  }

  lemma NearMissTail(sel: seq<string>, w: seq<string>)
    requires NearMiss(sel, w) && |sel| >= 2
    ensures NearMiss(sel[1..], w[1..])
    ensures sel[0] != REST && w[0] == if sel[0] == ANY then "x" else sel[0]
  {
    WitnessTail(sel);
  }

  lemma {:induction false} LastTokenUnmatched(sel: seq<string>, w: seq<string>)
    requires NearMiss(sel, w)
    ensures !MatchParts(sel, w)
  {
    if |sel| >= 2 {
      NearMissTail(sel, w);
      LastTokenUnmatched(sel[1..], w[1..]);
    }
  }

  lemma {:induction false} LastTokenCovered(sel: seq<string>, w: seq<string>)
    requires NearMiss(sel, w)
    ensures TokensMatch(Translate(sel), w)
  {
    var pat := Translate(sel);
    if |sel| == 1 {
      assert pat == [">"];
    } else {
      NearMissTail(sel, w);
      TranslateTail(sel);
      LastTokenCovered(sel[1..], w[1..]);
    }
  }

  // ----- the documented forms -----

  predicate PlainToken(t: string) { t != "" && '.' !in t && t != "*" && t != "**" }

  lemma TwoParts(a: string, b: string)
    requires '.' !in a && '.' !in b
    ensures Split(a + "." + b, '.') == [a, b]
  {
    SplitToken(a, '.');
    SplitToken(b, '.');
    SplitAppend(a, '.', b);
  }

  /** The five forms of docs/ACL.md: one pipe, everything directly under a handle,
      everything under it, a pipe of every handle, and every pipe. */
  lemma FormsSpelledOut(a: string, b: string, path: string)
    requires PlainToken(a) && PlainToken(b)
    ensures var parts := Split(path, '.');
            && (Match(a + "." + b, path) <==> parts == [a, b])
            && (Match(a + "." + "*", path) <==> |parts| == 2 && parts[0] == a && parts[1] != "")
            && (Match(a + "." + "**", path) <==> |parts| >= 2 && parts[0] == a && "" !in parts)
            && (Match("*" + "." + b, path) <==> |parts| == 2 && parts[1] == b && parts[0] != "")
            && (Match("**", path) <==> "" !in parts)
  {
    TwoParts(a, b);
    TwoParts(a, "*");
    TwoParts(a, "**");
    TwoParts("*", b);
    SplitToken("**", '.');
    PartsSpelledOut(a, b, Split(path, '.'));
    MatchOfParts(a + "." + b, [a, b], path);
    MatchOfParts(a + "." + "*", [a, "*"], path);
    MatchOfParts(a + "." + "**", [a, "**"], path);
    MatchOfParts("*" + "." + b, ["*", b], path);
    MatchOfParts("**", ["**"], path);
    if |Split(path, '.')| == 2 { NoEmptyOfTwo(Split(path, '.')); }
  }

  lemma NoEmptyOfTwo(parts: seq<string>)
    requires |parts| == 2
    ensures "" in parts <==> parts[0] == "" || parts[1] == ""
  {
  }

  lemma MatchOfParts(sel: string, parts: seq<string>, path: string)
    requires Split(sel, '.') == parts && "" !in parts && RestOnlyLast(parts)
    ensures Match(sel, path) <==> "" !in Split(path, '.') && MatchParts(parts, Split(path, '.'))
  {
    assert Split("", '.') == [""];
  }

  lemma PartsSpelledOut(a: string, b: string, parts: seq<string>)
    requires PlainToken(a) && PlainToken(b)
    ensures MatchParts([a, b], parts) <==> parts == [a, b]
    ensures MatchParts([a, "*"], parts) <==> |parts| == 2 && parts[0] == a
    ensures MatchParts([a, "**"], parts) <==> |parts| >= 2 && parts[0] == a
    ensures MatchParts(["*", b], parts) <==> |parts| == 2 && parts[1] == b
    ensures MatchParts(["**"], parts) <==> parts != []
  {
    TwoMatch(a, b, parts);
    TwoMatch(a, "*", parts);
    TwoMatch(a, "**", parts);
    TwoMatch("*", b, parts);
    OneMatch("**", parts);
  }

  lemma OneMatch(t: string, parts: seq<string>)
    ensures MatchParts([t], parts) <==>
            if t == "**" then parts != [] else |parts| == 1 && (t == "*" || t == parts[0])
  {
    assert [t][1..] == [];
    if parts != [] { assert parts == [parts[0]] + parts[1..]; }
  }

  lemma TwoMatch(t: string, u: string, parts: seq<string>)
    requires t != "**"
    ensures MatchParts([t, u], parts) <==>
            && |parts| >= 2 && (t == "*" || t == parts[0])
            && (u == "**" || (|parts| == 2 && (u == "*" || u == parts[1])))
  {
    assert [t, u][1..] == [u];
    if parts != [] { OneMatch(u, parts[1..]); }
  }
}
