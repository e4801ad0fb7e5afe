/** The subject-permission semantics of the message bus, which is what a
    compiled credential runs into: subjects are dot-separated tokens, `*`
    stands for one token, a final `>` for one or more. */
module Nats {
  import opened Text

  /** A user's permission set, ready to be signed into a credential. */
  datatype Permissions = Permissions(
    pubAllow: seq<string>, pubDeny: seq<string>,
    subAllow: seq<string>, subDeny: seq<string>)

  function Tokens(subject: string): (ts: seq<string>)
    ensures |ts| >= 1
    ensures forall t :: t in ts ==> '.' !in t
  {
    Split(subject, '.')
  }

  predicate TokensMatch(pat: seq<string>, sub: seq<string>) {
    if pat == [] then sub == []
    else if pat == [">"] then sub != []
    else sub != [] && (pat[0] == "*" || pat[0] == sub[0]) && TokensMatch(pat[1..], sub[1..])
  }

  predicate Matches(pat: string, subject: string) {
    TokensMatch(Tokens(pat), Tokens(subject))
  }

  predicate AnyMatches(pats: seq<string>, subject: string) {
    exists i :: 0 <= i < |pats| && Matches(pats[i], subject)
  }

  /** An empty allow list is no restriction; a deny always wins. */
  predicate PermitsPublish(p: Permissions, subject: string) {
    (p.pubAllow == [] || AnyMatches(p.pubAllow, subject)) && !AnyMatches(p.pubDeny, subject)
  }

  predicate PermitsSubscribe(p: Permissions, subject: string) {
    (p.subAllow == [] || AnyMatches(p.subAllow, subject)) && !AnyMatches(p.subDeny, subject)
  }

  predicate LiteralToken(t: string) { t != "*" && t != ">" }

  predicate Literal(ts: seq<string>) {
    forall i :: 0 <= i < |ts| ==> LiteralToken(ts[i])
  }

  /** A literal prefix is transparent to matching. */
  lemma {:induction false} MatchUnderPrefix(h: seq<string>, p: seq<string>, s: seq<string>)
    requires Literal(h)
    ensures TokensMatch(h + p, h + s) == TokensMatch(p, s)
  {
    if h == [] {
      assert h + p == p && h + s == s;
    } else {
      assert (h + p)[1..] == h[1..] + p;
      assert (h + s)[1..] == h[1..] + s;
      assert (h + p)[0] == h[0];
      MatchUnderPrefix(h[1..], p, s);
    }
  }

  /** A literal token that disagrees with the subject rules a match out. */
  lemma {:induction false} MismatchAt(pat: seq<string>, sub: seq<string>, k: nat)
    requires k < |pat| && k < |sub|
    requires forall i :: 0 <= i <= k ==> LiteralToken(pat[i])
    requires pat[k] != sub[k]
    ensures !TokensMatch(pat, sub)
  {
    assert LiteralToken(pat[0]);
    if k > 0 {
      MismatchAt(pat[1..], sub[1..], k - 1);
    }
  }

  lemma {:induction false} LiteralMatch(pat: seq<string>, sub: seq<string>)
    requires Literal(pat)
    ensures TokensMatch(pat, sub) <==> pat == sub
  {
    if pat != [] {
      assert LiteralToken(pat[0]);
      if sub != [] {
        LiteralMatch(pat[1..], sub[1..]);
        assert pat == [pat[0]] + pat[1..];
        assert sub == [sub[0]] + sub[1..];
      }
    }
  }

  /** Without wildcards a permission entry covers exactly its own subject. */
  lemma LiteralSubjectMatch(pat: string, subject: string)
    requires Literal(Tokens(pat))
    ensures Matches(pat, subject) <==> pat == subject
  {
    LiteralMatch(Tokens(pat), Tokens(subject));
    if Tokens(pat) == Tokens(subject) {
      SplitInjective(pat, subject, '.');
    }
  }

  lemma AnyMatchesConcat(a: seq<string>, b: seq<string>, subject: string)
    ensures AnyMatches(a + b, subject) <==> AnyMatches(a, subject) || AnyMatches(b, subject)
  {
    var c := a + b;
    if AnyMatches(a, subject) {
      var i :| 0 <= i < |a| && Matches(a[i], subject);
      assert c[i] == a[i];
    }
    if AnyMatches(b, subject) {
      var i :| 0 <= i < |b| && Matches(b[i], subject);
      assert c[|a| + i] == b[i];
    }
    if AnyMatches(c, subject) {
      var i :| 0 <= i < |c| && Matches(c[i], subject);
      assert i < |a| ==> Matches(a[i], subject);
      assert i >= |a| ==> Matches(b[i - |a|], subject);
    }
  }
}
