/** The few string operations the program takes from its host library,
    with the laws relating them. */
module Text {

  /** `strings.Split` on a one-character separator: never empty, and
      splitting the empty string yields one empty part. */
  function Split(s: string, sep: char): (parts: seq<string>)
    ensures |parts| >= 1
    ensures forall p :: p in parts ==> sep !in p
  {
    if s == [] then [""]
    else
      var rest := Split(s[1..], sep);
      if s[0] == sep then [""] + rest
      else [[s[0]] + rest[0]] + rest[1..]
  }

  /** `strings.Join` with a one-character separator. */
  function Join(parts: seq<string>, sep: char): string {
    if |parts| == 0 then ""
    else if |parts| == 1 then parts[0]
    else parts[0] + [sep] + Join(parts[1..], sep)
  }

  /** `strings.ReplaceAll` of one character by another. */
  function ReplaceChar(s: string, from: char, to: char): (r: string)
    ensures |r| == |s|
    ensures forall i :: 0 <= i < |s| ==> r[i] == if s[i] == from then to else s[i]
  {
    if s == "" then "" else [if s[0] == from then to else s[0]] + ReplaceChar(s[1..], from, to)
  }

  /** `strings.Replace(s, old, new, 1)`: the leftmost occurrence only. */
  function ReplaceFirst(s: string, old_: string, new_: string): string {
    if |s| < |old_| then s
    else if s[..|old_|] == old_ then new_ + s[|old_|..]
    else if s == "" then s
    else [s[0]] + ReplaceFirst(s[1..], old_, new_)
  }

  /** `strings.TrimSuffix`. */
  function TrimSuffix(s: string, suffix: string): string {
    if |suffix| <= |s| && s[|s| - |suffix|..] == suffix then s[..|s| - |suffix|] else s
  }

  lemma {:induction false} SplitToken(t: string, sep: char)
    requires sep !in t
    ensures Split(t, sep) == [t]
  {
    if t != "" {
      SplitToken(t[1..], sep);
      assert t == [t[0]] + t[1..];
    }
  }

  /** A separator written between two strings is exactly a part boundary. */
  lemma {:induction false} SplitAppend(a: string, sep: char, b: string)
    ensures Split(a + [sep] + b, sep) == Split(a, sep) + Split(b, sep)
  {
    var s := a + [sep] + b;
    if a == "" {
      assert s[1..] == b;
    } else {
      assert s[1..] == a[1..] + [sep] + b;
      SplitAppend(a[1..], sep, b);
    }
  }

  lemma {:induction false} SplitJoin(parts: seq<string>, sep: char)
    requires |parts| >= 1
    requires forall p :: p in parts ==> sep !in p
    ensures Split(Join(parts, sep), sep) == parts
  {
    SplitToken(parts[0], sep);
    if |parts| > 1 {
      SplitAppend(parts[0], sep, Join(parts[1..], sep));
      SplitJoin(parts[1..], sep);
      assert parts == [parts[0]] + parts[1..];
    }
  }

  lemma {:induction false} JoinSplit(s: string, sep: char)
    ensures Join(Split(s, sep), sep) == s
  {
    if s != "" {
      JoinSplit(s[1..], sep);
      var rest := Split(s[1..], sep);
      assert s == [s[0]] + s[1..];
      if s[0] != sep && |rest| > 1 {
        assert Split(s, sep)[1..] == rest[1..];
      } else if s[0] == sep {
        assert Split(s, sep)[1..] == rest;
      }
    }
  }

  /** Equal parts mean equal strings. */
  lemma SplitInjective(a: string, b: string, sep: char)
    requires Split(a, sep) == Split(b, sep)
    ensures a == b
  {
    JoinSplit(a, sep);
    JoinSplit(b, sep);
  }

  lemma {:induction false} ReplaceFirstAt(pre: string, old_: string, new_: string, post: string)
    requires old_ != "" && old_[0] !in pre
    ensures ReplaceFirst(pre + old_ + post, old_, new_) == pre + new_ + post
  {
    if pre == "" {
      ReplaceAtStart(old_, new_, post);
      assert "" + old_ == old_ && "" + new_ == new_;
    } else {
      var c, rest := pre[0], pre[1..];
      assert pre == [c] + rest;
      ReplaceFirstAt(rest, old_, new_, post);
      Associate(c, rest, old_, post);
      Associate(c, rest, new_, post);
      SkipOne(c, rest + old_ + post, old_, new_);
    }
  }

  lemma ReplaceAtStart(old_: string, new_: string, post: string)
    ensures ReplaceFirst(old_ + post, old_, new_) == new_ + post
  {
    var s := old_ + post;
    assert s[..|old_|] == old_ && s[|old_|..] == post;
  }

  lemma Associate(c: char, a: string, b: string, d: string)
    ensures [c] + a + b + d == [c] + (a + b + d)
  {
  }

  lemma SkipOne(c: char, rest: string, old_: string, new_: string)
    requires old_ != "" && c != old_[0] && |rest| >= |old_|
    ensures ReplaceFirst([c] + rest, old_, new_) == [c] + ReplaceFirst(rest, old_, new_)
  {
    var s := [c] + rest;
    assert s[..|old_|][0] == c;
    assert s[1..] == rest;
  }

  /** Replacing a character that the result did not otherwise contain loses nothing. */
  lemma ReplaceCharInjective(a: string, b: string, from: char, to: char)
    requires to !in a && to !in b
    requires ReplaceChar(a, from, to) == ReplaceChar(b, from, to)
    ensures a == b
  {
    var ra, rb := ReplaceChar(a, from, to), ReplaceChar(b, from, to);
    forall i | 0 <= i < |a| ensures a[i] == b[i] {
      assert ra[i] == rb[i];
      assert a[i] in a && b[i] in b;
    }
  }
}
