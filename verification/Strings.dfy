/** String predicates of Go's strings package, and splitting a string at the end of a token. */
module Strings {
  import opened Common

  predicate HasPrefix(s: string, p: string) { |p| <= |s| && forall i :: 0 <= i < |p| ==> s[i] == p[i] }

  predicate HasSuffix(s: string, p: string)
  {
    |p| <= |s| && forall i :: 0 <= i < |p| ==> s[|s| - |p| + i] == p[i]
  }

  predicate Contains(s: string, p: string) { exists i :: 0 <= i <= |s| && HasPrefix(s[i..], p) }

  /** Where a character first occurs. */
  function IndexOf(s: string, c: char): (r: Option<nat>)
    ensures r.Some? ==> r.value < |s| && s[r.value] == c
  {
    if s == "" then None
    else if s[0] == c then Some(0)
    else
      match IndexOf(s[1..], c)
      case None => None
      case Some(i) => Some(i + 1)
  }

  /** A token made of characters of one class ends where the class does. */
  lemma {:induction false} TokenUnique(class': char -> bool, a: string, r: string, b: string, s: string)
    requires forall i :: 0 <= i < |a| ==> class'(a[i])
    requires forall i :: 0 <= i < |b| ==> class'(b[i])
    requires (r == "" || !class'(r[0])) && (s == "" || !class'(s[0]))
    requires a + r == b + s
    ensures a == b && r == s
  {
    TokenNotLonger(class', a, r, b, s);
    TokenNotLonger(class', b, s, a, r);
    var x := a + r;
    assert a == x[..|a|] && r == x[|a|..];
    assert b == (b + s)[..|b|] && s == (b + s)[|b|..];
  }

  lemma {:induction false} TokenNotLonger(class': char -> bool, a: string, r: string, b: string, s: string)
    requires forall i :: 0 <= i < |a| ==> class'(a[i])
    requires s == "" || !class'(s[0])
    ensures a + r == b + s ==> |a| <= |b|
  {
    if |b| < |a| {
      assert (a + r)[|b|] == a[|b|];
      if s != "" {
        assert (b + s)[|b|] == s[0];
      }
    }
  }

  lemma {:induction false} PrefixSplits(s: string, p: string)
    ensures HasPrefix(s, p) <==> |p| <= |s| && s == p + s[|p|..]
  {
    if HasPrefix(s, p) {
      assert s[..|p|] == p;
      assert s == s[..|p|] + s[|p|..];
    }
    if |p| <= |s| && s == p + s[|p|..] {
      assert forall i :: 0 <= i < |p| ==> s[i] == (p + s[|p|..])[i];
    }
  }
}
