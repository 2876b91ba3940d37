/** Strings as C sees them: suffixes, occurrences and optional values. */
module Text {
  datatype Option<+T> = None | Some(value: T)

  function Min(a: nat, b: nat): nat { if a < b then a else b }

  ghost predicate IsSuffix(s: string, t: string) {
    |s| <= |t| && t[|t| - |s|..] == s
  }

  /** `s` occurs somewhere in `t` (what `strstr(t, s)` looks for). */
  ghost predicate Occurs(s: string, t: string) {
    exists e :: 0 <= e <= |t| && IsSuffix(s, t[..e])
  }

  lemma SuffixOfSuffix(a: string, b: string, t: string)
    requires IsSuffix(a, t) && IsSuffix(b, t) && |a| <= |b|
    ensures IsSuffix(a, b)
    ensures |a| == |b| ==> a == b
  {
    assert a == b[|b| - |a|..];
  }

  lemma SuffixTrans(a: string, b: string, t: string)
    requires IsSuffix(a, b) && IsSuffix(b, t)
    ensures IsSuffix(a, t)
  {
    assert a == t[|t| - |a|..];
  }

  lemma SuffixSnoc(a: string, t: string, c: char)
    requires IsSuffix(a, t)
    ensures IsSuffix(a + [c], t + [c])
  {
    assert (t + [c])[|t| - |a|..] == a + [c];
  }

  lemma SuffixUnsnoc(a: string, t: string, c: char)
    requires a != [] && IsSuffix(a, t + [c])
    ensures a[|a| - 1] == c && IsSuffix(a[..|a| - 1], t)
  {
    var w := t + [c];
    assert a == w[|w| - |a|..];
    assert a[..|a| - 1] == t[|t| - (|a| - 1)..];
  }

  lemma SubsetSize<T>(a: set<T>, b: set<T>)
    requires a <= b
    ensures |a| <= |b|
  {
    assert b == a + (b - a);
  }
}
