/** What several components have in common. */
module Common {

  const INT_MAX: nat := 0x7fff_ffff
  const EINVAL: int := 22

  function Min(a: nat, b: nat): nat { if a < b then a else b }

  ghost predicate NoDup<T(!new)>(s: seq<T>) {
    forall i, j :: 0 <= i < j < |s| ==> s[i] != s[j]
  }

  /** The place of the first x from i on, or the end. */
  function NextOf<T(==)>(s: seq<T>, x: T, i: nat): (j: nat)
    requires i <= |s|
    ensures i <= j <= |s| && (j < |s| ==> s[j] == x) && forall k :: i <= k < j ==> s[k] != x
    decreases |s| - i
  {
    if i == |s| || s[i] == x then i else NextOf(s, x, i + 1)
  }

  function Without<T(==,!new)>(s: seq<T>, x: T): (r: seq<T>)
    ensures forall y :: y in r <==> y in s && y != x
    ensures |r| <= |s|
  {
    if s == [] then [] else (if s[0] == x then [] else [s[0]]) + Without(s[1..], x)
  }

  lemma {:induction false} WithoutOnce<T(!new)>(s: seq<T>, x: T)
    requires NoDup(s)
    ensures NoDup(Without(s, x))
  {
    if s != [] {
      WithoutOnce(s[1..], x);
      assert forall i :: 0 <= i < |Without(s[1..], x)| ==> Without(s[1..], x)[i] in s[1..];
    }
  }

  lemma {:induction false} WithoutNone<T(!new)>(s: seq<T>, x: T)
    requires x !in s
    ensures Without(s, x) == s
  {
    if s != [] { WithoutNone(s[1..], x); }
  }

  lemma Grouped<T>(a: seq<T>, b: seq<T>, c: seq<T>)
    ensures a + b + c == a + (b + c)
  {
  }
}
