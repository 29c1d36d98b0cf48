/** Sums over the slots of a sequence, and how single-slot changes move them. */
module Counting {
  function Sum<T>(s: seq<T>, f: T -> nat): nat {
    if s == [] then 0 else Sum(s[..|s| - 1], f) + f(s[|s| - 1])
  }

  lemma SumSnoc<T>(s: seq<T>, x: T, f: T -> nat)
    ensures Sum(s + [x], f) == Sum(s, f) + f(x)
  {
    assert (s + [x])[..|s|] == s;
  }

  lemma {:induction false} SumAppend<T>(s: seq<T>, t: seq<T>, f: T -> nat)
    ensures Sum(s + t, f) == Sum(s, f) + Sum(t, f)
    decreases |t|
  {
    if t == [] {
      assert s + t == s;
    } else {
      var n := |t| - 1;
      assert s + t == (s + t[..n]) + [t[n]];
      SumSnoc(s + t[..n], t[n], f);
      SumAppend(s, t[..n], f);
    }
  }

  lemma SumSplit<T>(s: seq<T>, i: nat, f: T -> nat)
    requires i < |s|
    ensures Sum(s, f) == Sum(s[..i], f) + f(s[i]) + Sum(s[i + 1..], f)
  {
    assert s == s[..i] + [s[i]] + s[i + 1..];
    SumSnoc(s[..i], s[i], f);
    SumAppend(s[..i] + [s[i]], s[i + 1..], f);
  }

  lemma SumUpdate<T>(s: seq<T>, i: nat, x: T, f: T -> nat)
    requires i < |s|
    ensures Sum(s[i := x], f) + f(s[i]) == Sum(s, f) + f(x)
  {
    SumSplit(s, i, f);
    SumSplit(s[i := x], i, f);
    assert s[i := x][..i] == s[..i] && s[i := x][i + 1..] == s[i + 1..];
  }

  /** The sequence without its slot k. */
  function Without<T>(s: seq<T>, k: nat): seq<T>
    requires k < |s|
  {
    s[..k] + s[k + 1..]
  }

  lemma SumWithout<T>(s: seq<T>, k: nat, f: T -> nat)
    requires k < |s|
    ensures Sum(Without(s, k), f) + f(s[k]) == Sum(s, f)
  {
    SumSplit(s, k, f);
    SumAppend(s[..k], s[k + 1..], f);
  }

  lemma {:induction false} SumBounds<T>(s: seq<T>, f: T -> nat)
    ensures forall i | 0 <= i < |s| :: f(s[i]) <= Sum(s, f)
    ensures Sum(s, f) > 0 ==> exists i | 0 <= i < |s| :: f(s[i]) > 0
  {
    if s != [] {
      var n := |s| - 1;
      SumBounds(s[..n], f);
      assert forall i | 0 <= i < n :: s[..n][i] == s[i];
    }
  }

  lemma {:induction false} SumOfOnes<T>(s: seq<T>, f: T -> nat)
    requires forall i | 0 <= i < |s| :: f(s[i]) <= 1
    ensures Sum(s, f) <= |s|
  {
    if s != [] { SumOfOnes(s[..|s| - 1], f); }
  }

  /** Slot by slot no larger, so no larger in total. */
  lemma {:induction false} SumMonotone<T>(s: seq<T>, t: seq<T>, f: T -> nat)
    requires |s| == |t| && forall i | 0 <= i < |s| :: f(s[i]) <= f(t[i])
    ensures Sum(s, f) <= Sum(t, f)
  {
    if s != [] { SumMonotone(s[..|s| - 1], t[..|t| - 1], f); }
  }

  /** The same slots under two measures that agree on them. */
  lemma {:induction false} SumAgree<T>(s: seq<T>, t: seq<T>, f: T -> nat)
    requires |s| == |t| && forall i | 0 <= i < |s| :: f(s[i]) == f(t[i])
    ensures Sum(s, f) == Sum(t, f)
  {
    if s != [] { SumAgree(s[..|s| - 1], t[..|t| - 1], f); }
  }
}
