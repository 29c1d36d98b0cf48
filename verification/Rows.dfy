/** Selecting from a table while keeping its order. */
module Rows {
  function Filter<T>(s: seq<T>, p: T -> bool): seq<T> {
    if s == [] then []
    else if p(s[0]) then [s[0]] + Filter(s[1..], p)
    else Filter(s[1..], p)
  }

  function Not<T>(p: T -> bool): T -> bool { x => !p(x) }

  /** Rebuild a sequence from its two halves and the flags that split it. */
  function Interleave<T>(flags: seq<bool>, yes: seq<T>, no: seq<T>): seq<T> {
    if flags == [] then yes + no
    else if flags[0] && yes != [] then [yes[0]] + Interleave(flags[1..], yes[1..], no)
    else if !flags[0] && no != [] then [no[0]] + Interleave(flags[1..], yes, no[1..])
    else yes + no
  }

  function Flags<T>(s: seq<T>, p: T -> bool): (f: seq<bool>)
    ensures |f| == |s|
  {
    if s == [] then [] else [p(s[0])] + Flags(s[1..], p)
  }

  lemma {:induction false} FilterAppend<T>(s: seq<T>, t: seq<T>, p: T -> bool)
    ensures Filter(s + t, p) == Filter(s, p) + Filter(t, p)
  {
    if s == [] {
      assert s + t == t;
    } else {
      assert (s + t)[1..] == s[1..] + t;
      FilterAppend(s[1..], t, p);
    }
  }

  /** One more element at the end, as `push_back` loops see it. */
  lemma FilterSnoc<T>(s: seq<T>, i: nat, p: T -> bool)
    requires i < |s|
    ensures Filter(s[..i + 1], p) == Filter(s[..i], p) + if p(s[i]) then [s[i]] else []
  {
    assert s[..i + 1] == s[..i] + [s[i]];
    FilterAppend(s[..i], [s[i]], p);
  }

  lemma {:induction false} FilterMembers<T>(s: seq<T>, p: T -> bool)
    ensures |Filter(s, p)| <= |s|
    ensures forall x :: x in Filter(s, p) <==> x in s && p(x)
    ensures multiset(Filter(s, p)) <= multiset(s)
  {
    if s != [] {
      assert s == [s[0]] + s[1..];
      FilterMembers(s[1..], p);
    }
  }

  lemma {:induction false} FilterCounts<T>(s: seq<T>, p: T -> bool, x: T)
    ensures multiset(Filter(s, p))[x] == if p(x) then multiset(s)[x] else 0
  {
    if s != [] {
      assert s == [s[0]] + s[1..];
      FilterCounts(s[1..], p, x);
    }
  }

  /** Each element goes to exactly one side, and the sides merge back in order. */
  lemma {:induction false} FilterSplits<T>(s: seq<T>, p: T -> bool)
    ensures |Filter(s, p)| + |Filter(s, Not(p))| == |s|
    ensures Interleave(Flags(s, p), Filter(s, p), Filter(s, Not(p))) == s
  {
    if s != [] {
      FilterSplits(s[1..], p);
      assert s == [s[0]] + s[1..];
      var yes, no := Filter(s[1..], p), Filter(s[1..], Not(p));
      assert ([s[0]] + yes)[1..] == yes && ([s[0]] + no)[1..] == no;
    }
  }

  lemma {:induction false} FilterAll<T>(s: seq<T>, p: T -> bool)
    requires forall x | x in s :: p(x)
    ensures Filter(s, p) == s
  {
    if s != [] {
      FilterAll(s[1..], p);
      assert s == [s[0]] + s[1..];
    }
  }

  lemma {:induction false} FilterNone<T>(s: seq<T>, p: T -> bool)
    requires forall x | x in s :: !p(x)
    ensures Filter(s, p) == []
  {
    if s != [] { FilterNone(s[1..], p); }
  }

  /** A filter that keeps less keeps a shorter list. */
  lemma {:induction false} FilterMonotone<T>(s: seq<T>, p: T -> bool, q: T -> bool)
    requires forall x | x in s :: p(x) ==> q(x)
    ensures |Filter(s, p)| <= |Filter(s, q)|
  {
    if s != [] { FilterMonotone(s[1..], p, q); }
  }

  lemma {:induction false} FilterAgree<T>(s: seq<T>, p: T -> bool, q: T -> bool)
    requires forall x | x in s :: p(x) <==> q(x)
    ensures Filter(s, p) == Filter(s, q)
  {
    if s != [] { FilterAgree(s[1..], p, q); }
  }
}
