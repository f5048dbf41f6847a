/** Sorted copies of integer lists, and counting what lies below a value: the ground on which the median of a
    panel and the rearrangement of digits stand. */
module Sorting {

  predicate Ordered(s: seq<int>) {
    forall i, j :: 0 <= i < j < |s| ==> s[i] <= s[j]
  }

  /** `x` put into its place in an ordered list. */
  function Insert(x: int, s: seq<int>): (r: seq<int>)
    requires Ordered(s)
    ensures Ordered(r) && multiset(r) == multiset(s) + multiset{x}
  {
    if s == [] || x <= s[0] then [x] + s
    else
      var rest := Insert(x, s[1..]);
      InsertBehind(x, s, rest);
      [s[0]] + rest
  }

  lemma InsertBehind(x: int, s: seq<int>, rest: seq<int>)
    requires Ordered(s) && s != [] && s[0] < x
    requires Ordered(rest) && multiset(rest) == multiset(s[1..]) + multiset{x}
    ensures Ordered([s[0]] + rest) && multiset([s[0]] + rest) == multiset(s) + multiset{x}
  {
    assert s == [s[0]] + s[1..];
    forall j | 0 <= j < |rest| ensures s[0] <= rest[j] {
      assert rest[j] in multiset(rest);
      if rest[j] != x {
        assert rest[j] in multiset(s[1..]);
      }
    }
  }

  /** Python's sorted() on integers. */
  function Sorted(s: seq<int>): (r: seq<int>)
    ensures Ordered(r) && multiset(r) == multiset(s) && |r| == |s|
  {
    if s == [] then []
    else
      assert s == s[..|s| - 1] + [s[|s| - 1]];
      var r := Insert(s[|s| - 1], Sorted(s[..|s| - 1]));
      assert |multiset(r)| == |multiset(s)|;
      r
  }

  lemma WithoutFirst(s: seq<int>)
    requires s != []
    ensures multiset(s[1..]) == multiset(s) - multiset{s[0]}
  {
    assert s == [s[0]] + s[1..];
  }

  /** How many entries are at most `x`. */
  function CountAtMost(s: seq<int>, x: int): (n: nat)
    ensures n <= |s|
  {
    if s == [] then 0 else (if s[0] <= x then 1 else 0) + CountAtMost(s[1..], x)
  }

  lemma {:induction false} CountOfConcatenation(s: seq<int>, t: seq<int>, x: int)
    ensures CountAtMost(s + t, x) == CountAtMost(s, x) + CountAtMost(t, x)
  {
    if s == [] {
      assert s + t == t;
    } else {
      assert (s + t)[1..] == s[1..] + t;
      CountOfConcatenation(s[1..], t, x);
    }
  }

  lemma WithoutOne(t: seq<int>, k: nat)
    requires k < |t|
    ensures multiset(t[..k] + t[k + 1..]) == multiset(t) - multiset{t[k]}
  {
    assert t == t[..k] + [t[k]] + t[k + 1..];
    assert multiset(t) == multiset(t[..k] + t[k + 1..]) + multiset{t[k]};
  }

  lemma CountWithoutOne(t: seq<int>, k: nat, x: int)
    requires k < |t|
    ensures CountAtMost(t, x) == CountAtMost(t[..k] + t[k + 1..], x) + if t[k] <= x then 1 else 0
  {
    var rest := [t[k]] + t[k + 1..];
    assert t == t[..k] + rest && rest[1..] == t[k + 1..];
    CountOfConcatenation(t[..k], rest, x);
    CountOfConcatenation(t[..k], t[k + 1..], x);
  }

  /** The count depends on the contents, not on their order. */
  lemma {:induction false} CountIgnoresOrder(s: seq<int>, t: seq<int>, x: int)
    requires multiset(s) == multiset(t)
    ensures CountAtMost(s, x) == CountAtMost(t, x)
    decreases |s|
  {
    if s == [] {
      assert |multiset(t)| == 0;
      assert t == [];
    } else {
      assert s[0] in multiset(t);
      var k :| 0 <= k < |t| && t[k] == s[0];
      WithoutFirst(s);
      WithoutOne(t, k);
      CountWithoutOne(t, k, x);
      CountIgnoresOrder(s[1..], t[..k] + t[k + 1..], x);
    }
  }

  lemma {:induction false} NothingAtMost(s: seq<int>, x: int)
    requires forall i :: 0 <= i < |s| ==> s[i] > x
    ensures CountAtMost(s, x) == 0
  {
    if s != [] {
      NothingAtMost(s[1..], x);
    }
  }

  /** In an ordered list the entries at most `x` are the first ones. */
  lemma {:induction false} RankInOrdered(s: seq<int>, x: int, k: nat)
    requires Ordered(s) && k < |s|
    ensures s[k] <= x <==> k < CountAtMost(s, x)
  {
    if s[0] > x {
      NothingAtMost(s, x);
    } else if k > 0 {
      RankInOrdered(s[1..], x, k - 1);
    }
  }

  /** There is only one ordered list with given contents. */
  lemma OrderedIsUnique(s: seq<int>, t: seq<int>)
    requires Ordered(s) && Ordered(t) && multiset(s) == multiset(t)
    ensures s == t
  {
    assert |multiset(s)| == |multiset(t)|;
    forall k | 0 <= k < |s| ensures s[k] == t[k] {
      CountIgnoresOrder(s, t, s[k]);
      CountIgnoresOrder(s, t, t[k]);
      RankInOrdered(s, s[k], k);
      RankInOrdered(s, t[k], k);
      RankInOrdered(t, s[k], k);
      RankInOrdered(t, t[k], k);
    }
  }
}
