/** Filtering and counting in sequences. */
module Lists {

  function Filter<T>(p: T -> bool, s: seq<T>): seq<T> {
    if s == [] then []
    else if p(s[0]) then [s[0]] + Filter(p, s[1..])
    else Filter(p, s[1..])
  }

  lemma {:induction false} FilterMembers<T>(p: T -> bool, s: seq<T>)
    ensures forall x :: x in Filter(p, s) <==> x in s && p(x)
  {
    if s != [] {
      FilterMembers(p, s[1..]);
      assert s == [s[0]] + s[1..];
    }
  }

  lemma {:induction false} FilterConcat<T>(p: T -> bool, s: seq<T>, t: seq<T>)
    ensures Filter(p, s + t) == Filter(p, s) + Filter(p, t)
  {
    if s == [] {
      assert s + t == t;
    } else {
      assert (s + t)[1..] == s[1..] + t;
      FilterConcat(p, s[1..], t);
    }
  }

  lemma {:induction false} FilterAppend<T>(p: T -> bool, s: seq<T>, x: T)
    ensures Filter(p, s + [x]) == Filter(p, s) + if p(x) then [x] else []
  {
    FilterConcat(p, s, [x]);
    assert Filter(p, [x]) == if p(x) then [x] else [];
  }

  /** Filtering twice is filtering by the conjunction. */
  lemma {:induction false} FilterTwice<T>(p: T -> bool, q: T -> bool, both: T -> bool, s: seq<T>)
    requires forall x :: x in s ==> (both(x) <==> p(x) && q(x))
    ensures Filter(q, Filter(p, s)) == Filter(both, s)
  {
    if s != [] {
      FilterTwice(p, q, both, s[1..]);
      assert s[0] in s;
      if p(s[0]) {
        assert Filter(p, s) == [s[0]] + Filter(p, s[1..]);
        assert ([s[0]] + Filter(p, s[1..]))[1..] == Filter(p, s[1..]);
      }
    }
  }

  lemma {:induction false} FilterNone<T>(p: T -> bool, s: seq<T>)
    requires forall x :: x in s ==> p(x)
    ensures Filter(p, s) == s
  {
    if s != [] {
      assert s[0] in s;
      FilterNone(p, s[1..]);
    }
  }

  lemma {:induction false} FilterNothing<T>(p: T -> bool, s: seq<T>)
    requires forall x :: x in s ==> !p(x)
    ensures Filter(p, s) == []
  {
    if s != [] {
      assert s[0] in s;
      FilterNothing(p, s[1..]);
    }
  }

  lemma {:induction false} FilterSame<T>(p: T -> bool, q: T -> bool, s: seq<T>)
    requires forall x :: x in s ==> (p(x) <==> q(x))
    ensures Filter(p, s) == Filter(q, s)
  {
    if s != [] {
      assert s[0] in s;
      FilterSame(p, q, s[1..]);
    }
  }

  predicate Distinct<T(==)>(s: seq<T>) {
    forall i, j :: 0 <= i < j < |s| ==> s[i] != s[j]
  }

  lemma {:induction false} FilterDistinct<T>(p: T -> bool, s: seq<T>)
    requires Distinct(s)
    ensures Distinct(Filter(p, s))
  {
    if s != [] {
      FilterDistinct(p, s[1..]);
      var r := Filter(p, s[1..]);
      FilterMembers(p, s[1..]);
      assert s[0] !in r;
      assert Filter(p, s) == if p(s[0]) then [s[0]] + r else r;
    }
  }

  /** Position of an element. */
  function IndexOf<T(==)>(s: seq<T>, x: T): (i: nat)
    requires x in s
    ensures i < |s| && s[i] == x
  {
    if s[0] == x then 0 else 1 + IndexOf(s[1..], x)
  }

  lemma {:induction false} DistinctAppend<T>(s: seq<T>, x: T)
    requires Distinct(s) && x !in s
    ensures Distinct(s + [x])
  {
  }

  lemma {:induction false} DistinctCounts<T>(s: seq<T>, x: T)
    requires Distinct(s)
    ensures multiset(s)[x] == if x in s then 1 else 0
  {
    if s != [] {
      assert s == [s[0]] + s[1..];
      DistinctCounts(s[1..], x);
    }
  }

  /** Two listings of the same set hold the same elements, each once. */
  lemma {:induction false} SameElements<T>(s: seq<T>, t: seq<T>)
    requires Distinct(s) && Distinct(t) && forall x :: x in s <==> x in t
    ensures multiset(s) == multiset(t) && |s| == |t|
  {
    forall x | x in multiset(s) || x in multiset(t) ensures multiset(s)[x] == multiset(t)[x] {
      DistinctCounts(s, x);
      DistinctCounts(t, x);
    }
    hide Distinct;
    assert |multiset(s)| == |s| && |multiset(t)| == |t|;
  }

  /** Dropping the head of one sequence and its occurrence in the other keeps the elements equal. */
  lemma {:induction false} DropSame<T>(s: seq<T>, t: seq<T>, i: nat)
    requires multiset(s) == multiset(t) && s != [] && i < |t| && t[i] == s[0]
    ensures multiset(s[1..]) == multiset(t[..i] + t[i + 1..])
  {
    assert s == [s[0]] + s[1..];
    assert t == t[..i] + [t[i]] + t[i + 1..];
    assert multiset(s) == multiset{s[0]} + multiset(s[1..]);
    assert multiset(t) == multiset(t[..i]) + multiset{s[0]} + multiset(t[i + 1..]);
    assert multiset(s[1..]) == multiset(s) - multiset{s[0]};
  }

  lemma {:induction false} FilterAround<T>(p: T -> bool, t: seq<T>, i: nat)
    requires i < |t|
    ensures |Filter(p, t)| == |Filter(p, [t[i]])| + |Filter(p, t[..i] + t[i + 1..])|
  {
    hide Filter;
    assert t == t[..i] + ([t[i]] + t[i + 1..]);
    FilterConcat(p, t[..i], [t[i]] + t[i + 1..]);
    FilterConcat(p, [t[i]], t[i + 1..]);
    FilterConcat(p, t[..i], t[i + 1..]);
  }

  /** How many elements pass does not depend on their order. */
  lemma {:induction false} FilterCounts<T>(p: T -> bool, s: seq<T>, t: seq<T>)
    requires multiset(s) == multiset(t)
    ensures |Filter(p, s)| == |Filter(p, t)|
    decreases |s|
  {
    hide Filter;
    assert |multiset(s)| == |s| && |multiset(t)| == |t|;
    if s == [] {
      assert t == [];
    } else {
      assert s[0] in multiset(s);
      var i :| 0 <= i < |t| && t[i] == s[0];
      DropSame(s, t, i);
      FilterCounts(p, s[1..], t[..i] + t[i + 1..]);
      FilterAround(p, s, 0);
      FilterAround(p, t, i);
      assert s[..0] + s[1..] == s[1..];
    }
  }
}
