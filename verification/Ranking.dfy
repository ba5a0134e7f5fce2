/** Which nodes of a PackLeft assignment are used, avoided and denied: the sort-and-scan of
    pkg/controller/scheduling/packleft/manager.go against a definition by rank alone. */
module Ranking {
  import opened Lists

  datatype PackState = Use | Avoid | Deny

  datatype Ranked = Ranked(name: string, full: real)

  // ----- Order -----

  /** Go's string order. */
  predicate Less(s: string, t: string) {
    t != "" && (s == "" || s[0] < t[0] || (s[0] == t[0] && Less(s[1..], t[1..])))
  }

  lemma {:induction false} LessIsTotal(s: string, t: string)
    ensures !(Less(s, t) && Less(t, s))
    ensures Less(s, t) || Less(t, s) || s == t
    ensures !Less(s, s)
  {
    if s != "" {
      LessIsTotal(s[1..], s[1..]);
      if t != "" && s[0] == t[0] {
        LessIsTotal(s[1..], t[1..]);
        assert s == [s[0]] + s[1..] && t == [t[0]] + t[1..];
      }
    }
  }

  lemma {:induction false} LessIsTransitive(s: string, t: string, u: string)
    requires Less(s, t) && Less(t, u)
    ensures Less(s, u)
  {
    if s != "" && s[0] == t[0] == u[0] {
      LessIsTransitive(s[1..], t[1..], u[1..]);
    }
  }

  /** Fullest first; among equally full nodes the greater name first. */
  predicate Precedes(a: Ranked, b: Ranked) {
    if a.full == b.full then Less(b.name, a.name) else a.full > b.full
  }

  lemma {:induction false} PrecedesIsTotal(a: Ranked, b: Ranked)
    ensures !(Precedes(a, b) && Precedes(b, a))
    ensures !Precedes(a, a)
    ensures a.name != b.name ==> Precedes(a, b) || Precedes(b, a)
  {
    LessIsTotal(a.name, b.name);
    LessIsTotal(a.name, a.name);
    hide Less;
  }

  lemma {:induction false} PrecedesIsTransitive(a: Ranked, b: Ranked, c: Ranked)
    requires Precedes(a, b) && Precedes(b, c)
    ensures Precedes(a, c)
  {
    if a.full == b.full == c.full {
      LessIsTransitive(c.name, b.name, a.name);
    }
    hide Less;
  }

  // ----- Sorting -----

  ghost predicate Sorted(s: seq<Ranked>) {
    forall i, j :: 0 <= i < j < |s| ==> Precedes(s[i], s[j])
  }

  predicate DistinctRanked(s: seq<Ranked>) {
    forall i, j :: 0 <= i < j < |s| ==> s[i].name != s[j].name
  }

  function Insert(x: Ranked, s: seq<Ranked>): seq<Ranked> {
    if s == [] || Precedes(x, s[0]) then [x] + s else [s[0]] + Insert(x, s[1..])
  }

  function Sort(s: seq<Ranked>): seq<Ranked> {
    if s == [] then [] else Insert(s[0], Sort(s[1..]))
  }

  lemma {:induction false} InsertKeepsElements(x: Ranked, s: seq<Ranked>)
    ensures multiset(Insert(x, s)) == multiset(s) + multiset{x}
  {
    if s != [] {
      assert s == [s[0]] + s[1..];
      if !Precedes(x, s[0]) {
        InsertKeepsElements(x, s[1..]);
      }
    }
    hide Precedes;
  }

  lemma {:induction false} SortKeepsElements(s: seq<Ranked>)
    ensures multiset(Sort(s)) == multiset(s)
  {
    if s != [] {
      assert s == [s[0]] + s[1..];
      SortKeepsElements(s[1..]);
      InsertKeepsElements(s[0], Sort(s[1..]));
    }
    hide Insert;
  }

  lemma {:induction false} SameMembers(s: seq<Ranked>, t: seq<Ranked>)
    requires multiset(s) == multiset(t)
    ensures |s| == |t| && forall x :: x in s <==> x in t
  {
    assert |multiset(s)| == |s| && |multiset(t)| == |t|;
    assert forall x :: x in s <==> x in multiset(s);
    assert forall x :: x in t <==> x in multiset(t);
  }

  lemma {:induction false} InsertIsSorted(x: Ranked, s: seq<Ranked>)
    requires Sorted(s) && forall y :: y in s ==> y.name != x.name
    ensures Sorted(Insert(x, s))
  {
    hide Precedes;
    if s != [] {
      PrecedesIsTotal(x, s[0]);
      assert s[0] in s;
      if Precedes(x, s[0]) {
        forall y | y in s ensures Precedes(x, y) {
          if y != s[0] {
            PrecedesIsTransitive(x, s[0], y);
          }
        }
      } else {
        InsertIsSorted(x, s[1..]);
        InsertKeepsElements(x, s[1..]);
        var rest := Insert(x, s[1..]);
        forall y | y in rest ensures Precedes(s[0], y) {
          assert y in multiset(rest);
          assert y in multiset(s[1..]) || y == x;
        }
      }
    }
  }

  lemma {:induction false} SortIsSorted(s: seq<Ranked>)
    requires DistinctRanked(s)
    ensures Sorted(Sort(s))
  {
    if s != [] {
      SortIsSorted(s[1..]);
      SortKeepsElements(s[1..]);
      SameMembers(Sort(s[1..]), s[1..]);
      InsertIsSorted(s[0], Sort(s[1..]));
    }
    hide Precedes, Insert;
  }

  // ----- Ranks -----

  /** How many elements come before x. */
  function Rank(x: Ranked, s: seq<Ranked>): nat {
    if s == [] then 0 else (if Precedes(s[0], x) then 1 else 0) + Rank(x, s[1..])
  }

  /** How many elements are above a limit. */
  function Above(limit: real, s: seq<Ranked>): nat {
    if s == [] then 0 else (if s[0].full > limit then 1 else 0) + Above(limit, s[1..])
  }

  /** Size of the block of used nodes: those above the limit, at least one. */
  function UseBlock(limit: real, s: seq<Ranked>): nat { if Above(limit, s) < 1 then 1 else Above(limit, s) }

  /** The state by rank: first the used block, then the buffer, then the rest. */
  function StateByRank(x: Ranked, s: seq<Ranked>, limit: real, buffer: nat): PackState {
    if Rank(x, s) < UseBlock(limit, s) then Use
    else if Rank(x, s) < UseBlock(limit, s) + buffer then Avoid
    else Deny
  }

  lemma {:induction false} RankConcat(x: Ranked, s: seq<Ranked>, t: seq<Ranked>)
    ensures Rank(x, s + t) == Rank(x, s) + Rank(x, t)
  {
    if s == [] {
      assert s + t == t;
    } else {
      assert (s + t)[1..] == s[1..] + t;
      RankConcat(x, s[1..], t);
    }
    hide Precedes;
  }

  lemma {:induction false} AboveConcat(limit: real, s: seq<Ranked>, t: seq<Ranked>)
    ensures Above(limit, s + t) == Above(limit, s) + Above(limit, t)
  {
    if s == [] {
      assert s + t == t;
    } else {
      assert (s + t)[1..] == s[1..] + t;
      AboveConcat(limit, s[1..], t);
    }
  }

  lemma {:induction false} SplitAt(x: Ranked, limit: real, t: seq<Ranked>, i: nat)
    requires i < |t|
    ensures Rank(x, t) == Rank(x, [t[i]]) + Rank(x, t[..i] + t[i + 1..])
    ensures Above(limit, t) == Above(limit, [t[i]]) + Above(limit, t[..i] + t[i + 1..])
  {
    hide Precedes, Rank, Above;
    assert t == t[..i] + ([t[i]] + t[i + 1..]);
    RankConcat(x, t[..i], [t[i]] + t[i + 1..]);
    RankConcat(x, [t[i]], t[i + 1..]);
    RankConcat(x, t[..i], t[i + 1..]);
    AboveConcat(limit, t[..i], [t[i]] + t[i + 1..]);
    AboveConcat(limit, [t[i]], t[i + 1..]);
    AboveConcat(limit, t[..i], t[i + 1..]);
  }

  /** Ranks and the size of the used block do not depend on the order of the nodes. */
  lemma {:induction false} PermutationInvariant(x: Ranked, limit: real, s: seq<Ranked>, t: seq<Ranked>)
    requires multiset(s) == multiset(t)
    ensures Rank(x, s) == Rank(x, t) && Above(limit, s) == Above(limit, t)
    decreases |s|
  {
    SameMembers(s, t);
    if s != [] {
      assert s[0] in t;
      var i :| 0 <= i < |t| && t[i] == s[0];
      DropSame(s, t, i);
      PermutationInvariant(x, limit, s[1..], t[..i] + t[i + 1..]);
      SplitAt(x, limit, t, i);
      SplitAt(x, limit, s, 0);
      assert s[..0] + s[1..] == s[1..];
      hide Precedes, Rank, Above;
    } else {
      assert t == [];
    }
  }

  lemma {:induction false} RankOfAll(x: Ranked, s: seq<Ranked>)
    ensures (forall y :: y in s ==> Precedes(y, x)) ==> Rank(x, s) == |s|
    ensures (forall y :: y in s ==> !Precedes(y, x)) ==> Rank(x, s) == 0
  {
    if s != [] {
      assert s[0] in s;
      RankOfAll(x, s[1..]);
    }
    hide Precedes;
  }

  /** In a sorted sequence rank is position. */
  lemma {:induction false} RankIsPosition(s: seq<Ranked>, i: nat)
    requires Sorted(s) && i < |s|
    ensures Rank(s[i], s) == i
  {
    var x := s[i];
    forall y | y in s[i..] ensures !Precedes(y, x) {
      PrecedesIsTotal(x, y);
    }
    hide Precedes;
    assert s == s[..i] + s[i..];
    RankConcat(x, s[..i], s[i..]);
    RankOfAll(x, s[..i]);
    RankOfAll(x, s[i..]);
  }

  lemma {:induction false} AboveOfAll(limit: real, s: seq<Ranked>)
    ensures (forall y :: y in s ==> y.full > limit) ==> Above(limit, s) == |s|
    ensures (forall y :: y in s ==> !(y.full > limit)) ==> Above(limit, s) == 0
    ensures Above(limit, s) <= |s|
  {
    if s != [] {
      assert s[0] in s;
      AboveOfAll(limit, s[1..]);
    }
  }

  /** In a sorted sequence the nodes above the limit come first. */
  lemma {:induction false} AboveIsPrefix(limit: real, s: seq<Ranked>, i: nat)
    requires Sorted(s) && i < |s|
    ensures s[i].full > limit <==> i < Above(limit, s)
  {
    hide Precedes, Above;
    if s[i].full > limit {
      forall y | y in s[..i + 1] ensures y.full > limit {
        FullnessFalls(s, i, y);
      }
      assert s == s[..i + 1] + s[i + 1..];
      AboveConcat(limit, s[..i + 1], s[i + 1..]);
      AboveOfAll(limit, s[..i + 1]);
    } else {
      forall y | y in s[i..] ensures !(y.full > limit) {
        FullnessRises(s, i, y);
      }
      assert s == s[..i] + s[i..];
      AboveConcat(limit, s[..i], s[i..]);
      AboveOfAll(limit, s[..i]);
      AboveOfAll(limit, s[i..]);
    }
  }

  lemma {:induction false} FullnessRises(s: seq<Ranked>, i: nat, y: Ranked)
    requires Sorted(s) && i < |s| && y in s[i..]
    ensures y.full <= s[i].full
  {
    var j :| i <= j < |s| && s[j] == y;
    if i < j {
      assert Precedes(s[i], s[j]);
    }
    hide Less;
  }

  lemma {:induction false} FullnessFalls(s: seq<Ranked>, i: nat, y: Ranked)
    requires Sorted(s) && i < |s| && y in s[..i + 1]
    ensures y.full >= s[i].full
  {
    var j :| 0 <= j <= i && s[j] == y;
    if j < i {
      assert Precedes(s[j], s[i]);
    }
    hide Less;
  }

  // ----- The scan -----

  /** One turn of the scan over the sorted nodes, given how many were avoided so far. */
  function ScanOne(i: nat, full: real, limit: real, avoided: nat, buffer: nat): PackState {
    if i == 0 || full > limit then Use
    else if avoided < buffer then Avoid
    else Deny
  }

  /** Nodes avoided by the scan before position i. */
  function AvoidedBefore(limit: real, s: seq<Ranked>, buffer: nat, i: nat): nat
  {
    var use := UseBlock(limit, s);
    if i <= use then 0 else if i - use <= buffer then i - use else buffer
  }

  /** Each turn of the scan decides by rank, and keeps the count of avoided nodes. */
  lemma {:induction false} ScanIsRank(s: seq<Ranked>, limit: real, buffer: nat, i: nat)
    requires Sorted(s) && i < |s|
    ensures var avoided := AvoidedBefore(limit, s, buffer, i);
            var state := ScanOne(i, s[i].full, limit, avoided, buffer);
            && state == StateByRank(s[i], s, limit, buffer)
            && AvoidedBefore(limit, s, buffer, i + 1) == avoided + if state == Avoid then 1 else 0
  {
    RankIsPosition(s, i);
    AboveIsPrefix(limit, s, i);
    hide Sorted, Rank, Above;
  }

  /** Position by position: Use, then Avoid, then Deny, with the sizes of the blocks. */
  lemma {:induction false} ShapeOfScan(s: seq<Ranked>, limit: real, buffer: nat, i: nat)
    requires Sorted(s) && i < |s|
    ensures StateByRank(s[i], s, limit, buffer) ==
              if i < UseBlock(limit, s) then Use
              else if i < UseBlock(limit, s) + buffer then Avoid
              else Deny
  {
    RankIsPosition(s, i);
    hide Sorted, Rank, Above;
  }

  /** The state of a node does not depend on the order in which the nodes are given. */
  lemma {:induction false} StateIsOrderFree(x: Ranked, s: seq<Ranked>, t: seq<Ranked>, limit: real, buffer: nat)
    requires multiset(s) == multiset(t)
    ensures StateByRank(x, s, limit, buffer) == StateByRank(x, t, limit, buffer)
  {
    PermutationInvariant(x, limit, s, t);
    hide Rank, Above;
  }

  // ----- Sizes of the blocks -----

  function InState(s: seq<Ranked>, limit: real, buffer: nat, state: PackState): Ranked -> bool {
    (x: Ranked) => StateByRank(x, s, limit, buffer) == state
  }

  function CountIn(s: seq<Ranked>, limit: real, buffer: nat, state: PackState, part: seq<Ranked>): nat {
    |Filter(InState(s, limit, buffer, state), part)|
  }

  /** n, but at least 0 and at most top. */
  function Clamp(n: int, top: nat): nat { if n < 0 then 0 else if n > top then top else n }

  lemma {:induction false} SortedCounts(s: seq<Ranked>, limit: real, buffer: nat, i: nat)
    requires Sorted(s) && i <= |s|
    ensures var u := UseBlock(limit, s);
            && CountIn(s, limit, buffer, Use, s[..i]) == Clamp(i, u)
            && CountIn(s, limit, buffer, Avoid, s[..i]) == Clamp(i - u, buffer)
            && CountIn(s, limit, buffer, Deny, s[..i]) == Clamp(i - u - buffer, i)
  {
    hide Sorted, StateByRank, UseBlock;
    if i > 0 {
      SortedCounts(s, limit, buffer, i - 1);
      ShapeOfScan(s, limit, buffer, i - 1);
      assert s[..i] == s[..i - 1] + [s[i - 1]];
      FilterAppend(InState(s, limit, buffer, Use), s[..i - 1], s[i - 1]);
      FilterAppend(InState(s, limit, buffer, Avoid), s[..i - 1], s[i - 1]);
      FilterAppend(InState(s, limit, buffer, Deny), s[..i - 1], s[i - 1]);
      hide Filter;
    }
  }

  lemma {:induction false} SameCount(s: seq<Ranked>, t: seq<Ranked>, limit: real, buffer: nat, state: PackState)
    requires multiset(s) == multiset(t)
    ensures CountIn(s, limit, buffer, state, s) == CountIn(t, limit, buffer, state, t)
  {
    FilterCounts(InState(s, limit, buffer, state), s, t);
    forall x | x in t ensures InState(s, limit, buffer, state)(x) <==> InState(t, limit, buffer, state)(x) {
      StateIsOrderFree(x, s, t, limit, buffer);
    }
    FilterSame(InState(s, limit, buffer, state), InState(t, limit, buffer, state), t);
    hide Filter, StateByRank;
  }

  /** Of m nodes with different names, given in any order, as many are used as are above the limit, but at
      least one; of the others as many as fit the buffer are avoided; the rest is denied. */
  lemma {:induction false} BlockSizes(s: seq<Ranked>, limit: real, buffer: nat)
    requires DistinctRanked(s)
    ensures var m := |s|;
            var u := if m == 0 then 0 else UseBlock(limit, s);
            && u <= m
            && CountIn(s, limit, buffer, Use, s) == u
            && CountIn(s, limit, buffer, Avoid, s) == (if buffer < m - u then buffer else m - u)
            && CountIn(s, limit, buffer, Deny, s) == (if buffer < m - u then m - u - buffer else 0)
  {
    var t := Sort(s);
    SortIsSorted(s);
    SortKeepsElements(s);
    SameMembers(s, t);
    SortedCounts(t, limit, buffer, |t|);
    assert t[..|t|] == t;
    SameCount(s, t, limit, buffer, Use);
    SameCount(s, t, limit, buffer, Avoid);
    SameCount(s, t, limit, buffer, Deny);
    PermutationInvariant(Ranked("", 0.0), limit, s, t);
    AboveOfAll(limit, s);
    hide CountIn, Sort, Sorted, Above, DistinctRanked;
  }

  // ----- Who is used -----

  lemma {:induction false} RankIsZero(x: Ranked, s: seq<Ranked>)
    ensures Rank(x, s) == 0 <==> forall y :: y in s ==> !Precedes(y, x)
  {
    if s != [] {
      RankIsZero(x, s[1..]);
      assert s == [s[0]] + s[1..];
    }
    hide Precedes;
  }

  lemma {:induction false} FullOnesComeFirst(x: Ranked, s: seq<Ranked>, limit: real)
    ensures x.full <= limit ==> Above(limit, s) <= Rank(x, s)
    ensures x.full > limit ==> Rank(x, s) <= Above(limit, s)
    ensures x.full > limit && x in s ==> Rank(x, s) < Above(limit, s)
  {
    if s != [] {
      FullOnesComeFirst(x, s[1..], limit);
      PrecedesIsTotal(x, x);
      assert s == [s[0]] + s[1..];
    }
    hide Less;
  }

  /** A node is used exactly if it is above the limit or nobody comes before it. */
  lemma {:induction false} UsedExactly(x: Ranked, s: seq<Ranked>, limit: real, buffer: nat)
    requires x in s
    ensures StateByRank(x, s, limit, buffer) == Use <==> x.full > limit || forall y :: y in s ==> !Precedes(y, x)
  {
    RankIsZero(x, s);
    FullOnesComeFirst(x, s, limit);
    hide Rank, Above, Precedes;
  }

  lemma {:induction false} RankRises(x: Ranked, y: Ranked, s: seq<Ranked>)
    requires Precedes(x, y)
    ensures Rank(x, s) <= Rank(y, s)
  {
    if s != [] {
      RankRises(x, y, s[1..]);
      if Precedes(s[0], x) {
        PrecedesIsTransitive(s[0], x, y);
      }
    }
    hide Precedes;
  }

  /** Of two nodes the fuller one, or of two equally full ones the one with the greater name, is not more restricted. */
  lemma {:induction false} PreferredIsNotMoreRestricted(x: Ranked, y: Ranked, s: seq<Ranked>, limit: real, buffer: nat)
    requires x.full > y.full || (x.full == y.full && Less(y.name, x.name))
    ensures Restriction(StateByRank(x, s, limit, buffer)) <= Restriction(StateByRank(y, s, limit, buffer))
  {
    RankRises(x, y, s);
    hide Rank, Above, Precedes;
  }

  /** Go's string order: a proper prefix, or a smaller character at the first difference. */
  lemma {:induction false} LessExactly(s: string, t: string)
    ensures Less(s, t) <==>
              (s < t || exists i :: 0 <= i < |s| && i < |t| && s[i] < t[i] && forall j :: 0 <= j < i ==> s[j] == t[j])
  {
    if s != "" && t != "" && s[0] == t[0] {
      LessExactly(s[1..], t[1..]);
      assert s == [s[0]] + s[1..] && t == [t[0]] + t[1..];
      assert s < t <==> s[1..] < t[1..];
      if i :| 0 <= i < |s| && i < |t| && s[i] < t[i] && forall j :: 0 <= j < i ==> s[j] == t[j] {
        assert s[1..][i - 1] == s[i] && t[1..][i - 1] == t[i];
        assert forall j :: 0 <= j < i - 1 ==> s[1..][j] == s[j + 1] == t[j + 1] == t[1..][j];
      }
      if i :| 0 <= i < |s[1..]| && i < |t[1..]| && s[1..][i] < t[1..][i] && forall j :: 0 <= j < i ==> s[1..][j] == t[1..][j] {
        assert s[i + 1] == s[1..][i] && t[i + 1] == t[1..][i];
        assert forall j :: 0 < j < i + 1 ==> s[j] == s[1..][j - 1] == t[1..][j - 1] == t[j];
      }
      hide Less;
    } else if s != "" && t != "" {
      assert !(s < t);
    }
  }

  // ----- Monotonicity -----

  function Restriction(state: PackState): nat {
    match state case Use => 0 case Avoid => 1 case Deny => 2
  }

  lemma {:induction false} RankFalls(name: string, low: real, high: real, s: seq<Ranked>)
    requires low <= high
    ensures Rank(Ranked(name, high), s) <= Rank(Ranked(name, low), s)
  {
    if s != [] {
      RankFalls(name, low, high, s[1..]);
    }
    hide Less;
  }

  /** Raising one node's fullness while all others stay never makes that node's state more restrictive. */
  lemma {:induction false} FullerIsNotMoreRestricted(before: seq<Ranked>, after: seq<Ranked>, name: string, low: real, high: real,
                                                     limit: real, buffer: nat)
    requires low <= high
    ensures var x, y := Ranked(name, low), Ranked(name, high);
            Restriction(StateByRank(y, before + [y] + after, limit, buffer))
              <= Restriction(StateByRank(x, before + [x] + after, limit, buffer))
  {
    var x, y := Ranked(name, low), Ranked(name, high);
    RankConcat(x, before + [x], after);
    RankConcat(x, before, [x]);
    RankConcat(y, before + [y], after);
    RankConcat(y, before, [y]);
    AboveConcat(limit, before + [x], after);
    AboveConcat(limit, before, [x]);
    AboveConcat(limit, before + [y], after);
    AboveConcat(limit, before, [y]);
    PrecedesIsTotal(x, x);
    PrecedesIsTotal(y, y);
    assert Rank(x, [x]) == 0 && Rank(y, [y]) == 0;
    assert Above(limit, [x]) <= Above(limit, [y]);
    RankFalls(name, low, high, before);
    RankFalls(name, low, high, after);
    hide Rank, Above, Precedes;
  }

  /** Whatever the sorting procedure, there is only one sorted order. */
  lemma {:induction false} SortedIsUnique(s: seq<Ranked>, t: seq<Ranked>)
    requires Sorted(s) && Sorted(t) && multiset(s) == multiset(t)
    ensures s == t
  {
    SameMembers(s, t);
    forall i | 0 <= i < |s| ensures s[i] == t[i] {
      assert s[i] in t;
      var j :| 0 <= j < |t| && t[j] == s[i];
      RankIsPosition(s, i);
      RankIsPosition(t, j);
      PermutationInvariant(s[i], 0.0, s, t);
    }
    hide Sorted, Rank, Above;
  }
}
