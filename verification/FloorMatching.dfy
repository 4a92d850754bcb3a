/** Confidence floors: how many matched predictions fall below the confidence the gold data demands. */
module FloorMatching {
  import opened StableSort

  /** A gold item with its floor, or a prediction with its confidence. */
  datatype Rated<S> = Rated(signature: S, value: int)

  predicate Descending(a: int, b: int) {
    a >= b
  }

  function HasSignature<S(==)>(s: S): Rated<S> -> bool {
    (item: Rated<S>) => item.signature == s
  }

  function ValueOf<S>(): Rated<S> -> int {
    (item: Rated<S>) => item.value
  }

  /** The values rated under one signature, in item order. */
  function Values<S(==)>(items: seq<Rated<S>>, s: S): seq<int> {
    Map(ValueOf<S>(), Filter(items, HasSignature(s)))
  }

  /** Pairs beyond the shorter list are not looked at. */
  function BelowFloor(floors: seq<int>, actual: seq<int>): nat {
    if floors == [] || actual == [] then 0
    else (if actual[0] < floors[0] then 1 else 0) + BelowFloor(floors[1..], actual[1..])
  }

  function MissesAt(floors: seq<int>, actual: seq<int>): nat {
    BelowFloor(Sort(floors, Descending), Sort(actual, Descending))
  }

  ghost function Signatures<S>(items: seq<Rated<S>>): set<S> {
    set item | item in items :: item.signature
  }

  /** A sum over a finite set, in whatever order. */
  ghost function SumOver<S(!new)>(ss: set<S>, f: S -> nat): nat {
    if ss == {} then 0
    else
      var s :| s in ss;
      f(s) + SumOver(ss - {s}, f)
  }

  lemma {:induction false} SumOverTake<S(!new)>(ss: set<S>, f: S -> nat, s: S)
    requires s in ss
    ensures SumOver(ss, f) == f(s) + SumOver(ss - {s}, f)
    decreases ss
  {
    var first :| first in ss && SumOver(ss, f) == f(first) + SumOver(ss - {first}, f);
    if first != s {
      SumOverTake(ss - {first}, f, s);
      SumOverTake(ss - {s}, f, first);
      assert ss - {first} - {s} == ss - {s} - {first};
    }
  }

  lemma {:induction false} SumOverZero<S(!new)>(ss: set<S>, f: S -> nat)
    ensures SumOver(ss, f) == 0 <==> forall s :: s in ss ==> f(s) == 0
    decreases ss
  {
    if ss != {} {
      var first :| first in ss && SumOver(ss, f) == f(first) + SumOver(ss - {first}, f);
      SumOverZero(ss - {first}, f);
    }
  }

  ghost function MissesPer<S(!new)>(expected: seq<Rated<S>>, actual: seq<Rated<S>>): S -> nat {
    (s: S) => MissesAt(Values(expected, s), Values(actual, s))
  }

  ghost function TotalMisses<S(!new)>(expected: seq<Rated<S>>, actual: seq<Rated<S>>): nat {
    SumOver(Signatures(expected) * Signatures(actual), MissesPer(expected, actual))
  }

  /** `table` groups the values of `items` by signature. */
  ghost predicate Groups<S(!new)>(table: map<S, seq<int>>, items: seq<Rated<S>>) {
    && table.Keys == Signatures(items)
    && forall s :: s in table ==> table[s] == Values(items, s)
  }

  /** The table with one more value under the item's signature. */
  function Filed<S(==)>(table: map<S, seq<int>>, item: Rated<S>): map<S, seq<int>> {
    table[item.signature := (if item.signature in table then table[item.signature] else []) + [item.value]]
  }

  lemma GroupsSnoc<S(!new)>(table: map<S, seq<int>>, items: seq<Rated<S>>, item: Rated<S>)
    requires Groups(table, items)
    ensures Groups(Filed(table, item), items + [item])
  {
    hide Values;
    var next := Filed(table, item);
    SignaturesSnoc(items, item);
    forall s | s in next ensures next[s] == Values(items + [item], s) {
      ValuesSnoc(items, item, s);
      if s !in table {
        NoValues(items, s);
      }
    }
  }

  lemma SignaturesSnoc<S(!new)>(items: seq<Rated<S>>, item: Rated<S>)
    ensures Signatures(items + [item]) == Signatures(items) + {item.signature}
  {
    var more := items + [item];
    forall s | s in Signatures(items) + {item.signature} ensures s in Signatures(more) {
      if s in Signatures(items) {
        var kept :| kept in items && kept.signature == s;
        assert kept in more;
      } else {
        assert item in more;
      }
    }
  }

  method Group<S(==,!new)>(items: seq<Rated<S>>) returns (table: map<S, seq<int>>)
    ensures Groups(table, items)
  {
    hide Groups;
    table := map[];
    NothingFiled<S>();
    assert items[..0] == [];
    for i := 0 to |items|
      invariant Groups(table, items[..i])
    {
      GroupsSnoc(table, items[..i], items[i]);
      assert items[..i + 1] == items[..i] + [items[i]];
      table := Filed(table, items[i]);
    }
    assert items[..|items|] == items;
  }

  lemma NothingFiled<S(!new)>()
    ensures Groups<S>(map[], [])
  {
  }

  lemma ValuesSnoc<S(!new)>(items: seq<Rated<S>>, item: Rated<S>, s: S)
    ensures Values(items + [item], s) == Values(items, s) + if item.signature == s then [item.value] else []
  {
    var kept := Filter(items, HasSignature(s));
    FilterSnoc(items, item, HasSignature(s));
    if item.signature == s {
      MapConcat(ValueOf<S>(), kept, [item]);
      assert Map(ValueOf<S>(), [item]) == [item.value];
    } else {
      assert Filter(items + [item], HasSignature(s)) == kept;
    }
  }

  lemma NoValues<S(!new)>(items: seq<Rated<S>>, s: S)
    requires s !in Signatures(items)
    ensures Values(items, s) == []
  {
    var kept := Filter(items, HasSignature(s));
    if kept != [] {
      assert kept[0] in kept;
      FilterMember(items, HasSignature(s), kept[0]);
    }
  }

  method ConfidenceFloorMisses<S(==,!new)>(expected: seq<Rated<S>>, actual: seq<Rated<S>>) returns (misses: nat)
    ensures misses == TotalMisses(expected, actual)
  {
    var expectedBySignature := Group(expected);
    var actualBySignature := Group(actual);
    ghost var f := MissesPer(expected, actual);
    misses := 0;
    var left := expectedBySignature.Keys * actualBySignature.Keys;
    while left != {}
      invariant left <= Signatures(expected) * Signatures(actual)
      invariant misses + SumOver(left, f) == TotalMisses(expected, actual)
      decreases left
    {
      var s :| s in left;
      SumOverTake(left, f, s);
      misses := misses + MissesAt(expectedBySignature[s], actualBySignature[s]);
      left := left - {s};
    }
  }

  // ---------- What zero misses means ----------

  /** The floors can be covered: distinct predictions can be assigned to them, each meeting its floor. */
  ghost predicate Coverable(floors: seq<int>, actual: seq<int>) {
    exists chosen: seq<int> :: Covers(chosen, floors, actual)
  }

  ghost predicate Covers(chosen: seq<int>, floors: seq<int>, actual: seq<int>) {
    multiset(chosen) <= multiset(actual) && Pairwise(floors, chosen)
  }

  lemma {:induction false} BelowFloorZero(floors: seq<int>, actual: seq<int>)
    ensures BelowFloor(floors, actual) == 0
            <==> forall i :: 0 <= i < |floors| && i < |actual| ==> floors[i] <= actual[i]
    decreases |floors|
  {
    if floors != [] && actual != [] {
      BelowFloorZero(floors[1..], actual[1..]);
      if forall i :: 0 <= i < |floors| && i < |actual| ==> floors[i] <= actual[i] {
        forall i | 0 <= i < |floors[1..]| && i < |actual[1..]|
          ensures floors[1..][i] <= actual[1..][i]
        {
          assert floors[i + 1] <= actual[i + 1];
        }
      }
      if forall i :: 0 <= i < |floors[1..]| && i < |actual[1..]| ==> floors[1..][i] <= actual[1..][i] {
        forall i | 1 <= i < |floors| && i < |actual|
          ensures floors[i] <= actual[i]
        {
          assert floors[1..][i - 1] <= actual[1..][i - 1];
        }
      }
    }
  }

  function Meets(v: int): int -> bool {
    (x: int) => x >= v
  }

  lemma {:induction false} FilterLength(s: seq<int>, v: int)
    ensures |Filter(s, Meets(v))| <= |s|
    ensures (forall i :: 0 <= i < |s| ==> s[i] >= v) ==> |Filter(s, Meets(v))| == |s|
    ensures (forall i :: 0 <= i < |s| ==> s[i] < v) ==> |Filter(s, Meets(v))| == 0
    decreases |s|
  {
    if s != [] {
      FilterLength(s[..|s| - 1], v);
    }
  }

  lemma MoreMeet(s: seq<int>, t: seq<int>, v: int)
    requires multiset(s) <= multiset(t)
    ensures |Filter(s, Meets(v))| <= |Filter(t, Meets(v))|
  {
    var a, b := multiset(Filter(s, Meets(v))), multiset(Filter(t, Meets(v)));
    forall x
      ensures a[x] <= b[x]
    {
      FilterCount(s, Meets(v), x);
      FilterCount(t, Meets(v), x);
    }
    assert b == a + (b - a);
    assert |a| == |Filter(s, Meets(v))| && |b| == |Filter(t, Meets(v))|;
  }

  /** At most `i` values meet a bar that the value at position `i` misses. */
  lemma FewMeet(actual: seq<int>, i: nat, v: int)
    requires SortedBy(actual, Descending) && i < |actual| && actual[i] < v
    ensures |Filter(actual, Meets(v))| <= i
  {
    var high, low := actual[..i], actual[i..];
    assert actual == high + low;
    forall j | 0 <= j < |low|
      ensures low[j] < v
    {
      assert j == 0 || Descending(actual[i], actual[i + j]);
    }
    FilterLength(high, v);
    FilterLength(low, v);
    FilterConcat(high, low, Meets(v));
  }

  /** The assignment to the first `i + 1` floors meets the bar of the last of them. */
  lemma ManyMeet(floors: seq<int>, chosen: seq<int>, i: nat)
    requires SortedBy(floors, Descending) && Pairwise(floors, chosen) && i < |floors|
    ensures |Filter(chosen, Meets(floors[i]))| > i
  {
    var v, upper := floors[i], chosen[..i + 1];
    forall j | 0 <= j < |upper|
      ensures upper[j] >= v
    {
      assert floors[j] <= chosen[j];
      assert j == i || Descending(floors[j], floors[i]);
    }
    FilterLength(upper, v);
    assert chosen == upper + chosen[i + 1..];
    FilterConcat(upper, chosen[i + 1..], Meets(v));
  }

  /** If some assignment covers the floors, then so does pairing both lists from the top. */
  lemma SortedPairingSuffices(floors: seq<int>, actual: seq<int>, chosen: seq<int>, i: nat)
    requires SortedBy(floors, Descending) && SortedBy(actual, Descending)
    requires Covers(chosen, floors, actual) && i < |floors| && i < |actual|
    ensures floors[i] <= actual[i]
  {
    hide Filter;
    ManyMeet(floors, chosen, i);
    MoreMeet(chosen, actual, floors[i]);
    if actual[i] < floors[i] {
      FewMeet(actual, i, floors[i]);
    }
  }

  ghost predicate Pairwise(floors: seq<int>, chosen: seq<int>) {
    |chosen| == |floors| && forall i :: 0 <= i < |floors| ==> floors[i] <= chosen[i]
  }

  lemma PairwiseWithout(floors: seq<int>, chosen: seq<int>, j: nat)
    requires Pairwise(floors, chosen) && j < |floors|
    ensures Pairwise(floors[..j] + floors[j + 1..], chosen[..j] + chosen[j + 1..])
    ensures multiset(chosen) == multiset{chosen[j]} + multiset(chosen[..j] + chosen[j + 1..])
    ensures floors == floors[..j] + [floors[j]] + floors[j + 1..]
  {
    assert chosen == chosen[..j] + [chosen[j]] + chosen[j + 1..];
  }

  /** Re-ordering the floors re-orders the assignment with them. */
  lemma {:induction false} CoverRearranged(floors: seq<int>, chosen: seq<int>, rearranged: seq<int>)
    returns (moved: seq<int>)
    requires Pairwise(floors, chosen)
    requires multiset(floors) == multiset(rearranged)
    ensures Pairwise(rearranged, moved) && multiset(moved) == multiset(chosen)
    decreases |rearranged|
  {
    hide Pairwise;
    SameLength(floors, rearranged);
    if rearranged == [] {
      moved := [];
      PairwiseEmpty(floors, chosen);
    } else {
      var x, tail := rearranged[0], rearranged[1..];
      SameElements(rearranged, floors);
      assert rearranged == [x] + tail && x in rearranged;
      var j :| 0 <= j < |floors| && floors[j] == x;
      PairwiseLength(floors, chosen);
      PairwiseWithout(floors, chosen, j);
      SameRest(x, tail, floors[..j], floors[j + 1..]);
      var rest := CoverRearranged(floors[..j] + floors[j + 1..], chosen[..j] + chosen[j + 1..], tail);
      moved := [chosen[j]] + rest;
      PairwiseAt(floors, chosen, j);
      PairwiseCons(x, tail, chosen[j], rest);
    }
  }

  lemma PairwiseLength(floors: seq<int>, chosen: seq<int>)
    requires Pairwise(floors, chosen)
    ensures |floors| == |chosen|
  {
  }

  lemma PairwiseAt(floors: seq<int>, chosen: seq<int>, j: nat)
    requires Pairwise(floors, chosen) && j < |floors|
    ensures |floors| == |chosen| && floors[j] <= chosen[j]
  {
  }

  lemma PairwiseEmpty(floors: seq<int>, chosen: seq<int>)
    requires Pairwise(floors, chosen) && floors == []
    ensures chosen == [] && Pairwise([], [])
  {
  }

  lemma PairwiseCons(x: int, floors: seq<int>, y: int, chosen: seq<int>)
    requires x <= y && Pairwise(floors, chosen)
    ensures Pairwise([x] + floors, [y] + chosen)
  {
  }

  lemma CoverableForgetsOrder(floors: seq<int>, rearranged: seq<int>, actual: seq<int>)
    requires multiset(floors) == multiset(rearranged) && Coverable(floors, actual)
    ensures Coverable(rearranged, actual)
  {
    var chosen :| Covers(chosen, floors, actual);
    var moved := CoverRearranged(floors, chosen, rearranged);
    assert Covers(moved, rearranged, actual);
  }

  /** The floors that take part: the highest ones, as many as there are predictions. */
  function TopFloors(floors: seq<int>, n: nat): seq<int> {
    var sorted := Sort(floors, Descending);
    if n < |sorted| then sorted[..n] else sorted
  }

  lemma DescendingIsTotalOrder()
    ensures TotalOrder(Descending)
  {
  }

  lemma SortedFacts(s: seq<int>)
    ensures SortedBy(Sort(s, Descending), Descending)
    ensures multiset(Sort(s, Descending)) == multiset(s) && |Sort(s, Descending)| == |s|
  {
    DescendingIsTotalOrder();
    SortSorts(s, Descending);
    SortPermutes(s, Descending);
  }

  lemma PrefixCovers(top: seq<int>, ps: seq<int>, actual: seq<int>)
    requires multiset(ps) == multiset(actual) && |top| <= |ps|
    requires forall i :: 0 <= i < |top| ==> top[i] <= ps[i]
    ensures Coverable(top, actual)
  {
    var chosen := ps[..|top|];
    assert ps == chosen + ps[|top|..];
    assert Covers(chosen, top, actual);
  }

  /** No miss under a signature exactly when the floors that take part can be covered. */
  lemma NoMissIffTopCoverable(floors: seq<int>, actual: seq<int>)
    ensures MissesAt(floors, actual) == 0 <==> Coverable(TopFloors(floors, |actual|), actual)
  {
    hide Sort, BelowFloor;
    var es, ps := Sort(floors, Descending), Sort(actual, Descending);
    var top := TopFloors(floors, |actual|);
    SortedFacts(floors);
    SortedFacts(actual);
    BelowFloorZero(es, ps);
    assert |top| <= |ps| && forall i :: 0 <= i < |top| ==> top[i] == es[i];
    if MissesAt(floors, actual) == 0 {
      PrefixCovers(top, ps, actual);
    }
    if Coverable(top, actual) {
      var chosen :| Covers(chosen, top, actual);
      assert Covers(chosen, top, ps);
      assert SortedBy(top, Descending);
      forall i | 0 <= i < |es| && i < |ps|
        ensures es[i] <= ps[i]
      {
        SortedPairingSuffices(top, ps, chosen, i);
      }
    }
  }

  /** With at least as many predictions as gold items, no miss under a signature exactly when every
      floor can be given a prediction of its own that meets it. */
  lemma NoMissIffCoverable(floors: seq<int>, actual: seq<int>)
    requires |floors| <= |actual|
    ensures MissesAt(floors, actual) == 0 <==> Coverable(floors, actual)
  {
    NoMissIffTopCoverable(floors, actual);
    var top := TopFloors(floors, |actual|);
    SortPermutes(floors, Descending);
    assert top == Sort(floors, Descending);
    if Coverable(floors, actual) {
      CoverableForgetsOrder(floors, top, actual);
    }
    if Coverable(top, actual) {
      CoverableForgetsOrder(top, floors, actual);
    }
  }

  /** The whole count is zero exactly when, under every shared signature, the floors that take part can be
      covered. */
  lemma NoMissesIffAllTopCoverable<S(!new)>(expected: seq<Rated<S>>, actual: seq<Rated<S>>)
    ensures TotalMisses(expected, actual) == 0
            <==> forall s :: s in Signatures(expected) * Signatures(actual)
                             ==> Coverable(TopFloors(Values(expected, s), |Values(actual, s)|), Values(actual, s))
  {
    hide Coverable, Values, TopFloors, MissesAt;
    var shared := Signatures(expected) * Signatures(actual);
    SumOverZero(shared, MissesPer(expected, actual));
    forall s | s in shared
      ensures MissesPer(expected, actual)(s) == 0
              <==> Coverable(TopFloors(Values(expected, s), |Values(actual, s)|), Values(actual, s))
    {
      NoMissIffTopCoverable(Values(expected, s), Values(actual, s));
    }
  }

  /** With enough predictions, exactly when all floors can be covered under every shared signature. */
  lemma NoMissesIffAllCoverable<S(!new)>(expected: seq<Rated<S>>, actual: seq<Rated<S>>)
    requires forall s :: s in Signatures(expected) * Signatures(actual)
                         ==> |Values(expected, s)| <= |Values(actual, s)|
    ensures TotalMisses(expected, actual) == 0
            <==> forall s :: s in Signatures(expected) * Signatures(actual)
                             ==> Coverable(Values(expected, s), Values(actual, s))
  {
    var shared := Signatures(expected) * Signatures(actual);
    SumOverZero(shared, MissesPer(expected, actual));
    forall s | s in shared
      ensures MissesPer(expected, actual)(s) == 0 <==> Coverable(Values(expected, s), Values(actual, s))
    {
      NoMissIffCoverable(Values(expected, s), Values(actual, s));
    }
  }

  // ---------- Independence of item order ----------

  lemma ValuesForgetOrder<S(!new)>(items: seq<Rated<S>>, rearranged: seq<Rated<S>>, s: S)
    requires multiset(items) == multiset(rearranged)
    ensures multiset(Values(items, s)) == multiset(Values(rearranged, s))
  {
    var a, b := Filter(items, HasSignature(s)), Filter(rearranged, HasSignature(s));
    forall x
      ensures multiset(a)[x] == multiset(b)[x]
    {
      FilterCount(items, HasSignature(s), x);
      FilterCount(rearranged, HasSignature(s), x);
    }
    MapForgetsOrder(ValueOf<S>(), a, b);
  }

  /** The count never depends on the order of gold items or predictions. */
  lemma MissesForgetOrder<S(!new)>(
      expected: seq<Rated<S>>, expected': seq<Rated<S>>, actual: seq<Rated<S>>, actual': seq<Rated<S>>)
    requires multiset(expected) == multiset(expected') && multiset(actual) == multiset(actual')
    ensures TotalMisses(expected, actual) == TotalMisses(expected', actual')
  {
    SameElements(expected, expected');
    SameElements(actual, actual');
    DescendingIsTotalOrder();
    forall s
      ensures MissesPer(expected, actual)(s) == MissesPer(expected', actual')(s)
    {
      ValuesForgetOrder(expected, expected', s);
      ValuesForgetOrder(actual, actual', s);
      SortForgetsOrder(Values(expected, s), Values(expected', s), Descending);
      SortForgetsOrder(Values(actual, s), Values(actual', s), Descending);
    }
    assert Signatures(expected) == Signatures(expected') && Signatures(actual) == Signatures(actual');
    SumOverSame(Signatures(expected) * Signatures(actual), MissesPer(expected, actual), MissesPer(expected', actual'));
  }

  lemma {:induction false} SumOverSame<S(!new)>(ss: set<S>, f: S -> nat, g: S -> nat)
    requires forall s :: f(s) == g(s)
    ensures SumOver(ss, f) == SumOver(ss, g)
    decreases ss
  {
    if ss != {} {
      var first :| first in ss && SumOver(ss, f) == f(first) + SumOver(ss - {first}, f);
      SumOverTake(ss, g, first);
      SumOverSame(ss - {first}, f, g);
    }
  }

  // ---------- What is counted ----------

  /** The positions at which the confidence is below the floor. */
  ghost function BelowAt(floors: seq<int>, actual: seq<int>): set<nat> {
    set i: nat | i < |floors| && i < |actual| && actual[i] < floors[i]
  }

  lemma {:induction false} BelowSnoc(floors: seq<int>, actual: seq<int>, f: int, a: int)
    requires |floors| == |actual|
    ensures BelowFloor(floors + [f], actual + [a]) == BelowFloor(floors, actual) + if a < f then 1 else 0
    decreases |floors|
  {
    if floors != [] {
      assert (floors + [f])[1..] == floors[1..] + [f] && (actual + [a])[1..] == actual[1..] + [a];
      BelowSnoc(floors[1..], actual[1..], f, a);
    } else {
      assert (floors + [f])[1..] == [] && (actual + [a])[1..] == [];
    }
  }

  /** What stands beyond the shorter list does not count. */
  lemma {:induction false} BelowCut(floors: seq<int>, actual: seq<int>, n: nat)
    requires n <= |floors| && n <= |actual| && (n == |floors| || n == |actual|)
    ensures BelowFloor(floors, actual) == BelowFloor(floors[..n], actual[..n])
    decreases n
  {
    if n > 0 {
      BelowCut(floors[1..], actual[1..], n - 1);
      assert floors[..n][1..] == floors[1..][..n - 1] && actual[..n][1..] == actual[1..][..n - 1];
    }
  }

  lemma BelowAtCut(floors: seq<int>, actual: seq<int>, n: nat)
    requires n <= |floors| && n <= |actual| && (n == |floors| || n == |actual|)
    ensures BelowAt(floors[..n], actual[..n]) == BelowAt(floors, actual)
  {
  }

  lemma BelowAtSnoc(floors: seq<int>, actual: seq<int>, f: int, a: int)
    requires |floors| == |actual|
    ensures |BelowAt(floors + [f], actual + [a])| == |BelowAt(floors, actual)| + if a < f then 1 else 0
  {
    var n := |floors|;
    assert BelowAt(floors + [f], actual + [a]) == BelowAt(floors, actual) + if a < f then {n} else {};
    assert n !in BelowAt(floors, actual);
  }

  lemma {:induction false} BelowFloorCounts(floors: seq<int>, actual: seq<int>)
    ensures BelowFloor(floors, actual) == |BelowAt(floors, actual)|
    decreases |floors| + |actual|
  {
    var n := if |floors| < |actual| then |floors| else |actual|;
    if n == 0 {
      assert BelowAt(floors, actual) == {};
    } else if |floors| != |actual| {
      hide BelowFloor;
      BelowCut(floors, actual, n);
      hide BelowAt;
      BelowFloorCounts(floors[..n], actual[..n]);
      BelowAtCut(floors, actual, n);
    } else {
      hide BelowFloor, BelowAt;
      var fs, ps := floors[..n - 1], actual[..n - 1];
      assert floors == fs + [floors[n - 1]] && actual == ps + [actual[n - 1]];
      BelowFloorCounts(fs, ps);
      BelowSnoc(fs, ps, floors[n - 1], actual[n - 1]);
      BelowAtSnoc(fs, ps, floors[n - 1], actual[n - 1]);
    }
  }

  /** The misses under one signature are the positions at which the predictions, from the highest down, are
      below the floors, from the highest down. */
  lemma MissesMean(floors: seq<int>, actual: seq<int>, fs: seq<int>, ps: seq<int>)
    requires multiset(fs) == multiset(floors) && forall i, j :: 0 <= i < j < |fs| ==> fs[i] >= fs[j]
    requires multiset(ps) == multiset(actual) && forall i, j :: 0 <= i < j < |ps| ==> ps[i] >= ps[j]
    ensures MissesAt(floors, actual) == |set i: nat | i < |fs| && i < |ps| && ps[i] < fs[i]|
  {
    hide BelowFloor, Sort;
    DescendingIsTotalOrder();
    SortedFacts(floors);
    SortedFacts(actual);
    SortedUnique(Sort(floors, Descending), fs, Descending);
    SortedUnique(Sort(actual, Descending), ps, Descending);
    BelowFloorCounts(fs, ps);
    assert BelowAt(fs, ps) == set i: nat | i < |fs| && i < |ps| && ps[i] < fs[i];
  }

  /** A value is listed under a signature as often as an item has both. */
  lemma {:induction false} ValuesMean<S(!new)>(items: seq<Rated<S>>, s: S, v: int)
    ensures multiset(Values(items, s))[v] == multiset(items)[Rated(s, v)]
    decreases |items|
  {
    hide Values;
    if items == [] {
      NoValues(items, s);
    } else {
      var init, last := items[..|items| - 1], items[|items| - 1];
      assert items == init + [last];
      ValuesMean(init, s, v);
      ValuesSnoc(init, last, s);
    }
  }
}
