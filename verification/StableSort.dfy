/** The standard library's stable sort, as the rest of the model uses it: what `sort_by` and Python's
    `sorted` promise (a sorted permutation that keeps equal elements in order), proved of an
    insertion sort. `le(a, b)` says that `a` may stand before `b`. */
module StableSort {

  ghost predicate TotalPreorder<T(!new)>(le: (T, T) -> bool) {
    && (forall a, b :: le(a, b) || le(b, a))
    && (forall a, b, c :: le(a, b) && le(b, c) ==> le(a, c))
  }

  ghost predicate TotalOrder<T(!new)>(le: (T, T) -> bool) {
    TotalPreorder(le) && forall a, b :: le(a, b) && le(b, a) ==> a == b
  }

  ghost predicate SortedBy<T>(s: seq<T>, le: (T, T) -> bool) {
    forall i, j :: 0 <= i < j < |s| ==> le(s[i], s[j])
  }

  /** Put `x` behind every element that may stand before it. */
  function Insert<T>(s: seq<T>, x: T, le: (T, T) -> bool): seq<T> {
    if s == [] || le(s[|s| - 1], x) then s + [x]
    else Insert(s[..|s| - 1], x, le) + [s[|s| - 1]]
  }

  function Sort<T>(s: seq<T>, le: (T, T) -> bool): seq<T> {
    if s == [] then [] else Insert(Sort(s[..|s| - 1], le), s[|s| - 1], le)
  }

  function Filter<T>(s: seq<T>, keep: T -> bool): seq<T> {
    if s == [] then []
    else Filter(s[..|s| - 1], keep) + if keep(s[|s| - 1]) then [s[|s| - 1]] else []
  }

  lemma InsertPasses<T>(s: seq<T>, last: T, x: T, le: (T, T) -> bool)
    requires !le(last, x)
    ensures Insert(s + [last], x, le) == Insert(s, x, le) + [last]
  {
    assert (s + [last])[..|s|] == s;
  }

  lemma InsertStays<T>(s: seq<T>, x: T, le: (T, T) -> bool)
    requires s == [] || le(s[|s| - 1], x)
    ensures Insert(s, x, le) == s + [x]
  {
  }

  lemma {:induction false} InsertPermutes<T>(s: seq<T>, x: T, le: (T, T) -> bool)
    ensures multiset(Insert(s, x, le)) == multiset(s) + multiset{x}
    decreases |s|
  {
    hide Insert;
    if s == [] || le(s[|s| - 1], x) {
      InsertStays(s, x, le);
    } else {
      var init, last := s[..|s| - 1], s[|s| - 1];
      assert s == init + [last];
      InsertPasses(init, last, x, le);
      InsertPermutes(init, x, le);
    }
  }

  lemma {:induction false} SortPermutes<T>(s: seq<T>, le: (T, T) -> bool)
    ensures multiset(Sort(s, le)) == multiset(s)
    ensures |Sort(s, le)| == |s|
    decreases |s|
  {
    if s != [] {
      SortPermutes(s[..|s| - 1], le);
      InsertPermutes(Sort(s[..|s| - 1], le), s[|s| - 1], le);
      assert s == s[..|s| - 1] + [s[|s| - 1]];
    }
    assert |Sort(s, le)| == |multiset(Sort(s, le))| == |multiset(s)| == |s|;
  }

  lemma SameElements<T(!new)>(s: seq<T>, t: seq<T>)
    requires multiset(s) == multiset(t)
    ensures forall x :: x in s <==> x in t
  {
    forall x
      ensures x in s <==> x in t
    {
      assert x in s <==> x in multiset(s);
      assert x in t <==> x in multiset(t);
    }
  }

  lemma SortMembers<T(!new)>(s: seq<T>, le: (T, T) -> bool)
    ensures forall x :: x in Sort(s, le) <==> x in s
  {
    SortPermutes(s, le);
    SameElements(Sort(s, le), s);
  }

  lemma {:induction false} InsertSorted<T(!new)>(s: seq<T>, x: T, le: (T, T) -> bool)
    requires TotalPreorder(le) && SortedBy(s, le)
    ensures SortedBy(Insert(s, x, le), le)
    decreases |s|
  {
    if s == [] {
    } else if le(s[|s| - 1], x) {
      forall i | 0 <= i < |s|
        ensures le(s[i], x)
      {
        assert le(s[i], s[|s| - 1]);
      }
    } else {
      var init := s[..|s| - 1];
      InsertSorted(init, x, le);
      var r := Insert(init, x, le);
      forall y | y in r
        ensures le(y, s[|s| - 1])
      {
        InsertPermutes(init, x, le);
        SameElements(r, init + [x]);
        assert y in init + [x];
        if y != x {
          assert y in init;
        }
      }
      forall i | 0 <= i < |r|
        ensures le(r[i], s[|s| - 1])
      {
        assert r[i] in r;
      }
    }
  }

  lemma {:induction false} SortSorts<T(!new)>(s: seq<T>, le: (T, T) -> bool)
    requires TotalPreorder(le)
    ensures SortedBy(Sort(s, le), le)
    decreases |s|
  {
    if s != [] {
      SortSorts(s[..|s| - 1], le);
      InsertSorted(Sort(s[..|s| - 1], le), s[|s| - 1], le);
    }
  }

  /** `keep` selects elements that all tie with one another. */
  ghost predicate OneTie<T(!new)>(keep: T -> bool, le: (T, T) -> bool) {
    forall a, b :: keep(a) && keep(b) ==> le(a, b)
  }

  lemma {:induction false} FilterMember<T(!new)>(s: seq<T>, keep: T -> bool, x: T)
    ensures x in Filter(s, keep) <==> x in s && keep(x)
    decreases |s|
  {
    if s != [] {
      assert s == s[..|s| - 1] + [s[|s| - 1]];
      FilterMember(s[..|s| - 1], keep, x);
    }
  }

  lemma {:induction false} FilterCount<T>(s: seq<T>, keep: T -> bool, x: T)
    ensures multiset(Filter(s, keep))[x] == if keep(x) then multiset(s)[x] else 0
    decreases |s|
  {
    if s != [] {
      assert s == s[..|s| - 1] + [s[|s| - 1]];
      FilterCount(s[..|s| - 1], keep, x);
    }
  }

  lemma FilterSnoc<T(!new)>(s: seq<T>, x: T, keep: T -> bool)
    ensures Filter(s + [x], keep) == Filter(s, keep) + if keep(x) then [x] else []
  {
    assert (s + [x])[..|s|] == s;
  }

  /** The first element kept is the first one that may be. */
  lemma {:induction false} FirstKept<T>(s: seq<T>, keep: T -> bool) returns (i: nat)
    requires Filter(s, keep) != []
    ensures i < |s| && Filter(s, keep)[0] == s[i] && keep(s[i]) && forall j :: 0 <= j < i ==> !keep(s[j])
    decreases |s|
  {
    var init, last := s[..|s| - 1], s[|s| - 1];
    if Filter(init, keep) != [] {
      i := FirstKept(init, keep);
    } else {
      i := |s| - 1;
      NothingKept(init, keep);
    }
  }

  lemma {:induction false} NothingKept<T>(s: seq<T>, keep: T -> bool)
    requires Filter(s, keep) == []
    ensures forall j :: 0 <= j < |s| ==> !keep(s[j])
    decreases |s|
  {
    if s != [] {
      NothingKept(s[..|s| - 1], keep);
    }
  }

  lemma {:induction false} FilterSame<T>(s: seq<T>, keep: T -> bool, also: T -> bool)
    requires forall i :: 0 <= i < |s| ==> keep(s[i]) == also(s[i])
    ensures Filter(s, keep) == Filter(s, also)
    decreases |s|
  {
    if s != [] {
      FilterSame(s[..|s| - 1], keep, also);
    }
  }

  lemma {:induction false} FilterConcat<T>(s: seq<T>, t: seq<T>, keep: T -> bool)
    ensures Filter(s + t, keep) == Filter(s, keep) + Filter(t, keep)
    decreases |t|
  {
    if t == [] {
      assert s + t == s;
    } else {
      assert (s + t)[..|s + t| - 1] == s + t[..|t| - 1];
      FilterConcat(s, t[..|t| - 1], keep);
    }
  }

  lemma {:induction false} InsertStable<T(!new)>(s: seq<T>, x: T, le: (T, T) -> bool, keep: T -> bool)
    requires OneTie(keep, le)
    ensures Filter(Insert(s, x, le), keep) == Filter(s, keep) + if keep(x) then [x] else []
    decreases |s|
  {
    if s == [] || le(s[|s| - 1], x) {
      FilterSnoc(s, x, keep);
    } else {
      var init, last := s[..|s| - 1], s[|s| - 1];
      InsertStable(init, x, le, keep);
      assert s == init + [last];
      assert !(keep(last) && keep(x));
      calc {
        Filter(Insert(s, x, le), keep);
        Filter(Insert(init, x, le) + [last], keep);
        { FilterSnoc(Insert(init, x, le), last, keep); }
        Filter(Insert(init, x, le), keep) + if keep(last) then [last] else [];
        Filter(init, keep) + (if keep(x) then [x] else []) + if keep(last) then [last] else [];
        Filter(init, keep) + (if keep(last) then [last] else []) + if keep(x) then [x] else [];
        { FilterSnoc(init, last, keep); }
        Filter(s, keep) + if keep(x) then [x] else [];
      }
    }
  }

  /** Sorting keeps elements that tie in their original order. */
  lemma {:induction false} SortStable<T(!new)>(s: seq<T>, le: (T, T) -> bool, keep: T -> bool)
    requires OneTie(keep, le)
    ensures Filter(Sort(s, le), keep) == Filter(s, keep)
    decreases |s|
  {
    if s != [] {
      SortStable(s[..|s| - 1], le, keep);
      InsertStable(Sort(s[..|s| - 1], le), s[|s| - 1], le, keep);
    }
  }

  /** Taking the same element out of two equal multisets. */
  lemma SameRest<T>(x: T, s: seq<T>, before: seq<T>, after: seq<T>)
    requires multiset([x] + s) == multiset(before + [x] + after)
    ensures multiset(s) == multiset(before + after)
  {
    assert multiset(s) == multiset([x] + s) - multiset{x};
    assert multiset(before + after) == multiset(before + [x] + after) - multiset{x};
  }

  /** Taking the head of `s` out of a rearrangement `t` leaves rearrangements. */
  lemma TakeOut<T>(s: seq<T>, t: seq<T>) returns (before: seq<T>, after: seq<T>)
    requires multiset(s) == multiset(t) && s != []
    ensures t == before + [s[0]] + after
    ensures multiset(s[1..]) == multiset(before + after)
  {
    assert s[0] in multiset(s);
    var j :| 0 <= j < |t| && t[j] == s[0];
    before, after := t[..j], t[j + 1..];
    assert s == [s[0]] + s[1..] && t == before + [s[0]] + after;
    SameRest(s[0], s[1..], before, after);
  }

  lemma SameTail<T>(x: T, s: seq<T>, t: seq<T>)
    requires multiset([x] + s) == multiset([x] + t)
    ensures multiset(s) == multiset(t)
  {
    assert [] + [x] + t == [x] + t && [] + t == t;
    SameRest(x, s, [], t);
  }

  lemma SameLength<T>(s: seq<T>, t: seq<T>)
    requires multiset(s) == multiset(t)
    ensures |s| == |t|
  {
    assert |s| == |multiset(s)| == |multiset(t)| == |t|;
  }

  lemma SortedHeads<T(!new)>(s: seq<T>, t: seq<T>, le: (T, T) -> bool)
    requires TotalOrder(le) && SortedBy(s, le) && SortedBy(t, le)
    requires multiset(s) == multiset(t) && s != [] && t != []
    ensures s[0] == t[0]
  {
    SameElements(s, t);
    assert s[0] in s && t[0] in t;
    var i :| 0 <= i < |t| && t[i] == s[0];
    var j :| 0 <= j < |s| && s[j] == t[0];
    assert i > 0 ==> le(t[0], s[0]);
    assert j > 0 ==> le(s[0], t[0]);
  }

  /** Under an antisymmetric order a sorted arrangement is determined by its elements. */
  lemma {:induction false} SortedUnique<T(!new)>(s: seq<T>, t: seq<T>, le: (T, T) -> bool)
    requires TotalOrder(le) && SortedBy(s, le) && SortedBy(t, le)
    requires multiset(s) == multiset(t)
    ensures s == t
    decreases |s|
  {
    hide TotalOrder;
    SameLength(s, t);
    if s != [] {
      SortedHeads(s, t, le);
      var x, s', t' := s[0], s[1..], t[1..];
      assert s == [x] + s';
      assert t == [x] + t';
      SameTail(x, s', t');
      SortedUnique(s', t', le);
    }
  }

  /** So sorting forgets the order of its input. */
  lemma SortForgetsOrder<T(!new)>(s: seq<T>, t: seq<T>, le: (T, T) -> bool)
    requires TotalOrder(le) && multiset(s) == multiset(t)
    ensures Sort(s, le) == Sort(t, le)
  {
    SortSorts(s, le);
    SortSorts(t, le);
    SortPermutes(s, le);
    SortPermutes(t, le);
    SortedUnique(Sort(s, le), Sort(t, le), le);
  }

  lemma SortSnoc<T>(s: seq<T>, x: T, le: (T, T) -> bool)
    ensures Sort(s + [x], le) == Insert(Sort(s, le), x, le)
  {
    assert (s + [x])[..|s|] == s;
  }

  /** `block` ties within itself and stands strictly in front of everything in `rest`. */
  ghost predicate InFront<T(!new)>(block: seq<T>, rest: seq<T>, le: (T, T) -> bool) {
    && (forall x, y :: x in block && y in block ==> le(x, y))
    && (forall x, y :: x in rest && y in block ==> !le(x, y))
  }

  /** Elements arriving as a block that stands strictly in front of everything already seen end up in
      front, in arrival order. */
  lemma {:induction false} SortFrontBlock<T(!new)>(s: seq<T>, block: seq<T>, le: (T, T) -> bool)
    requires InFront(block, s, le)
    ensures Sort(s + block, le) == block + Sort(s, le)
    decreases |block|
  {
    hide Sort, Insert;
    if block == [] {
      assert s + block == s;
    } else {
      var init, last := block[..|block| - 1], block[|block| - 1];
      var sorted := Sort(s, le);
      assert forall y :: y in init ==> y in block;
      SortFrontBlock(s, init, le);
      assert InFront([last], sorted, le) by {
        SortMembers(s, le);
        assert last in block;
      }
      calc {
        Sort(s + block, le);
        { assert s + block == s + init + [last]; }
        Sort(s + init + [last], le);
        { SortSnoc(s + init, last, le); }
        Insert(init + sorted, last, le);
        { InsertBehindBlock(init, sorted, last, le); }
        init + [last] + sorted;
        { assert init + [last] == block; }
        block + sorted;
      }
    }
  }

  lemma {:induction false} InsertBehindBlock<T(!new)>(block: seq<T>, rest: seq<T>, x: T, le: (T, T) -> bool)
    requires forall y :: y in block ==> le(y, x)
    requires InFront([x], rest, le)
    ensures Insert(block + rest, x, le) == block + [x] + rest
    decreases |rest|
  {
    if rest == [] {
      assert block + rest == block;
      if block != [] {
        assert block[|block| - 1] in block;
      }
    } else {
      var init, last := rest[..|rest| - 1], rest[|rest| - 1];
      assert !le(last, x) by {
        assert last in rest && x in [x];
      }
      assert InFront([x], init, le) by {
        assert forall y :: y in init ==> y in rest;
      }
      hide InFront;
      InsertBehindBlock(block, init, x, le);
      calc {
        Insert(block + rest, x, le);
        { assert block + rest == block + init + [last]; InsertPasses(block + init, last, x, le); }
        Insert(block + init, x, le) + [last];
        block + [x] + init + [last];
        { assert rest == init + [last]; }
        block + [x] + rest;
      }
    }
  }

  // ---------- Mapping ----------

  function Map<T, U>(f: T --> U, s: seq<T>): seq<U>
    requires forall x :: x in s ==> f.requires(x)
  {
    if s == [] then []
    else
      assert s[0] in s;
      [f(s[0])] + Map(f, s[1..])
  }

  lemma {:induction false} MapConcat<T, U>(f: T --> U, s: seq<T>, t: seq<T>)
    requires forall x :: x in s + t ==> f.requires(x)
    ensures (forall x :: x in s ==> f.requires(x)) && (forall x :: x in t ==> f.requires(x))
    ensures Map(f, s + t) == Map(f, s) + Map(f, t)
    decreases |s|
  {
    assert forall x :: x in s || x in t ==> x in s + t;
    if s == [] {
      assert s + t == t;
    } else {
      assert (s + t)[1..] == s[1..] + t;
      MapConcat(f, s[1..], t);
    }
  }

  lemma {:induction false} MapForgetsOrder<T(!new), U>(f: T --> U, s: seq<T>, t: seq<T>)
    requires multiset(s) == multiset(t)
    requires forall x :: x in s || x in t ==> f.requires(x)
    ensures multiset(Map(f, s)) == multiset(Map(f, t))
    decreases |s|
  {
    if s == [] {
      assert |t| == |multiset(t)| == 0;
    } else {
      var x := s[0];
      assert s == [x] + s[1..];
      var before, after := TakeOut(s, t);
      assert forall y :: y in before + after ==> y in t;
      MapForgetsOrder(f, s[1..], before + after);
      MapMiddle(f, before, x, after);
    }
  }

  lemma MapMiddle<T, U>(f: T --> U, before: seq<T>, x: T, after: seq<T>)
    requires forall y :: y in before + [x] + after ==> f.requires(y)
    ensures f.requires(x) && forall y :: y in before + after ==> f.requires(y)
    ensures multiset(Map(f, before + [x] + after)) == multiset{f(x)} + multiset(Map(f, before + after))
  {
    assert forall y :: y in before || y == x || y in after ==> y in before + [x] + after;
    MapConcat(f, before + [x], after);
    MapConcat(f, before, [x]);
    MapConcat(f, before, after);
  }
}
