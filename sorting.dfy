/**
 * `sort_orders`: a three-way-partition quicksort around the middle element,
 * written with list comprehensions, then a reversal for descending order.
 */
module Sorting {
  import opened Wrappers
  import opened Records
  import opened Text
  import opened Keys
  import opened Filters

  /** The key of a record whose key computes. */
  function Key(key: Record -> Option<real>, r: Record): real
    requires key(r).Some?
  {
    key(r).value
  }

  /** Every record's key computes (`get_key` does not raise on any of them). */
  predicate AllKeys(s: seq<Record>, key: Record -> Option<real>) {
    forall i :: 0 <= i < |s| ==> key(s[i]).Some?
  }

  predicate Ascending(s: seq<Record>, key: Record -> Option<real>)
    requires AllKeys(s, key)
  {
    forall i, j :: 0 <= i < j < |s| ==> Key(key, s[i]) <= Key(key, s[j])
  }

  predicate Descending(s: seq<Record>, key: Record -> Option<real>)
    requires AllKeys(s, key)
  {
    forall i, j :: 0 <= i < j < |s| ==> Key(key, s[i]) >= Key(key, s[j])
  }

  /** `list.reverse()` on a copy. */
  function Reverse(s: seq<Record>): (r: seq<Record>)
    ensures |r| == |s|
    ensures forall i :: 0 <= i < |s| ==> r[i] == s[|s| - 1 - i]
    decreases |s|
  {
    if s == [] then [] else Reverse(s[1..]) + [s[0]]
  }

  lemma ReverseKeepsMultiset(s: seq<Record>)
    ensures multiset(Reverse(s)) == multiset(s)
    decreases |s|
  {
    if s != [] {
      ReverseKeepsMultiset(s[1..]);
      assert s == [s[0]] + s[1..];
    }
  }

  /** The three parts of the partition around `p` together hold every record once. */
  lemma {:induction false} PartitionMultiset(s: seq<Record>, key: Record -> Option<real>, p: real)
    requires AllKeys(s, key)
    ensures multiset(Filter(s, KeyBelow(key, p))) + multiset(Filter(s, KeyEquals(key, p)))
      + multiset(Filter(s, KeyAbove(key, p))) == multiset(s)
    decreases |s|
  {
    if s != [] {
      var below, at, above := KeyBelow(key, p), KeyEquals(key, p), KeyAbove(key, p);
      var t := s[1..];
      assert AllKeys(t, key);
      PartitionMultiset(t, key, p);
      assert s == [s[0]] + t;
      var v := key(s[0]).value;
      assert Filter(s, below) == (if below(s[0]) then [s[0]] else []) + Filter(t, below);
      assert Filter(s, at) == (if at(s[0]) then [s[0]] else []) + Filter(t, at);
      assert Filter(s, above) == (if above(s[0]) then [s[0]] else []) + Filter(t, above);
      assert (if below(s[0]) then 1 else 0) + (if at(s[0]) then 1 else 0) + (if above(s[0]) then 1 else 0) == 1;
      ConsPartition(s[0], t, Filter(t, below), Filter(t, at), Filter(t, above), below(s[0]), at(s[0]), above(s[0]));
    }
  }

  lemma ConsPartition(x: Record, t: seq<Record>, b: seq<Record>, e: seq<Record>, a: seq<Record>,
                      inB: bool, inE: bool, inA: bool)
    requires (if inB then 1 else 0) + (if inE then 1 else 0) + (if inA then 1 else 0) == 1
    requires multiset(b) + multiset(e) + multiset(a) == multiset(t)
    ensures multiset((if inB then [x] else []) + b) + multiset((if inE then [x] else []) + e)
      + multiset((if inA then [x] else []) + a) == multiset([x] + t)
  {
  }

  lemma AscendingConcat(a: seq<Record>, m: seq<Record>, b: seq<Record>, key: Record -> Option<real>, p: real)
    requires AllKeys(a, key) && AllKeys(m, key) && AllKeys(b, key)
    requires Ascending(a, key) && Ascending(b, key)
    requires forall i :: 0 <= i < |a| ==> Key(key, a[i]) < p
    requires forall i :: 0 <= i < |m| ==> Key(key, m[i]) == p
    requires forall i :: 0 <= i < |b| ==> Key(key, b[i]) > p
    ensures AllKeys(a + m + b, key) && Ascending(a + m + b, key)
  {
    var s := a + m + b;
    assert forall i :: 0 <= i < |s| ==>
      s[i] == (if i < |a| then a[i] else if i < |a| + |m| then m[i - |a|] else b[i - |a| - |m|]);
  }

  /** The record at the pivot lies in neither outer part, so both are shorter than `s`. */
  lemma PartsShrink(s: seq<Record>, key: Record -> Option<real>, p: real)
    requires AllKeys(s, key) && s != [] && p == Key(key, s[|s| / 2])
    ensures |Filter(s, KeyBelow(key, p))| < |s| && |Filter(s, KeyAbove(key, p))| < |s|
  {
    assert !KeyBelow(key, p)(s[|s| / 2]) && !KeyAbove(key, p)(s[|s| / 2]);
    FilterKeepsAll(s, KeyBelow(key, p));
    FilterKeepsAll(s, KeyAbove(key, p));
  }

  /** `quick_sort`: records in non-decreasing key order, the same records as before. */
  function QuickSort(s: seq<Record>, key: Record -> Option<real>): (r: seq<Record>)
    requires AllKeys(s, key)
    ensures multiset(r) == multiset(s)
    ensures AllKeys(r, key) && Ascending(r, key)
    decreases |s|
  {
    if |s| <= 1 then s
    else
      var p := Key(key, s[|s| / 2]);
      var left, middle, right := Filter(s, KeyBelow(key, p)), Filter(s, KeyEquals(key, p)), Filter(s, KeyAbove(key, p));
      PartsShrink(s, key, p);
      FilterMembers(s, KeyBelow(key, p));
      FilterMembers(s, KeyAbove(key, p));
      assert AllKeys(left, key) && AllKeys(right, key) && AllKeys(middle, key) by {
        forall i | 0 <= i < |left| ensures key(left[i]).Some? { assert left[i] in left; }
        forall i | 0 <= i < |middle| ensures key(middle[i]).Some? { assert middle[i] in middle; }
        forall i | 0 <= i < |right| ensures key(right[i]).Some? { assert right[i] in right; }
      }
      var sl, sr := QuickSort(left, key), QuickSort(right, key);
      assert forall i :: 0 <= i < |sl| ==> Key(key, sl[i]) < p by {
        forall i | 0 <= i < |sl| ensures Key(key, sl[i]) < p {
          assert sl[i] in multiset(sl);
          assert sl[i] in left;
        }
      }
      assert forall i :: 0 <= i < |middle| ==> Key(key, middle[i]) == p by {
        forall i | 0 <= i < |middle| ensures Key(key, middle[i]) == p { assert middle[i] in middle; }
      }
      assert forall i :: 0 <= i < |sr| ==> Key(key, sr[i]) > p by {
        forall i | 0 <= i < |sr| ensures Key(key, sr[i]) > p {
          assert sr[i] in multiset(sr);
          assert sr[i] in right;
        }
      }
      AscendingConcat(sl, middle, sr, key, p);
      PartitionMultiset(s, key, p);
      sl + middle + sr
  }

  /** Every record of a sorted result comes from the input. */
  lemma QuickSortMembers(s: seq<Record>, key: Record -> Option<real>, x: Record)
    requires AllKeys(s, key)
    ensures x in QuickSort(s, key) <==> x in s
  {
    assert x in QuickSort(s, key) <==> x in multiset(QuickSort(s, key));
    assert x in s <==> x in multiset(s);
  }

  /** The records of a sorted part lie on one side of the pivot, so none has key `k` beyond it. */
  lemma SortedPartMisses(part: seq<Record>, key: Record -> Option<real>, side: Record -> bool, k: real)
    requires AllKeys(part, key)
    requires forall x :: side(x) ==> !KeyEquals(key, k)(x)
    requires forall i :: 0 <= i < |part| ==> side(part[i])
    ensures Filter(QuickSort(part, key), KeyEquals(key, k)) == []
  {
    var sorted := QuickSort(part, key);
    forall i | 0 <= i < |sorted|
      ensures !KeyEquals(key, k)(sorted[i])
    {
      QuickSortMembers(part, key, sorted[i]);
    }
    FilterNone(sorted, KeyEquals(key, k));
  }

  lemma PartsHaveKeys(s: seq<Record>, key: Record -> Option<real>, p: real)
    requires AllKeys(s, key)
    ensures AllKeys(Filter(s, KeyBelow(key, p)), key) && AllKeys(Filter(s, KeyAbove(key, p)), key)
    ensures forall i :: 0 <= i < |Filter(s, KeyBelow(key, p))| ==> KeyBelow(key, p)(Filter(s, KeyBelow(key, p))[i])
    ensures forall i :: 0 <= i < |Filter(s, KeyAbove(key, p))| ==> KeyAbove(key, p)(Filter(s, KeyAbove(key, p))[i])
  {
    var left, right := Filter(s, KeyBelow(key, p)), Filter(s, KeyAbove(key, p));
    forall i | 0 <= i < |left| ensures KeyBelow(key, p)(left[i]) { assert left[i] in left; }
    forall i | 0 <= i < |right| ensures KeyAbove(key, p)(right[i]) { assert right[i] in right; }
  }

  /** How the equal-to-`k` criterion sits against the three parts around `p`. */
  lemma KeyCriteria(key: Record -> Option<real>, p: real, k: real)
    ensures k < p ==> forall x :: KeyEquals(key, k)(x) ==> KeyBelow(key, p)(x)
    ensures k >= p ==> forall x :: KeyBelow(key, p)(x) ==> !KeyEquals(key, k)(x)
    ensures k != p ==> forall x :: KeyEquals(key, p)(x) ==> !KeyEquals(key, k)(x)
    ensures k > p ==> forall x :: KeyEquals(key, k)(x) ==> KeyAbove(key, p)(x)
    ensures k <= p ==> forall x :: KeyAbove(key, p)(x) ==> !KeyEquals(key, k)(x)
  {
  }

  /** The pivot `quick_sort` picks: the key of the middle record. */
  function Pivot(s: seq<Record>, key: Record -> Option<real>): real
    requires AllKeys(s, key) && s != []
  {
    Key(key, s[|s| / 2])
  }

  /** Among the records with key `k`, the sorted result is its three parts' records in turn. */
  lemma SplitTies(s: seq<Record>, key: Record -> Option<real>, k: real)
    requires AllKeys(s, key) && |s| > 1
    ensures var p := Pivot(s, key);
      Filter(QuickSort(s, key), KeyEquals(key, k)) ==
        Filter(QuickSort(Filter(s, KeyBelow(key, p)), key), KeyEquals(key, k))
        + Filter(Filter(s, KeyEquals(key, p)), KeyEquals(key, k))
        + Filter(QuickSort(Filter(s, KeyAbove(key, p)), key), KeyEquals(key, k))
  {
    var p := Pivot(s, key);
    PartsHaveKeys(s, key, p);
    var sl, middle, sr := QuickSort(Filter(s, KeyBelow(key, p)), key), Filter(s, KeyEquals(key, p)),
      QuickSort(Filter(s, KeyAbove(key, p)), key);
    assert QuickSort(s, key) == sl + middle + sr;
    FilterAppend(sl + middle, sr, KeyEquals(key, k));
    FilterAppend(sl, middle, KeyEquals(key, k));
  }

  /** Ties below the pivot: only the sorted left part holds them. */
  lemma StableBelow(s: seq<Record>, key: Record -> Option<real>, k: real)
    requires AllKeys(s, key) && |s| > 1 && k < Pivot(s, key)
    requires var left := Filter(s, KeyBelow(key, Pivot(s, key)));
      Filter(QuickSort(left, key), KeyEquals(key, k)) == Filter(left, KeyEquals(key, k))
    ensures Filter(QuickSort(s, key), KeyEquals(key, k)) == Filter(s, KeyEquals(key, k))
  {
    var p := Pivot(s, key);
    SplitTies(s, key, k);
    KeyCriteria(key, p, k);
    FilterNarrow(s, KeyBelow(key, p), KeyEquals(key, k));
    FilterDisjoint(s, KeyEquals(key, p), KeyEquals(key, k));
    SortedPartMisses(Filter(s, KeyAbove(key, p)), key, KeyAbove(key, p), k);
  }

  /** Ties at the pivot: only the middle part holds them, in input order. */
  lemma StableAt(s: seq<Record>, key: Record -> Option<real>)
    requires AllKeys(s, key) && |s| > 1
    ensures var k := Pivot(s, key);
      Filter(QuickSort(s, key), KeyEquals(key, k)) == Filter(s, KeyEquals(key, k))
  {
    var p := Pivot(s, key);
    SplitTies(s, key, p);
    KeyCriteria(key, p, p);
    SortedPartMisses(Filter(s, KeyBelow(key, p)), key, KeyBelow(key, p), p);
    FilterIdempotent(s, KeyEquals(key, p));
    SortedPartMisses(Filter(s, KeyAbove(key, p)), key, KeyAbove(key, p), p);
  }

  /** Ties above the pivot: only the sorted right part holds them. */
  lemma StableAbove(s: seq<Record>, key: Record -> Option<real>, k: real)
    requires AllKeys(s, key) && |s| > 1 && k > Pivot(s, key)
    requires var right := Filter(s, KeyAbove(key, Pivot(s, key)));
      Filter(QuickSort(right, key), KeyEquals(key, k)) == Filter(right, KeyEquals(key, k))
    ensures Filter(QuickSort(s, key), KeyEquals(key, k)) == Filter(s, KeyEquals(key, k))
  {
    var p := Pivot(s, key);
    SplitTies(s, key, k);
    KeyCriteria(key, p, k);
    SortedPartMisses(Filter(s, KeyBelow(key, p)), key, KeyBelow(key, p), k);
    FilterDisjoint(s, KeyEquals(key, p), KeyEquals(key, k));
    FilterNarrow(s, KeyAbove(key, p), KeyEquals(key, k));
  }

  /**
   * Stability: the records sharing any one key come out in the order they
   * had in the input.
   */
  lemma {:induction false} QuickSortStable(s: seq<Record>, key: Record -> Option<real>, k: real)
    requires AllKeys(s, key)
    ensures Filter(QuickSort(s, key), KeyEquals(key, k)) == Filter(s, KeyEquals(key, k))
    decreases |s|
  {
    if |s| > 1 {
      var p := Pivot(s, key);
      PartsShrink(s, key, p);
      if k < p {
        QuickSortStable(Filter(s, KeyBelow(key, p)), key, k);
        StableBelow(s, key, k);
      } else if k == p {
        StableAt(s, key);
      } else {
        QuickSortStable(Filter(s, KeyAbove(key, p)), key, k);
        StableAbove(s, key, k);
      }
    }
  }

  lemma ReverseDescending(s: seq<Record>, key: Record -> Option<real>)
    requires AllKeys(s, key) && Ascending(s, key)
    ensures AllKeys(Reverse(s), key) && Descending(Reverse(s), key)
  {
  }

  /** `get_key` for a `sort_by` value. */
  function KeyOf(sortBy: string): Record -> Option<real> {
    r => KeyValue(SortKeyOf(sortBy), r)
  }

  /** `sort_orders`: None where computing some key raises ValueError. */
  function SortOrders(data: seq<Record>, sortBy: string, ascending: bool): (r: Option<seq<Record>>)
    ensures r.None? <==> |data| > 1 && !AllKeys(data, KeyOf(sortBy))
    ensures r.Some? ==> multiset(r.value) == multiset(data)
    ensures r.Some? && |data| > 1 ==>
      AllKeys(r.value, KeyOf(sortBy)) &&
      (if ascending then Ascending(r.value, KeyOf(sortBy)) else Descending(r.value, KeyOf(sortBy)))
  {
    var key := KeyOf(sortBy);
    if |data| <= 1 then Some(data)
    else if !AllKeys(data, key) then None
    else
      var sorted := QuickSort(data, key);
      ReverseKeepsMultiset(sorted);
      ReverseDescending(sorted, key);
      Some(if ascending then sorted else Reverse(sorted))
  }

  lemma {:induction false} FilterReverse(s: seq<Record>, keep: Record -> bool)
    ensures Filter(Reverse(s), keep) == Reverse(Filter(s, keep))
    decreases |s|
  {
    if s != [] {
      FilterReverse(s[1..], keep);
      FilterAppend(Reverse(s[1..]), [s[0]], keep);
      if keep(s[0]) {
        assert ([s[0]] + Filter(s[1..], keep))[1..] == Filter(s[1..], keep);
      }
    }
  }

  /** Descending order is the ascending result reversed, ties included. */
  lemma DescendingIsReverse(data: seq<Record>, sortBy: string)
    ensures SortOrders(data, sortBy, false) ==
      match SortOrders(data, sortBy, true) case None => None case Some(a) => Some(Reverse(a))
  {
    if |data| <= 1 {
      assert Reverse(data) == data;
    }
  }

  /**
   * Records sharing a key keep their input order when ascending and come out
   * in reversed input order when descending.
   */
  lemma SortOrdersTies(data: seq<Record>, sortBy: string, ascending: bool, k: real)
    requires SortOrders(data, sortBy, ascending).Some? && |data| > 1
    ensures var eq := KeyEquals(KeyOf(sortBy), k);
      Filter(SortOrders(data, sortBy, ascending).value, eq)
        == if ascending then Filter(data, eq) else Reverse(Filter(data, eq))
  {
    var key := KeyOf(sortBy);
    QuickSortStable(data, key, k);
    if !ascending {
      FilterReverse(QuickSort(data, key), KeyEquals(key, k));
    }
  }

  /** Three records with distinct keys have exactly one ascending order. */
  lemma SortedThree(s: seq<Record>, key: Record -> Option<real>, a: Record, b: Record, c: Record)
    requires multiset(s) == multiset([a, b, c]) && AllKeys(s, key) && Ascending(s, key)
    requires key(a).Some? && key(b).Some? && key(c).Some?
    requires Key(key, a) < Key(key, b) < Key(key, c)
    ensures s == [a, b, c]
  {
    assert |s| == 3 by {
      assert |multiset(s)| == |s|;
    }
    forall i | 0 <= i < 3
      ensures s[i] == a || s[i] == b || s[i] == c
    {
      assert s[i] in multiset(s);
    }
    assert a in multiset(s) && b in multiset(s) && c in multiset(s);
    assert s[0] == a;
    assert s[2] == c;
  }

  /** Three records with distinct keys sort to the one ascending order. */
  lemma SortThreeUp(data: seq<Record>, sortBy: string, a: Record, b: Record, c: Record)
    requires multiset(data) == multiset([a, b, c])
    requires KeyOf(sortBy)(a).Some? && KeyOf(sortBy)(b).Some? && KeyOf(sortBy)(c).Some?
    requires Key(KeyOf(sortBy), a) < Key(KeyOf(sortBy), b) < Key(KeyOf(sortBy), c)
    ensures SortOrders(data, sortBy, true) == Some([a, b, c])
  {
    ThreeKeys(data, KeyOf(sortBy), a, b, c);
    var up := SortOrders(data, sortBy, true);
    SortedThree(up.value, KeyOf(sortBy), a, b, c);
  }

  /** ... and descending, to its reverse. */
  lemma SortThree(data: seq<Record>, sortBy: string, a: Record, b: Record, c: Record)
    requires multiset(data) == multiset([a, b, c])
    requires KeyOf(sortBy)(a).Some? && KeyOf(sortBy)(b).Some? && KeyOf(sortBy)(c).Some?
    requires Key(KeyOf(sortBy), a) < Key(KeyOf(sortBy), b) < Key(KeyOf(sortBy), c)
    ensures SortOrders(data, sortBy, true) == Some([a, b, c])
    ensures SortOrders(data, sortBy, false) == Some([c, b, a])
  {
    SortThreeUp(data, sortBy, a, b, c);
    DescendingIsReverse(data, sortBy);
    ReverseThree(a, b, c);
  }

  lemma ReverseThree(a: Record, b: Record, c: Record)
    ensures Reverse([a, b, c]) == [c, b, a]
  {
    assert [a, b, c][1..] == [b, c];
    assert [b, c][1..] == [c];
  }

  lemma ThreeKeys(data: seq<Record>, key: Record -> Option<real>, a: Record, b: Record, c: Record)
    requires multiset(data) == multiset([a, b, c])
    requires key(a).Some? && key(b).Some? && key(c).Some?
    ensures |data| == 3 && AllKeys(data, key)
  {
    assert |multiset(data)| == |data|;
    forall i | 0 <= i < |data|
      ensures key(data[i]).Some?
    {
      assert data[i] in multiset(data);
    }
  }

  /** The amounts 300.00, 100.00 and 200.00 key as 300, 100 and 200. */
  lemma AmountKeysExample(o1: Record, o2: Record, o3: Record)
    requires o1.Order? && o2.Order? && o3.Order?
    requires o1.totalAmount == "300.00" && o2.totalAmount == "100.00" && o3.totalAmount == "200.00"
    ensures KeyOf("amount")(o1) == Some(300.0)
    ensures KeyOf("amount")(o2) == Some(100.0)
    ensures KeyOf("amount")(o3) == Some(200.0)
  {
    CentsExample();
    assert SortKeyOf("amount") == ByAmount;
    CentsAmountKey(o1, 30000);
    CentsAmountKey(o2, 10000);
    CentsAmountKey(o3, 20000);
  }

  /**
   * Orders of 300.00, 100.00 and 200.00 (ids 1, 2, 3) sorted by amount come
   * out as 2, 3, 1 ascending and 1, 3, 2 descending.
   */
  lemma SortByAmountExample(o1: Record, o2: Record, o3: Record)
    requires o1.Order? && o2.Order? && o3.Order?
    requires o1.totalAmount == "300.00" && o2.totalAmount == "100.00" && o3.totalAmount == "200.00"
    ensures SortOrders([o1, o2, o3], "amount", true) == Some([o2, o3, o1])
    ensures SortOrders([o1, o2, o3], "amount", false) == Some([o1, o3, o2])
  {
    AmountKeysExample(o1, o2, o3);
    assert multiset([o1, o2, o3]) == multiset([o2, o3, o1]);
    SortThree([o1, o2, o3], "amount", o2, o3, o1);
  }
}
