/**
 * The list comprehensions of the stores, `[x for x in data if cond(x)]`,
 * as one order-preserving filter, and the conditions they use.
 */
module Filters {
  import opened Wrappers
  import opened Text
  import opened Records

  /** `q` occurs in one of the five lowercased text fields of a customer. */
  predicate CustomerMatches(q: string, r: Record) {
    r.Customer? &&
    (Contains(Lower(r.lastName), q) || Contains(Lower(r.firstName), q) || Contains(Lower(r.middleName), q)
     || Contains(Lower(r.phone), q) || Contains(Lower(r.email), q))
  }

  /** `q` occurs in the lowercased name or unit of a product. */
  predicate ProductMatches(q: string, r: Record) {
    r.Product? && (Contains(Lower(r.name), q) || Contains(Lower(r.unit), q))
  }

  /** The comprehension conditions of the stores, as values to filter by. */
  function CustomerQuery(q: string): Record -> bool {
    r => CustomerMatches(q, r)
  }

  function ProductQuery(q: string): Record -> bool {
    r => ProductMatches(q, r)
  }

  /** An order item of this order. */
  function OfOrder(orderId: string): Record -> bool {
    (r: Record) => r.OrderItem? && r.orderId == orderId
  }

  /** quick_sort's `left`, `middle` and `right`. */
  function KeyBelow(key: Record -> Option<real>, pivot: real): Record -> bool {
    r => key(r).Some? && key(r).value < pivot
  }

  function KeyEquals(key: Record -> Option<real>, pivot: real): Record -> bool {
    r => key(r).Some? && key(r).value == pivot
  }

  function KeyAbove(key: Record -> Option<real>, pivot: real): Record -> bool {
    r => key(r).Some? && key(r).value > pivot
  }

  /** The records of `s` that satisfy `keep`, in their order in `s`. */
  function Filter(s: seq<Record>, keep: Record -> bool): (r: seq<Record>)
    ensures |r| <= |s|
    ensures forall i :: 0 <= i < |r| ==> keep(r[i])
    decreases |s|
  {
    if s == [] then []
    else
      var rest := Filter(s[1..], keep);
      if keep(s[0]) then [s[0]] + rest else rest
  }

  /** A record is in the result exactly when it is in `s` and satisfies `keep`. */
  lemma {:induction false} FilterMembers(s: seq<Record>, keep: Record -> bool)
    ensures forall x :: x in Filter(s, keep) <==> x in s && keep(x)
    decreases |s|
  {
    if s != [] {
      FilterMembers(s[1..], keep);
      FilterStep(s, keep);
      assert forall x :: x in s <==> x == s[0] || x in s[1..];
    }
  }

  /** Nothing is dropped exactly when every record satisfies `keep`. */
  lemma {:induction false} FilterKeepsAll(s: seq<Record>, keep: Record -> bool)
    ensures |Filter(s, keep)| == |s| <==> forall i :: 0 <= i < |s| ==> keep(s[i])
    decreases |s|
  {
    if s != [] {
      FilterKeepsAll(s[1..], keep);
      FilterStep(s, keep);
      assert forall i :: 0 <= i < |s[1..]| ==> s[1..][i] == s[i + 1];
      if forall i :: 0 <= i < |s| ==> keep(s[i]) {
        assert keep(s[0]);
      }
    }
  }

  /** One step of the filter: the head, if kept, then the filtered tail. */
  lemma FilterStep(s: seq<Record>, keep: Record -> bool)
    requires s != []
    ensures Filter(s, keep) == (if keep(s[0]) then [s[0]] else []) + Filter(s[1..], keep)
  {
  }

  /** `r` can be had from `s` by deleting elements, keeping the rest in order. */
  ghost predicate IsSubsequence(r: seq<Record>, s: seq<Record>)
    decreases |s|
  {
    r == [] || (s != [] && ((r[0] == s[0] && IsSubsequence(r[1..], s[1..])) || IsSubsequence(r, s[1..])))
  }

  lemma {:induction false} FilterIsSubsequence(s: seq<Record>, keep: Record -> bool)
    ensures IsSubsequence(Filter(s, keep), s)
    decreases |s|
  {
    if s != [] {
      FilterIsSubsequence(s[1..], keep);
      if keep(s[0]) {
        assert ([s[0]] + Filter(s[1..], keep))[1..] == Filter(s[1..], keep);
      }
    }
  }

  /** Each record occurs in the result exactly as often as in `s` when it satisfies `keep`, else never. */
  lemma {:induction false} FilterCount(s: seq<Record>, keep: Record -> bool, x: Record)
    ensures multiset(Filter(s, keep))[x] == if keep(x) then multiset(s)[x] else 0
    decreases |s|
  {
    if s != [] {
      FilterCount(s[1..], keep, x);
      assert s == [s[0]] + s[1..];
    }
  }

  lemma {:induction false} FilterAppend(a: seq<Record>, b: seq<Record>, keep: Record -> bool)
    ensures Filter(a + b, keep) == Filter(a, keep) + Filter(b, keep)
    decreases |a|
  {
    if a == [] {
      assert a + b == b;
    } else {
      var c := a + b;
      assert c != [] && c[0] == a[0] && c[1..] == a[1..] + b;
      FilterAppend(a[1..], b, keep);
      FilterStep(c, keep);
      FilterStep(a, keep);
      var head := if keep(a[0]) then [a[0]] else [];
      assert Filter(c, keep) == head + (Filter(a[1..], keep) + Filter(b, keep));
      assert head + (Filter(a[1..], keep) + Filter(b, keep)) == (head + Filter(a[1..], keep)) + Filter(b, keep);
    }
  }

  /** Filtering twice by a condition and then a stronger one is filtering by the stronger one. */
  lemma {:induction false} FilterNarrow(s: seq<Record>, wide: Record -> bool, narrow: Record -> bool)
    requires forall x :: narrow(x) ==> wide(x)
    ensures Filter(Filter(s, wide), narrow) == Filter(s, narrow)
    decreases |s|
  {
    if s != [] {
      FilterNarrow(s[1..], wide, narrow);
      if wide(s[0]) {
        assert Filter(s, wide)[1..] == Filter(s[1..], wide);
      }
    }
  }

  lemma {:induction false} FilterIdempotent(s: seq<Record>, keep: Record -> bool)
    ensures Filter(Filter(s, keep), keep) == Filter(s, keep)
  {
    FilterNarrow(s, keep, keep);
  }

  /** Filtering by two conditions no record meets together leaves nothing. */
  lemma FilterDisjoint(s: seq<Record>, first: Record -> bool, second: Record -> bool)
    requires forall x :: first(x) ==> !second(x)
    ensures Filter(Filter(s, first), second) == []
  {
    var r := Filter(s, first);
    forall i | 0 <= i < |r|
      ensures !second(r[i])
    {
      assert r[i] in r;
    }
    FilterNone(r, second);
  }

  /** Nothing satisfies `keep`: the result is empty. */
  lemma FilterNone(s: seq<Record>, keep: Record -> bool)
    requires forall i :: 0 <= i < |s| ==> !keep(s[i])
    ensures Filter(s, keep) == []
  {
  }

  /** Everything satisfies `keep`: the result is the whole sequence. */
  lemma FilterAll(s: seq<Record>, keep: Record -> bool)
    requires forall i :: 0 <= i < |s| ==> keep(s[i])
    ensures Filter(s, keep) == s
    decreases |s|
  {
    if s != [] {
      FilterAll(s[1..], keep);
    }
  }
}
