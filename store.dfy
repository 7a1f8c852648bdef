/**
 * The generic record store (BaseModel): an ordered list of records of one
 * kind, ids handed out as the largest id plus one, records appended after
 * validation and removed by a linear scan. Writing the CSV file is an
 * outcome passed in by the caller (`saved`), not modelled.
 */
module Store {
  import opened Wrappers
  import opened Text
  import opened Records
  import opened Validation

  /** Every id is a decimal numeral, so `int(item['id'])` succeeds on it. */
  predicate NumeralIds(data: seq<Record>) {
    forall i :: 0 <= i < |data| ==> IsNumeral(data[i].id)
  }

  /** No two records share an id. */
  predicate UniqueIds(data: seq<Record>) {
    forall i, j :: 0 <= i < j < |data| ==> data[i].id != data[j].id
  }

  /** Every record is of the store's kind. */
  predicate OfKind(data: seq<Record>, kind: Kind) {
    forall i :: 0 <= i < |data| ==> data[i].KindOf() == kind
  }

  /** What every store keeps true of its data. */
  predicate StoreInvariant(data: seq<Record>, kind: Kind) {
    NumeralIds(data) && UniqueIds(data) && OfKind(data, kind)
  }

  /** `max(int(item['id']) for item in data)`, and 0 for no records. */
  function MaxId(data: seq<Record>): (m: nat)
    requires NumeralIds(data)
    ensures forall i :: 0 <= i < |data| ==> DigitsValue(data[i].id) <= m
    ensures data != [] ==> exists i :: 0 <= i < |data| && DigitsValue(data[i].id) == m
    decreases |data|
  {
    if data == [] then 0
    else
      var rest := MaxId(data[..|data| - 1]);
      var last := DigitsValue(data[|data| - 1].id);
      if last > rest then last else rest
  }

  /** `get_next_id`: "1" for an empty store, else one more than the largest id. */
  function NextId(data: seq<Record>): (id: string)
    requires NumeralIds(data)
    ensures IsNumeral(id)
    ensures data == [] ==> id == "1"
    ensures data != [] ==> DigitsValue(id) == MaxId(data) + 1
    ensures forall i :: 0 <= i < |data| ==> DigitsValue(data[i].id) < DigitsValue(id)
    ensures forall i :: 0 <= i < |data| ==> data[i].id != id
  {
    var id := if data == [] then "1" else NatToString(MaxId(data) + 1);
    NatToStringRoundTrip(MaxId(data) + 1);
    assert DigitsValue(id) == MaxId(data) + 1 by {
      if data == [] {
        assert DigitsValue("1") == DigitsValue([]) * 10 + 1;
      }
    }
    forall i | 0 <= i < |data|
      ensures data[i].id != id
    {
      NumeralsDifferByValue(data[i].id, id);
    }
    id
  }

  /** Where the first record with this id sits, if any. */
  function IndexOfId(data: seq<Record>, id: string): (r: Option<nat>)
    ensures r.Some? ==> r.value < |data| && data[r.value].id == id
    ensures r.Some? ==> forall j :: 0 <= j < r.value ==> data[j].id != id
    ensures r.None? ==> forall j :: 0 <= j < |data| ==> data[j].id != id
    decreases |data|
  {
    if data == [] then None
    else if data[0].id == id then Some(0)
    else match IndexOfId(data[1..], id)
      case None => None
      case Some(k) => Some(k + 1)
  }

  /** What `find_by_id` finds: the first record whose id is `id`, or none. */
  function FirstWithId(data: seq<Record>, id: string): (r: Option<Record>)
    ensures r.Some? <==> exists i :: 0 <= i < |data| && data[i].id == id
    ensures r.Some? ==> r.value.id == id && r.value in data
    ensures r.Some? ==> exists i :: 0 <= i < |data| && data[i] == r.value && forall j :: 0 <= j < i ==> data[j].id != id
  {
    match IndexOfId(data, id)
    case None => None
    case Some(i) => Some(data[i])
  }

  /** What `delete_item` leaves: the data without the first record with this id. */
  function RemoveFirst(data: seq<Record>, id: string): (r: seq<Record>)
    ensures IndexOfId(data, id).None? ==> r == data
    ensures IndexOfId(data, id).Some? ==> |r| == |data| - 1
  {
    match IndexOfId(data, id)
    case None => data
    case Some(i) => data[..i] + data[i + 1..]
  }

  /**
   * What `add_item` does with a record: accepted records get the next id and
   * go at the end, rejected ones leave the data as it was.
   */
  function Added(data: seq<Record>, item: Record): (r: seq<Record>)
    requires NumeralIds(data)
    ensures NumeralIds(r)
  {
    if Validate(item) == Accepted then data + [item.WithId(NextId(data))] else data
  }

  /**
   * Adding an accepted record keeps every earlier record in its place and
   * puts one record at the end: the item's fields under a numeral id that no
   * earlier record carries.
   */
  lemma AddedAccepted(data: seq<Record>, item: Record)
    requires NumeralIds(data) && Validate(item) == Accepted
    ensures var r := Added(data, item);
      && |r| == |data| + 1 && r[..|data|] == data
      && r[|data|] == item.WithId(r[|data|].id) && IsNumeral(r[|data|].id)
      && forall i :: 0 <= i < |data| ==> data[i].id != r[|data|].id
  {
    var id := NextId(data);
    assert Added(data, item) == data + [item.WithId(id)];
    assert (data + [item.WithId(id)])[..|data|] == data;
  }

  /** `add_item`'s answer, or the ValueError it lets escape from `validate`. */
  datatype Reply = Returned(ok: bool) | Raised

  class Store {
    const kind: Kind
    var data: seq<Record>

    ghost predicate Valid()
      reads this
    {
      StoreInvariant(data, kind)
    }

    /** A store whose file held no records. */
    constructor(kind: Kind)
      ensures Valid() && this.kind == kind && data == []
    {
      this.kind := kind;
      data := [];
    }

    /** `get_all` */
    function GetAll(): seq<Record>
      reads this
    {
      data
    }

    /**
     * `add_item`: validate, give the record the next id, append it and save.
     * A failed save still leaves the record appended.
     */
    method AddItem(item: Record, saved: bool) returns (result: Reply)
      requires Valid() && item.KindOf() == kind
      modifies this
      ensures Valid()
      ensures data == Added(old(data), item)
      ensures Validate(item) == Accepted ==>
        data == old(data) + [item.WithId(NextId(old(data)))] && result == Returned(saved)
      ensures Validate(item).Rejected? ==> data == old(data) && result == Returned(false)
      ensures Validate(item) == RaisesValueError ==> data == old(data) && result == Raised
    {
      var verdict := Validate(item);
      if verdict == RaisesValueError {
        return Raised;
      }
      if verdict.Rejected? {
        return Returned(false);
      }
      var id := NextId(data);
      AppendPreservesInvariant(data, kind, item.WithId(id));
      data := data + [item.WithId(id)];
      result := Returned(saved);
    }

    /** `find_by_id`: scan for the first record with this id. */
    method FindById(id: string) returns (r: Option<Record>)
      ensures r == FirstWithId(data, id)
    {
      var i := 0;
      while i < |data|
        invariant 0 <= i <= |data|
        invariant forall j :: 0 <= j < i ==> data[j].id != id
      {
        if data[i].id == id {
          IndexOfIdFirst(data, id, i);
          return Some(data[i]);
        }
        i := i + 1;
      }
      IndexOfIdAbsent(data, id);
      r := None;
    }

    /**
     * `delete_item`: scan for the first record with this id, remove it and
     * save; an absent id answers false and changes nothing.
     */
    method DeleteItem(id: string, saved: bool) returns (ok: bool)
      requires Valid()
      modifies this
      ensures Valid()
      ensures data == RemoveFirst(old(data), id)
      ensures ok <==> IndexOfId(old(data), id).Some? && saved
    {
      var i := 0;
      while i < |data| && data[i].id != id
        invariant 0 <= i <= |data|
        invariant forall j :: 0 <= j < i ==> data[j].id != id
      {
        i := i + 1;
      }
      if i == |data| {
        IndexOfIdAbsent(data, id);
        return false;
      }
      IndexOfIdFirst(data, id, i);
      RemovePreservesInvariant(data, kind, i);
      data := data[..i] + data[i + 1..];
      ok := saved;
    }
  }

  lemma IndexOfIdAbsent(data: seq<Record>, id: string)
    requires forall j :: 0 <= j < |data| ==> data[j].id != id
    ensures IndexOfId(data, id).None?
  {
  }

  /** The first position holding the id is the one IndexOfId reports. */
  lemma IndexOfIdFirst(data: seq<Record>, id: string, i: nat)
    requires i < |data| && data[i].id == id
    requires forall j :: 0 <= j < i ==> data[j].id != id
    ensures IndexOfId(data, id) == Some(i)
  {
    var r := IndexOfId(data, id);
    assert r.Some?;
    assert !(r.value < i) && !(r.value > i);
  }

  lemma RemovePreservesInvariant(data: seq<Record>, kind: Kind, i: nat)
    requires StoreInvariant(data, kind) && i < |data|
    ensures StoreInvariant(data[..i] + data[i + 1..], kind)
  {
    var r := data[..i] + data[i + 1..];
    forall a, b | 0 <= a < b < |r|
      ensures r[a].id != r[b].id
    {
      var a', b' := if a < i then a else a + 1, if b < i then b else b + 1;
      assert r[a] == data[a'] && r[b] == data[b'];
    }
  }

  /** Appending a record of the store's kind under the next id keeps the invariant. */
  lemma AppendPreservesInvariant(data: seq<Record>, kind: Kind, r: Record)
    requires StoreInvariant(data, kind) && r.KindOf() == kind && r.id == NextId(data)
    ensures StoreInvariant(data + [r], kind)
  {
  }

  /** A record just added is found again under the id it was given. */
  lemma AddThenFind(data: seq<Record>, item: Record)
    requires NumeralIds(data) && Validate(item) == Accepted
    ensures FirstWithId(Added(data, item), NextId(data)) == Some(item.WithId(NextId(data)))
  {
    var r := Added(data, item);
    IndexOfIdFirst(r, NextId(data), |data|);
  }

  /** Where each record of the data lands once position `i` is removed. */
  lemma RemovedAt(data: seq<Record>, i: nat)
    requires i < |data|
    ensures var r := data[..i] + data[i + 1..];
      |r| == |data| - 1 && forall j :: 0 <= j < |r| ==> r[j] == (if j < i then data[j] else data[j + 1])
  {
  }

  /** The first position of an id before the removed one stays where it was. */
  lemma IndexBeforeRemove(data: seq<Record>, i: nat, other: string, k: nat)
    requires k < i < |data| && IndexOfId(data, other) == Some(k)
    ensures IndexOfId(data[..i] + data[i + 1..], other) == Some(k)
  {
    var r := data[..i] + data[i + 1..];
    assert r[k] == data[k];
    forall j | 0 <= j < k
      ensures r[j].id != other
    {
      assert r[j] == data[j];
    }
    IndexOfIdFirst(r, other, k);
  }

  lemma RemovedIndex(data: seq<Record>, i: nat, j: nat)
    requires i < |data| && j < |data| - 1
    ensures (data[..i] + data[i + 1..])[j] == if j < i then data[j] else data[j + 1]
  {
  }

  /** The first position of an id after the removed one moves down by one. */
  lemma IndexAfterRemove(data: seq<Record>, i: nat, other: string, k: nat)
    requires i < k < |data| && IndexOfId(data, other) == Some(k)
    ensures IndexOfId(data[..i] + data[i + 1..], other) == Some(k - 1)
  {
    var r := data[..i] + data[i + 1..];
    assert forall j :: 0 <= j < k ==> data[j].id != other;
    RemovedIndex(data, i, k - 1);
    forall j | 0 <= j < k - 1
      ensures r[j].id != other
    {
      RemovedIndex(data, i, j);
      if j >= i {
        assert j + 1 < k;
      }
    }
    IndexOfIdFirst(r, other, k - 1);
  }

  /** An id found nowhere is still found nowhere. */
  lemma AbsentAfterRemove(data: seq<Record>, i: nat, other: string)
    requires i < |data| && IndexOfId(data, other).None?
    ensures IndexOfId(data[..i] + data[i + 1..], other).None?
  {
    var r := data[..i] + data[i + 1..];
    forall j | 0 <= j < |r|
      ensures r[j].id != other
    {
      if j < i {
        assert r[j] == data[j];
      } else {
        assert r[j] == data[j + 1];
      }
    }
    IndexOfIdAbsent(r, other);
  }

  /** Removing a record with another id does not change what that id finds. */
  lemma FindAfterRemove(data: seq<Record>, i: nat, other: string)
    requires i < |data| && data[i].id != other
    ensures FirstWithId(data[..i] + data[i + 1..], other) == FirstWithId(data, other)
  {
    var r := data[..i] + data[i + 1..];
    match IndexOfId(data, other)
    case None =>
      AbsentAfterRemove(data, i, other);
    case Some(k) =>
      if k < i {
        IndexBeforeRemove(data, i, other, k);
        assert r[k] == data[k];
      } else {
        assert k != i;
        IndexAfterRemove(data, i, other, k);
        assert r[k - 1] == data[k];
      }
  }

  /** With unique ids, removing the record with an id leaves none with it. */
  lemma GoneAfterRemove(data: seq<Record>, i: nat)
    requires UniqueIds(data) && i < |data|
    ensures FirstWithId(data[..i] + data[i + 1..], data[i].id).None?
  {
    var r := data[..i] + data[i + 1..];
    RemovedAt(data, i);
    forall j | 0 <= j < |r|
      ensures r[j].id != data[i].id
    {
      if j >= i {
        assert r[j] == data[j + 1];
      }
    }
    IndexOfIdAbsent(r, data[i].id);
  }

  /**
   * After a delete, the id is gone (ids being unique), every other id finds
   * the same record as before, and the remaining records keep their order.
   */
  lemma DeleteRemovesOnlyThat(data: seq<Record>, kind: Kind, id: string)
    requires StoreInvariant(data, kind)
    ensures FirstWithId(RemoveFirst(data, id), id).None?
    ensures forall other :: other != id ==> FirstWithId(RemoveFirst(data, id), other) == FirstWithId(data, other)
    ensures IndexOfId(data, id).Some? ==>
      var i := IndexOfId(data, id).value;
      RemoveFirst(data, id) == data[..i] + data[i + 1..]
  {
    match IndexOfId(data, id)
    case None =>
    case Some(i) =>
      GoneAfterRemove(data, i);
      forall other | other != id
        ensures FirstWithId(data[..i] + data[i + 1..], other) == FirstWithId(data, other)
      {
        FindAfterRemove(data, i, other);
      }
  }

  /**
   * Ids are handed out again: deleting the record that was just added makes
   * the next store hand out that record's id a second time.
   */
  lemma IdReusedAfterDelete(data: seq<Record>, item: Record)
    requires NumeralIds(data)
    ensures var id := NextId(data);
      var after := RemoveFirst(data + [item.WithId(id)], id);
      after == data && NextId(after) == id
  {
    var id := NextId(data);
    IndexOfIdFirst(data + [item.WithId(id)], id, |data|);
    assert (data + [item.WithId(id)])[..|data|] == data;
  }
}
