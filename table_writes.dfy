/**
  The two write policies of the destination tables, as operations on maps
  from a table's natural key to its stored row.

  `INSERT ... ON CONFLICT (<key>) DO NOTHING` keeps the row already stored
  under a key; `INSERT ... ON CONFLICT (<key>) DO UPDATE SET ...` keeps the
  stored key and `created_at` and replaces the listed mutable fields.
 */
module TableWrites {

  /** A stored row: its `created_at` and the fields a conflicting write may replace. */
  datatype Stored<F> = Stored(createdAt: string, fields: F)

  /** One row to write: its natural key, its `created_at` and its mutable fields. */
  datatype Item<F> = Item(key: string, createdAt: string, fields: F)

  type Table<F> = map<string, Stored<F>>

  /** The row an insert without a conflict stores. */
  function Fresh<F>(it: Item<F>): Stored<F> {
    Stored(it.createdAt, it.fields)
  }

  /** `ON CONFLICT DO NOTHING`. */
  function InsertIfAbsent<F>(t: Table<F>, it: Item<F>): (r: Table<F>)
    ensures it.key in r
  {
    if it.key in t then t else t[it.key := Fresh(it)]
  }

  /** `ON CONFLICT DO UPDATE`: a stored row keeps its `created_at` and takes the new fields. */
  function Upsert<F>(t: Table<F>, it: Item<F>): (r: Table<F>)
    ensures it.key in r && r[it.key].fields == it.fields
  {
    if it.key in t then t[it.key := Stored(t[it.key].createdAt, it.fields)]
    else t[it.key := Fresh(it)]
  }

  /** The items written one after the other with `InsertIfAbsent`. */
  function InsertAll<F>(t: Table<F>, items: seq<Item<F>>): Table<F>
    decreases |items|
  {
    if items == [] then t
    else InsertIfAbsent(InsertAll(t, items[..|items| - 1]), items[|items| - 1])
  }

  /** The items written one after the other with `Upsert`. */
  function UpsertAll<F>(t: Table<F>, items: seq<Item<F>>): Table<F>
    decreases |items|
  {
    if items == [] then t
    else Upsert(UpsertAll(t, items[..|items| - 1]), items[|items| - 1])
  }

  /** Inserting one more item is one more `InsertIfAbsent`. */
  lemma InsertAllSnoc<F>(t: Table<F>, items: seq<Item<F>>, it: Item<F>)
    ensures InsertAll(t, items + [it]) == InsertIfAbsent(InsertAll(t, items), it)
  {
    assert (items + [it])[..|items|] == items;
  }

  /** Upserting one more item is one more `Upsert`. */
  lemma UpsertAllSnoc<F>(t: Table<F>, items: seq<Item<F>>, it: Item<F>)
    ensures UpsertAll(t, items + [it]) == Upsert(UpsertAll(t, items), it)
  {
    assert (items + [it])[..|items|] == items;
  }

  predicate HasKey<F>(items: seq<Item<F>>, k: string) {
    exists i :: 0 <= i < |items| && items[i].key == k
  }

  /** The position of the first item with key `k`. */
  function FirstIndexOf<F>(items: seq<Item<F>>, k: string): (i: nat)
    requires HasKey(items, k)
    ensures i < |items| && items[i].key == k
    ensures forall j :: 0 <= j < i ==> items[j].key != k
    decreases |items|
  {
    if items[0].key == k then 0
    else
      assert HasKey(items[1..], k) by {
        var i :| 0 <= i < |items| && items[i].key == k;
        assert items[1..][i - 1].key == k;
      }
      1 + FirstIndexOf(items[1..], k)
  }

  /** The position of the last item with key `k`. */
  function LastIndexOf<F>(items: seq<Item<F>>, k: string): (i: nat)
    requires HasKey(items, k)
    ensures i < |items| && items[i].key == k
    ensures forall j :: i < j < |items| ==> items[j].key != k
    decreases |items|
  {
    var n := |items| - 1;
    if items[n].key == k then n
    else
      assert HasKey(items[..n], k) by {
        var i :| 0 <= i < |items| && items[i].key == k;
        assert items[..n][i].key == k;
      }
      LastIndexOf(items[..n], k)
  }

  /** How the first and last positions of a key change when the last item is dropped. */
  lemma DropLast<F>(items: seq<Item<F>>, k: string)
    requires items != []
    ensures var before := items[..|items| - 1];
            && (HasKey(before, k) <==> HasKey(items, k) && FirstIndexOf(items, k) < |items| - 1)
            && (HasKey(before, k) ==> FirstIndexOf(before, k) == FirstIndexOf(items, k))
            && (HasKey(items, k) && items[|items| - 1].key != k ==>
                  HasKey(before, k) && LastIndexOf(before, k) == LastIndexOf(items, k))
  {
    var n := |items| - 1;
    var before := items[..n];
    if HasKey(items, k) {
      var f := FirstIndexOf(items, k);
      if f < n {
        assert before[f] == items[f];
        forall j | 0 <= j < f
          ensures before[j].key != k
        {
          assert before[j] == items[j];
        }
        FirstIndexUnique(before, k, f);
      } else {
        forall j | 0 <= j < n
          ensures before[j].key != k
        {
          assert before[j] == items[j];
        }
      }
      if items[n].key != k {
        var l := LastIndexOf(items, k);
        assert before[l] == items[l];
        forall j | l < j < n
          ensures before[j].key != k
        {
          assert before[j] == items[j];
        }
        LastIndexUnique(before, k, l);
      }
    } else {
      forall j | 0 <= j < n
        ensures before[j].key != k
      {
        assert before[j] == items[j];
      }
    }
  }

  /**
    First wins: after inserting the items, a key already stored keeps its row,
    a new key holds the row of the first item with that key, and no other
    key appears.
   */
  lemma {:induction false} InsertAllAt<F>(t: Table<F>, items: seq<Item<F>>, k: string)
    ensures k in InsertAll(t, items) <==> k in t || HasKey(items, k)
    ensures k in t ==> InsertAll(t, items)[k] == t[k]
    ensures k !in t && HasKey(items, k) ==> InsertAll(t, items)[k] == Fresh(items[FirstIndexOf(items, k)])
    decreases |items|
  {
    if items != [] {
      var n := |items| - 1;
      InsertAllAt(t, items[..n], k);
      DropLast(items, k);
      if items[n].key == k {
        LastIndexUnique(items, k, n);
      }
    }
  }

  /** An index holding `k` with no earlier `k` is the first index of `k`. */
  lemma FirstIndexUnique<F>(items: seq<Item<F>>, k: string, i: nat)
    requires i < |items| && items[i].key == k
    requires forall j :: 0 <= j < i ==> items[j].key != k
    ensures HasKey(items, k) && FirstIndexOf(items, k) == i
  {
  }

  /** An index holding `k` with no later `k` is the last index of `k`. */
  lemma LastIndexUnique<F>(items: seq<Item<F>>, k: string, i: nat)
    requires i < |items| && items[i].key == k
    requires forall j :: i < j < |items| ==> items[j].key != k
    ensures HasKey(items, k) && LastIndexOf(items, k) == i
  {
  }

  /**
    After upserting the items, a key holds the fields of the last item with
    that key and keeps the `created_at` it was first stored with; keys no item
    names are untouched, and no other key appears.
   */
  lemma {:induction false} UpsertAllAt<F>(t: Table<F>, items: seq<Item<F>>, k: string)
    ensures k in UpsertAll(t, items) <==> k in t || HasKey(items, k)
    ensures k in t && !HasKey(items, k) ==> UpsertAll(t, items)[k] == t[k]
    ensures HasKey(items, k) ==>
              UpsertAll(t, items)[k].fields == items[LastIndexOf(items, k)].fields
    ensures k in t ==> UpsertAll(t, items)[k].createdAt == t[k].createdAt
    ensures k !in t && HasKey(items, k) ==>
              UpsertAll(t, items)[k].createdAt == items[FirstIndexOf(items, k)].createdAt
    decreases |items|
  {
    if items != [] {
      var n := |items| - 1;
      UpsertAllAt(t, items[..n], k);
      DropLast(items, k);
      if items[n].key == k {
        LastIndexUnique(items, k, n);
      }
    }
  }

  /** Inserting keys that are all stored already changes nothing. */
  lemma {:induction false} InsertAllPresent<F>(t: Table<F>, items: seq<Item<F>>)
    requires forall i :: 0 <= i < |items| ==> items[i].key in t
    ensures InsertAll(t, items) == t
    decreases |items|
  {
    if items != [] {
      InsertAllPresent(t, items[..|items| - 1]);
    }
  }

  /** Inserting the same items a second time changes nothing. */
  lemma InsertAllIdempotent<F>(t: Table<F>, items: seq<Item<F>>)
    ensures InsertAll(InsertAll(t, items), items) == InsertAll(t, items)
  {
    forall i | 0 <= i < |items|
      ensures items[i].key in InsertAll(t, items)
    {
      InsertAllAt(t, items, items[i].key);
    }
    InsertAllPresent(InsertAll(t, items), items);
  }

  /** Upserting the same items a second time changes nothing. */
  lemma UpsertAllIdempotent<F>(t: Table<F>, items: seq<Item<F>>)
    ensures UpsertAll(UpsertAll(t, items), items) == UpsertAll(t, items)
  {
    var once := UpsertAll(t, items);
    var twice := UpsertAll(once, items);
    forall k
      ensures k in twice <==> k in once
      ensures k in once ==> twice[k] == once[k]
    {
      UpsertAllAt(t, items, k);
      UpsertAllAt(once, items, k);
    }
    assert twice.Keys == once.Keys;
  }
}
