/** The collection store: the in-memory document `collections_data`, a
    Python dict from a name to either a collection `{type, items}` or a
    metadata value (`_schema`). Dict order is insertion order, and the
    monitor walks it in that order, so the store keeps the order of its keys. */
module Store {
  import opened Wrappers
  import opened Media

  datatype Entry =
    | Meta(version: int)                            // `{"version": n}`: not a collection
    | Coll(mediaType: MediaType, items: seq<Item>)   // `{"type": ..., "items": [...]}`

  /** `order` lists the keys in dict order; `entries` holds the values. */
  datatype Store = Store(order: seq<string>, entries: map<string, Entry>) {
    /** The keys listed once each, and exactly the keys of `entries`. */
    ghost predicate Valid() {
      && (forall i, j :: 0 <= i < j < |order| ==> order[i] != order[j])
      && (forall k :: k in entries <==> k in order)
    }
  }

  const SchemaKey: string := "_schema"
  const SchemaVersion: int := 1

  /** Keys beginning with `_` hold metadata, never a collection to scan. */
  predicate IsMetaKey(k: string) {
    |k| > 0 && k[0] == '_'
  }

  /** `d[k] = e`: a new key goes to the end, an existing key keeps its place. */
  function Put(s: Store, k: string, e: Entry): (r: Store)
    requires s.Valid()
    ensures r.Valid()
    ensures r.entries == s.entries[k := e]
    ensures k in s.entries ==> r.order == s.order
    ensures k !in s.entries ==> r.order == s.order + [k]
  {
    if k in s.entries then Store(s.order, s.entries[k := e])
    else Store(s.order + [k], s.entries[k := e])
  }

  /** The key order with `k` taken out. */
  function Without(order: seq<string>, k: string): (r: seq<string>)
    ensures forall x :: x in r <==> x in order && x != k
    ensures |r| <= |order|
  {
    if |order| == 0 then []
    else Without(order[..|order| - 1], k) + (if order[|order| - 1] == k then [] else [order[|order| - 1]])
  }

  lemma {:induction false} WithoutDistinct(order: seq<string>, k: string)
    requires forall i, j :: 0 <= i < j < |order| ==> order[i] != order[j]
    ensures var r := Without(order, k); forall i, j :: 0 <= i < j < |r| ==> r[i] != r[j]
  {
    if |order| > 0 {
      var p := order[..|order| - 1];
      var last := order[|order| - 1];
      WithoutDistinct(p, k);
      assert last !in p;
      assert last !in Without(p, k);
      assert order == p + [last];
    }
  }

  /** `del d[k]`: None when the key is absent (Python raises KeyError and the
      store is left as it was). */
  function Remove(s: Store, k: string): (r: Option<Store>)
    requires s.Valid()
    ensures r.None? <==> k !in s.entries
    ensures r.Some? ==> r.value.Valid() && r.value.entries == s.entries - {k}
    ensures r.Some? ==> r.value.order == Without(s.order, k)
  {
    if k !in s.entries then None
    else
      RemoveValid(s, k);
      Some(Store(Without(s.order, k), s.entries - {k}))
  }

  lemma RemoveValid(s: Store, k: string)
    requires s.Valid()
    ensures Store(Without(s.order, k), s.entries - {k}).Valid()
  {
    WithoutDistinct(s.order, k);
    var r := Store(Without(s.order, k), s.entries - {k});
    forall x ensures x in r.entries <==> x in r.order {
      assert x in r.order <==> x in s.order && x != k;
    }
  }

  /** The store `load_collections_data` returns, given the parsed file: None
      stands for a missing or unreadable file. A `_schema` entry is added at
      the end when the document lacks one. */
  function Load(file: Option<Store>): (r: Store)
    requires file.Some? ==> file.value.Valid()
    ensures r.Valid() && SchemaKey in r.entries
    ensures file.None? ==> r.order == [SchemaKey] && r.entries == map[SchemaKey := Meta(SchemaVersion)]
    ensures file.Some? && SchemaKey in file.value.entries ==> r == file.value
    ensures file.Some? && SchemaKey !in file.value.entries ==>
      && r.order == file.value.order + [SchemaKey]
      && r.entries[SchemaKey] == Meta(SchemaVersion)
      && forall k :: k in file.value.entries ==> k in r.entries && r.entries[k] == file.value.entries[k]
  {
    match file
    case None => Store([SchemaKey], map[SchemaKey := Meta(SchemaVersion)])
    case Some(d) => if SchemaKey in d.entries then d else Put(d, SchemaKey, Meta(SchemaVersion))
  }

  /** The keys present in an item list (line 414). */
  function Keys(items: seq<Item>, lower: string -> string): set<Key> {
    set i | 0 <= i < |items| :: KeyOf(items[i], lower)
  }

  lemma KeysAppend(a: seq<Item>, b: seq<Item>, lower: string -> string)
    ensures Keys(a + b, lower) == Keys(a, lower) + Keys(b, lower)
  {
    var ab := a + b;
    forall k | k in Keys(ab, lower) ensures k in Keys(a, lower) + Keys(b, lower) {
      var i :| 0 <= i < |ab| && KeyOf(ab[i], lower) == k;
      if i >= |a| {
        assert ab[i] == b[i - |a|];
      }
    }
    forall k | k in Keys(a, lower) + Keys(b, lower) ensures k in Keys(ab, lower) {
      if k in Keys(a, lower) {
        var i :| 0 <= i < |a| && KeyOf(a[i], lower) == k;
        assert ab[i] == a[i];
      } else {
        var i :| 0 <= i < |b| && KeyOf(b[i], lower) == k;
        assert ab[|a| + i] == b[i];
      }
    }
  }

  /** The batch items whose key is not in `keys`, in batch order (line 417). */
  function NewItems(keys: set<Key>, batch: seq<Item>, lower: string -> string): seq<Item> {
    if |batch| == 0 then []
    else
      var last := batch[|batch| - 1];
      NewItems(keys, batch[..|batch| - 1], lower) + (if KeyOf(last, lower) in keys then [] else [last])
  }

  /** The merge loop of `run_process` over an existing collection: the keys
      of the existing items are computed once, before the loop, and each batch
      item whose key is not among them is appended to the collection and to
      the list to scan, with a counter. */
  method MergeItems(existing: seq<Item>, batch: seq<Item>, lower: string -> string)
    returns (merged: seq<Item>, toScan: seq<Item>, added: nat)
    ensures toScan == NewItems(Keys(existing, lower), batch, lower)
    ensures merged == existing + toScan
    ensures added == |toScan|
  {
    var existingKeys := Keys(existing, lower);
    merged, toScan, added := existing, [], 0;
    for i := 0 to |batch|
      invariant toScan == NewItems(existingKeys, batch[..i], lower)
      invariant merged == existing + toScan
      invariant added == |toScan|
    {
      assert batch[..i + 1][..i] == batch[..i];
      if KeyOf(batch[i], lower) !in existingKeys {
        merged := merged + [batch[i]];
        toScan := toScan + [batch[i]];
        added := added + 1;
      }
    }
    assert batch[..|batch|] == batch;
  }

  /** The filter is a homomorphism: it works item by item, in order. */
  lemma {:induction false} NewItemsAppend(keys: set<Key>, a: seq<Item>, b: seq<Item>, lower: string -> string)
    ensures NewItems(keys, a + b, lower) == NewItems(keys, a, lower) + NewItems(keys, b, lower)
  {
    if |b| == 0 {
      assert a + b == a;
    } else {
      var b' := b[..|b| - 1];
      NewItemsAppend(keys, a, b', lower);
      assert (a + b)[..|a + b| - 1] == a + b';
      assert (a + b)[|a + b| - 1] == b[|b| - 1];
    }
  }

  /** Exactly the items with fresh keys survive: each survivor is a batch item
      with a key outside `keys`, and each such batch item survives. */
  lemma {:induction false} NewItemsMembers(keys: set<Key>, batch: seq<Item>, lower: string -> string)
    ensures forall x :: x in NewItems(keys, batch, lower) ==> x in batch && KeyOf(x, lower) !in keys
    ensures forall i :: 0 <= i < |batch| && KeyOf(batch[i], lower) !in keys ==> batch[i] in NewItems(keys, batch, lower)
  {
    if |batch| > 0 {
      var p := batch[..|batch| - 1];
      NewItemsMembers(keys, p, lower);
      forall i | 0 <= i < |batch| && KeyOf(batch[i], lower) !in keys
        ensures batch[i] in NewItems(keys, batch, lower)
      {
        if i < |batch| - 1 {
          assert batch[i] == p[i];
        }
      }
    }
  }

  /** Nothing survives when every batch key is already present. */
  lemma {:induction false} NewItemsNone(keys: set<Key>, batch: seq<Item>, lower: string -> string)
    requires forall i :: 0 <= i < |batch| ==> KeyOf(batch[i], lower) in keys
    ensures NewItems(keys, batch, lower) == []
  {
    if |batch| > 0 {
      NewItemsNone(keys, batch[..|batch| - 1], lower);
    }
  }

  /** Merge idempotence: merging the same batch a second time, into the
      result of the first merge, appends nothing. */
  lemma MergeAgainAddsNothing(existing: seq<Item>, batch: seq<Item>, lower: string -> string)
    ensures var merged := existing + NewItems(Keys(existing, lower), batch, lower);
      NewItems(Keys(merged, lower), batch, lower) == []
  {
    var added := NewItems(Keys(existing, lower), batch, lower);
    var merged := existing + added;
    KeysAppend(existing, added, lower);
    NewItemsMembers(Keys(existing, lower), batch, lower);
    forall i | 0 <= i < |batch| ensures KeyOf(batch[i], lower) in Keys(merged, lower) {
      if KeyOf(batch[i], lower) !in Keys(existing, lower) {
        var j :| 0 <= j < |added| && added[j] == batch[i];
        assert KeyOf(added[j], lower) in Keys(added, lower);
      }
    }
    NewItemsNone(Keys(merged, lower), batch, lower);
  }

  /** No two items of the list share a key. */
  ghost predicate UniqueKeys(items: seq<Item>, lower: string -> string) {
    forall i, j :: 0 <= i < j < |items| ==> KeyOf(items[i], lower) != KeyOf(items[j], lower)
  }

  lemma {:induction false} NewItemsUnique(keys: set<Key>, batch: seq<Item>, lower: string -> string)
    requires UniqueKeys(batch, lower)
    ensures UniqueKeys(NewItems(keys, batch, lower), lower)
  {
    if |batch| > 0 {
      var p := batch[..|batch| - 1];
      var last := batch[|batch| - 1];
      NewItemsUnique(keys, p, lower);
      NewItemsMembers(keys, p, lower);
      var r := NewItems(keys, p, lower);
      forall x | x in r ensures KeyOf(x, lower) != KeyOf(last, lower) {
        var i :| 0 <= i < |p| && p[i] == x;
        assert batch[i] == x;
      }
    }
  }

  /** Uniqueness of keys is kept by a merge only when the batch itself has
      unique keys: the merge compares each batch item with the keys that
      existed before the call, not with the items it has just appended. */
  lemma MergeKeepsUniqueKeys(existing: seq<Item>, batch: seq<Item>, lower: string -> string)
    requires UniqueKeys(existing, lower) && UniqueKeys(batch, lower)
    ensures UniqueKeys(existing + NewItems(Keys(existing, lower), batch, lower), lower)
  {
    var added := NewItems(Keys(existing, lower), batch, lower);
    NewItemsUnique(Keys(existing, lower), batch, lower);
    NewItemsMembers(Keys(existing, lower), batch, lower);
    var m := existing + added;
    forall i, j | 0 <= i < j < |m| ensures KeyOf(m[i], lower) != KeyOf(m[j], lower) {
      if i < |existing| && j >= |existing| {
        assert m[j] == added[j - |existing|];
        assert m[j] in added;
        assert KeyOf(m[i], lower) in Keys(existing, lower);
      } else if i >= |existing| {
        assert m[i] == added[i - |existing|] && m[j] == added[j - |existing|];
      }
    }
  }

  /** Two items with one key in a single batch are both appended, so the
      merge does not by itself keep keys unique within a collection. */
  lemma BatchDuplicatesBothAppended(existing: seq<Item>, x: Item, lower: string -> string)
    requires KeyOf(x, lower) !in Keys(existing, lower)
    ensures NewItems(Keys(existing, lower), [x, x], lower) == [x, x]
    ensures !UniqueKeys(existing + [x, x], lower)
  {
    var keys := Keys(existing, lower);
    assert [x, x][..1] == [x];
    assert [x][..0] == [];
    assert NewItems(keys, [x], lower) == NewItems(keys, [], lower) + [x];
    assert NewItems(keys, [x, x], lower) == NewItems(keys, [x], lower) + [x];
    var m := existing + [x, x];
    assert m[|existing|] == x && m[|existing| + 1] == x;
  }

  /** What the merge step of `run_process` makes of the store. */
  datatype MergeResult =
    | Mismatch                                            // existing entry of another type
    | Merged(store: Store, start: nat, toScan: seq<Item>)  // toScan == items[start..]

  /** The items of the collection named `col`, empty when there is none. */
  function ItemsOf(s: Store, col: string): seq<Item> {
    if col in s.entries && s.entries[col].Coll? then s.entries[col].items else []
  }

  /** Whether a merge of media type `t` into `col` is refused: the name is
      taken by an entry whose `type` is not `t` (a metadata entry has none). */
  predicate Refused(s: Store, col: string, t: MediaType) {
    col in s.entries && !(s.entries[col].Coll? && s.entries[col].mediaType == t)
  }

  /** The merge step (lines 407-425) as a function of the store before it. */
  function MergeBatch(s: Store, col: string, t: MediaType, batch: seq<Item>, lower: string -> string): (r: MergeResult)
    requires s.Valid()
    ensures r.Mismatch? <==> Refused(s, col, t)
    ensures r.Merged? ==>
      && r.store.Valid()
      && r.store.entries == s.entries[col := Coll(t, ItemsOf(s, col) + r.toScan)]
      && r.start == |ItemsOf(s, col)|
      && r.store.order == (if col in s.entries then s.order else s.order + [col])
      && r.toScan == (if col in s.entries then NewItems(Keys(ItemsOf(s, col), lower), batch, lower) else batch)
  {
    if Refused(s, col, t) then Mismatch
    else if col in s.entries then
      var prev := ItemsOf(s, col);
      var added := NewItems(Keys(prev, lower), batch, lower);
      Merged(Put(s, col, Coll(t, prev + added)), |prev|, added)
    else
      assert ItemsOf(s, col) + batch == batch;
      Merged(Put(s, col, Coll(t, batch)), 0, batch)
  }

  /** Merging the same batch twice: the second merge is accepted and appends
      nothing, whether the first created the collection or extended it. */
  lemma MergeBatchIdempotent(s: Store, col: string, t: MediaType, batch: seq<Item>, lower: string -> string)
    requires s.Valid()
    requires MergeBatch(s, col, t, batch, lower).Merged?
    ensures var first := MergeBatch(s, col, t, batch, lower).store;
      var second := MergeBatch(first, col, t, batch, lower);
      second.Merged? && second.toScan == [] && second.store == first
  {
    var m := MergeBatch(s, col, t, batch, lower);
    var items := ItemsOf(s, col) + m.toScan;
    assert m.store.entries[col] == Coll(t, items);
    if col in s.entries {
      MergeAgainAddsNothing(ItemsOf(s, col), batch, lower);
    } else {
      assert items == batch;
      NewItemsOwnKeys(batch, lower);
    }
    RemergeNothing(m.store, col, t, items, batch, lower);
  }

  /** A merge whose filter keeps nothing leaves a store that already holds
      the collection exactly as it was. */
  lemma RemergeNothing(s: Store, col: string, t: MediaType, items: seq<Item>, batch: seq<Item>, lower: string -> string)
    requires s.Valid() && col in s.entries && s.entries[col] == Coll(t, items)
    requires NewItems(Keys(items, lower), batch, lower) == []
    ensures var r := MergeBatch(s, col, t, batch, lower);
      r.Merged? && r.toScan == [] && r.store == s
  {
    var r := MergeBatch(s, col, t, batch, lower);
    assert items + [] == items;
    assert s.entries[col := Coll(t, items)] == s.entries;
    assert r.store.order == s.order;
  }

  /** A batch merged into itself adds nothing. */
  lemma NewItemsOwnKeys(batch: seq<Item>, lower: string -> string)
    ensures NewItems(Keys(batch, lower), batch, lower) == []
  {
    NewItemsNone(Keys(batch, lower), batch, lower);
  }
}
