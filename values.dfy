/** The in-memory value trees the encoder walks and the decoder builds: the
    Python objects the codec handles, as a closed sum type. */
module Values {
  import opened Bytes

  /** A Python `int`, `str` (as its bytes), `bool`, `list` or `dict`. A dict is the
      sequence of its (key, value) items in insertion order; its keys are values
      too, because the encoder must reject keys that are not strings. */
  datatype Value =
    | Int(n: int)
    | Str(s: seq<byte>)
    | Bool(b: bool)
    | List(items: seq<Value>)
    | Obj(entries: seq<(Value, Value)>)

  datatype Option<T> = None | Some(value: T)

  /** The keys of a dict, in iteration order. */
  function KeysOf(entries: seq<(Value, Value)>): (keys: seq<Value>)
    ensures |keys| == |entries|
    ensures forall i :: 0 <= i < |entries| ==> keys[i] == entries[i].0
  {
    if entries == [] then [] else [entries[0].0] + KeysOf(entries[1..])
  }

  /** The value stored under `k`, if any (the first item with that key). */
  function Lookup(entries: seq<(Value, Value)>, k: Value): (r: Option<Value>)
    ensures r.Some? <==> k in KeysOf(entries)
  {
    if entries == [] then None
    else if entries[0].0 == k then Some(entries[0].1)
    else Lookup(entries[1..], k)
  }

  /** No key occurs twice, as in every Python dict. */
  predicate DistinctKeys(entries: seq<(Value, Value)>)
  {
    forall i, j :: 0 <= i < j < |entries| ==> entries[i].0 != entries[j].0
  }

  /** Python's `d[k] = v`: a key already present keeps its position and takes the
      new value; a new key goes to the end. */
  function Insert(entries: seq<(Value, Value)>, k: Value, v: Value): seq<(Value, Value)>
  {
    if entries == [] then [(k, v)]
    else if entries[0].0 == k then [(k, v)] + entries[1..]
    else [entries[0]] + Insert(entries[1..], k, v)
  }

  /** After `d[k] = v`, `d[k]` is `v` and every other key maps as before. */
  lemma {:induction false} InsertLookup(entries: seq<(Value, Value)>, k: Value, v: Value, other: Value)
    ensures Lookup(Insert(entries, k, v), k) == Some(v)
    ensures other != k ==> Lookup(Insert(entries, k, v), other) == Lookup(entries, other)
  {
    if entries != [] && entries[0].0 != k {
      InsertLookup(entries[1..], k, v, other);
    }
  }

  /** After `d[k] = v` the keys keep their order, with `k` added at the end if it
      was new. */
  lemma {:induction false} InsertKeys(entries: seq<(Value, Value)>, k: Value, v: Value)
    ensures KeysOf(Insert(entries, k, v)) == if k in KeysOf(entries) then KeysOf(entries) else KeysOf(entries) + [k]
  {
    if entries != [] {
      var rest := entries[1..];
      assert KeysOf(entries) == [entries[0].0] + KeysOf(rest);
      if entries[0].0 != k {
        InsertKeys(rest, k, v);
        assert KeysOf(Insert(entries, k, v)) == [entries[0].0] + KeysOf(Insert(rest, k, v));
      } else {
        assert KeysOf(Insert(entries, k, v)) == [k] + KeysOf(rest);
      }
    }
  }

  /** `d[k] = v` adds at most one item and keeps the keys distinct. */
  lemma {:induction false} InsertDistinct(entries: seq<(Value, Value)>, k: Value, v: Value)
    ensures |Insert(entries, k, v)| <= |entries| + 1
    ensures DistinctKeys(entries) ==> DistinctKeys(Insert(entries, k, v))
  {
    InsertKeys(entries, k, v);
    assert |KeysOf(Insert(entries, k, v))| == |Insert(entries, k, v)|;
    if entries != [] && DistinctKeys(entries) {
      var rest, r := entries[1..], Insert(entries, k, v);
      if entries[0].0 == k {
        assert r == [(k, v)] + rest;
        assert forall i :: 0 <= i < |r| ==> r[i].0 == entries[i].0;
      } else {
        var tail := Insert(rest, k, v);
        assert DistinctKeys(rest) by {
          assert forall i :: 0 <= i < |rest| ==> rest[i] == entries[i + 1];
        }
        InsertDistinct(rest, k, v);
        InsertKeys(rest, k, v);
        assert r == [entries[0]] + tail;
        forall j | 0 <= j < |tail|
          ensures tail[j].0 != entries[0].0
        {
          assert tail[j].0 == KeysOf(tail)[j];
          if j < |KeysOf(rest)| {
            assert KeysOf(rest)[j] == rest[j].0 == entries[j + 1].0;
          }
        }
      }
    }
  }

  /** Inserting a key that is not yet present appends it. */
  lemma {:induction false} InsertNew(entries: seq<(Value, Value)>, k: Value, v: Value)
    requires k !in KeysOf(entries)
    ensures Insert(entries, k, v) == entries + [(k, v)]
  {
    if entries != [] {
      var rest := entries[1..];
      assert KeysOf(entries) == [entries[0].0] + KeysOf(rest);
      assert entries[0].0 != k && k !in KeysOf(rest);
      InsertNew(rest, k, v);
      calc {
        Insert(entries, k, v);
        [entries[0]] + Insert(rest, k, v);
        [entries[0]] + (rest + [(k, v)]);
        { assert entries == [entries[0]] + rest; }
        entries + [(k, v)];
      }
    }
  }

  /** The number of nodes of a tree, not counting dict keys: a measure that every
      recursive walk over values decreases. */
  function Size(v: Value): (n: nat)
    decreases v
    ensures 1 <= n
  {
    match v
    case List(items) => 1 + ItemsSize(items)
    case Obj(entries) => 1 + EntriesSize(entries)
    case _ => 1
  }

  function ItemsSize(items: seq<Value>): nat
    decreases items
  {
    if items == [] then 0 else Size(items[0]) + ItemsSize(items[1..])
  }

  function EntrySize(e: (Value, Value)): nat
    decreases e
  {
    Size(e.1)
  }

  function EntriesSize(entries: seq<(Value, Value)>): nat
    decreases entries
  {
    if entries == [] then 0 else EntrySize(entries[0]) + EntriesSize(entries[1..])
  }

  /** Each element is no larger than all the elements together. */
  lemma {:induction false} ItemSizeBound(items: seq<Value>, i: nat)
    requires i < |items|
    ensures Size(items[i]) <= ItemsSize(items)
  {
    if i > 0 {
      ItemSizeBound(items[1..], i - 1);
    }
  }

  /** Each item's value is no larger than all the items' values together. */
  lemma {:induction false} EntrySizeBound(entries: seq<(Value, Value)>, i: nat)
    requires i < |entries|
    ensures Size(entries[i].1) <= EntriesSize(entries)
  {
    if i > 0 {
      EntrySizeBound(entries[1..], i - 1);
    }
  }

  /** Every dict in the tree has distinct keys, as every Python dict does. */
  predicate UniqueKeys(v: Value)
    decreases v
  {
    match v
    case List(items) => forall i :: 0 <= i < |items| ==> UniqueKeys(items[i])
    case Obj(entries) => DistinctKeys(entries) && forall i :: 0 <= i < |entries| ==> UniqueKeys(entries[i].1)
    case _ => true
  }

  /** A Python `bool` is an `int`: the value with every boolean replaced by the
      integer 1 or 0. */
  function BoolsToInts(v: Value): (r: Value)
    decreases v
  {
    match v
    case Int(n) => v
    case Str(s) => v
    case Bool(b) => Int(if b then 1 else 0)
    case List(items) => List(ItemsBoolsToInts(items))
    case Obj(entries) => Obj(EntriesBoolsToInts(entries))
  }

  function ItemsBoolsToInts(items: seq<Value>): (r: seq<Value>)
    decreases items
    ensures |r| == |items|
  {
    if items == [] then [] else [BoolsToInts(items[0])] + ItemsBoolsToInts(items[1..])
  }

  function EntryBoolsToInts(e: (Value, Value)): (Value, Value)
    decreases e
  {
    (BoolsToInts(e.0), BoolsToInts(e.1))
  }

  function EntriesBoolsToInts(entries: seq<(Value, Value)>): (r: seq<(Value, Value)>)
    decreases entries
    ensures |r| == |entries|
  {
    if entries == [] then [] else [EntryBoolsToInts(entries[0])] + EntriesBoolsToInts(entries[1..])
  }

  /** Converting a dict's items converts the first, then the rest. */
  lemma EntriesBoolsToIntsHead(entries: seq<(Value, Value)>)
    requires entries != []
    ensures EntriesBoolsToInts(entries) == [EntryBoolsToInts(entries[0])] + EntriesBoolsToInts(entries[1..])
  {
  }

  /** The value holds no boolean anywhere. */
  predicate BoolFree(v: Value)
    decreases v
  {
    match v
    case Int(_) => true
    case Str(_) => true
    case Bool(_) => false
    case List(items) => forall i :: 0 <= i < |items| ==> BoolFree(items[i])
    case Obj(entries) => forall i :: 0 <= i < |entries| ==> BoolFree(entries[i].0) && BoolFree(entries[i].1)
  }

  /** A boolean-free value is left as it is. */
  lemma {:induction false} BoolFreeUnchanged(v: Value)
    requires BoolFree(v)
    ensures BoolsToInts(v) == v
    decreases v
  {
    match v
    case Int(_) =>
    case Str(_) =>
    case List(items) =>
      ItemsBoolFreeUnchanged(items);
    case Obj(entries) =>
      EntriesBoolFreeUnchanged(entries);
  }

  lemma {:induction false} ItemsBoolFreeUnchanged(items: seq<Value>)
    requires forall i :: 0 <= i < |items| ==> BoolFree(items[i])
    ensures ItemsBoolsToInts(items) == items
    decreases items
  {
    if items != [] {
      BoolFreeUnchanged(items[0]);
      ItemsBoolFreeUnchanged(items[1..]);
      assert items == [items[0]] + items[1..];
    }
  }

  lemma {:induction false} EntriesBoolFreeUnchanged(entries: seq<(Value, Value)>)
    requires forall i :: 0 <= i < |entries| ==> BoolFree(entries[i].0) && BoolFree(entries[i].1)
    ensures EntriesBoolsToInts(entries) == entries
    decreases entries
  {
    if entries != [] {
      EntryBoolFreeUnchanged(entries[0]);
      EntriesBoolFreeUnchanged(entries[1..]);
      assert entries == [entries[0]] + entries[1..];
    }
  }

  lemma {:induction false} EntryBoolFreeUnchanged(e: (Value, Value))
    requires BoolFree(e.0) && BoolFree(e.1)
    ensures EntryBoolsToInts(e) == e
    decreases e
  {
    BoolFreeUnchanged(e.0);
    BoolFreeUnchanged(e.1);
  }
}
