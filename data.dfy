/** The global record table shared by every model object: records grouped
    by type, then by primary key. A record is a plain object's property
    list. */
module Data {
  import opened Js
  import Helpers

  type Record = seq<(string, Value)>

  /** The records of one type, by primary key, in insertion order. */
  type Bucket = seq<(string, Record)>

  /** The static `_store` table. */
  class Store {
    var buckets: map<string, Bucket>

    constructor ()
      ensures buckets == map[]
    {
      buckets := map[];
    }
  }

  /** The table has a record of type `t` under primary key `pk`. */
  predicate Holds(b: map<string, Bucket>, t: string, pk: string) {
    t in b && Js.Get(b[t], pk).Some?
  }

  function RecordAt(b: map<string, Bucket>, t: string, pk: string): Record
    requires Holds(b, t, pk)
  {
    Js.Get(b[t], pk).value
  }

  /** The table with the record of type `t` and primary key `pk` replaced
      by `rec`. */
  function Assigned(b: map<string, Bucket>, t: string, pk: string, rec: Record): map<string, Bucket>
    requires t in b
  {
    b[t := Put(b[t], pk, rec)]
  }

  /** Replacing one record leaves every other record as it was. */
  lemma AssignedRecords(b: map<string, Bucket>, t: string, pk: string, rec: Record, t': string, pk': string)
    requires t in b
    ensures Holds(Assigned(b, t, pk, rec), t, pk) && RecordAt(Assigned(b, t, pk, rec), t, pk) == rec
    ensures (t', pk') != (t, pk) ==>
      (Holds(Assigned(b, t, pk, rec), t', pk') <==> Holds(b, t', pk')) &&
      (Holds(b, t', pk') ==> RecordAt(Assigned(b, t, pk, rec), t', pk') == RecordAt(b, t', pk'))
  {
    PutGet(b[t], pk, rec, pk);
    PutGet(b[t], pk, rec, pk');
  }

  /** Replacing the same record twice keeps only the second. */
  lemma AssignedTwice(b: map<string, Bucket>, t: string, pk: string, rec: Record, rec': Record)
    requires t in b
    ensures Assigned(Assigned(b, t, pk, rec), t, pk, rec') == Assigned(b, t, pk, rec')
  {
    PutPut(b[t], pk, rec, rec');
  }

  /** `initialize`: the bucket of the type and the record of the key, each
      created empty only when absent. */
  function Initialized(b: map<string, Bucket>, t: string, pk: string): map<string, Bucket> {
    var bucket := if t in b then b[t] else [];
    b[t := if Js.Get(bucket, pk).Some? then bucket else Put(bucket, pk, [])]
  }

  /** Construction never clears anything: the record it names exists
      afterwards, empty if it was new, and every record that existed keeps
      its fields. */
  lemma InitializedRecords(b: map<string, Bucket>, t: string, pk: string, t': string, pk': string)
    ensures Holds(Initialized(b, t, pk), t, pk)
    ensures RecordAt(Initialized(b, t, pk), t, pk) == if Holds(b, t, pk) then RecordAt(b, t, pk) else []
    ensures Holds(b, t', pk') ==>
      Holds(Initialized(b, t, pk), t', pk') && RecordAt(Initialized(b, t, pk), t', pk') == RecordAt(b, t', pk')
  {
    var bucket := if t in b then b[t] else [];
    PutGet(bucket, pk, [], pk);
    PutGet(bucket, pk, [], pk');
  }

  /** The record after `merge`: the properties of `fs` written one after
      another. */
  function Overlay(rec: Record, fs: seq<(string, Value)>): Record
    decreases |fs|
  {
    if fs == [] then rec
    else Put(Overlay(rec, fs[..|fs| - 1]), fs[|fs| - 1].0, fs[|fs| - 1].1)
  }

  lemma OverlaySnoc(rec: Record, fs: seq<(string, Value)>, i: nat)
    requires i < |fs|
    ensures Overlay(rec, fs[..i + 1]) == Put(Overlay(rec, fs[..i]), fs[i].0, fs[i].1)
  {
    assert fs[..i + 1][..i] == fs[..i];
  }

  /** Assigning a record of one type and key twice: the second one stays,
      and reads back. */
  lemma AssignedStep(b0: map<string, Bucket>, t: string, pk: string, prev: Record, next: Record)
    requires t in b0
    ensures t in Assigned(b0, t, pk, prev)
    ensures Assigned(Assigned(b0, t, pk, prev), t, pk, next) == Assigned(b0, t, pk, next)
    ensures Holds(Assigned(b0, t, pk, next), t, pk) && RecordAt(Assigned(b0, t, pk, next), t, pk) == next
  {
    AssignedTwice(b0, t, pk, prev, next);
    AssignedRecords(b0, t, pk, next, t, pk);
  }

  /** After a merge every property of the merged object has its new value
      and every other property its old one. */
  lemma {:induction false} OverlayGet(rec: Record, fs: seq<(string, Value)>, k: string)
    requires DistinctKeys(fs)
    ensures Js.Get(Overlay(rec, fs), k) == if k in KeysOf(fs) then Js.Get(fs, k) else Js.Get(rec, k)
    decreases |fs|
  {
    if fs != [] {
      var init, last := fs[..|fs| - 1], fs[|fs| - 1];
      assert fs == init + [last];
      OverlayGet(rec, init, k);
      PutGet(Overlay(rec, init), last.0, last.1, k);
      GetSnoc(init, last.0, last.1, k);
      assert last.0 !in KeysOf(init) by {
        forall i | 0 <= i < |init| ensures KeysOf(init)[i] != last.0 {
          assert init[i] == fs[i];
        }
      }
    }
  }

  /** `get(k1, k2, ...)` with two or more keys: an object with exactly
      those keys, each holding the record's value (possibly `undefined`). */
  function Pick(rec: Record, keys: seq<string>): seq<(string, Value)>
    decreases |keys|
  {
    if keys == [] then []
    else
      var k := keys[|keys| - 1];
      Put(Pick(rec, keys[..|keys| - 1]), k, Js.Get(rec, k).GetOr(Undefined))
  }

  lemma {:induction false} PickGet(rec: Record, keys: seq<string>, k: string)
    ensures Js.Get(Pick(rec, keys), k) == if k in keys then Some(Js.Get(rec, k).GetOr(Undefined)) else None
    ensures k in KeysOf(Pick(rec, keys)) <==> k in keys
    decreases |keys|
  {
    if keys != [] {
      var init, last := keys[..|keys| - 1], keys[|keys| - 1];
      assert keys == init + [last];
      PickGet(rec, init, k);
      PutGet(Pick(rec, init), last, Js.Get(rec, last).GetOr(Undefined), k);
    }
  }

  /** The loop of `get` with several keys. */
  method PickFields(rec: Record, keys: seq<string>) returns (fields: seq<(string, Value)>)
    ensures fields == Pick(rec, keys)
  {
    fields := [];
    var i := 0;
    while i < |keys|
      invariant 0 <= i <= |keys| && fields == Pick(rec, keys[..i])
    {
      assert keys[..i + 1][..i] == keys[..i];
      fields := Put(fields, keys[i], Js.Get(rec, keys[i]).GetOr(Undefined));
      i := i + 1;
    }
    assert keys[..i] == keys;
  }

  /** One `Data` object: a view of the record of its type and primary key.
      Two objects with the same store, type and key see the same record. */
  class Data {
    const store: Store
    const kind: string
    const primaryKey: string

    ghost predicate Valid()
      reads store
    {
      Holds(store.buckets, kind, primaryKey)
    }

    function Record(): Record
      reads store
      requires Valid()
    {
      RecordAt(store.buckets, kind, primaryKey)
    }

    /** The constructor's `initialize` step, once the keys are checked. */
    constructor (store: Store, kind: string, primaryKey: string)
      modifies store
      ensures this.store == store && this.kind == kind && this.primaryKey == primaryKey
      ensures store.buckets == Initialized(old(store.buckets), kind, primaryKey)
      ensures Valid()
    {
      this.store := store;
      this.kind := kind;
      this.primaryKey := primaryKey;
      new;
      if kind !in store.buckets {
        store.buckets := store.buckets[kind := []];
      }
      if Js.Get(store.buckets[kind], primaryKey).None? {
        store.buckets := store.buckets[kind := Put(store.buckets[kind], primaryKey, [])];
      }
      InitializedRecords(old(store.buckets), kind, primaryKey, kind, primaryKey);
    }

    /** `new Data(config)`: throws unless `config` defines both `type` and
      `primary_key`; the two become property keys by `String(...)`. */
    static method New(store: Store, config: Value) returns (r: Result<Data>)
      modifies store
      ensures r.Ok? <==> Helpers.Defined(config, "type") && Helpers.Defined(config, "primary_key")
      ensures r.Err? ==> store.buckets == old(store.buckets)
      ensures r.Err? ==> r.msg == if config.Null? then TypeError
        else Helpers.RequiredKeysMessage(["type", "primary_key"])
      ensures r.Ok? ==> (fresh(r.value) && r.value.store == store &&
        r.value.kind == ToStr(Prop(config, "type").value) &&
        r.value.primaryKey == ToStr(Prop(config, "primary_key").value) &&
        store.buckets == Initialized(old(store.buckets), r.value.kind, r.value.primaryKey) &&
        r.value.Valid())
    {
      var checked := Helpers.AssertRequiredKeys(config, ["type", "primary_key"]);
      if checked.Err? {
        return Err(checked.msg);
      }
      assert Helpers.Defined(config, ["type", "primary_key"][0]);
      assert Helpers.Defined(config, ["type", "primary_key"][1]);
      var d := new Data(store, ToStr(Prop(config, "type").value), ToStr(Prop(config, "primary_key").value));
      return Ok(d);
    }

    /** `get()`: the whole record; `get(k)`: its value at `k`;
        `get(k1, k2, ...)`: an object of exactly those keys. */
    method Get(keys: seq<string>) returns (output: Value)
      requires Valid()
      ensures keys == [] ==> output == Obj(Record())
      ensures |keys| == 1 ==> output == Js.Get(Record(), keys[0]).GetOr(Undefined)
      ensures |keys| > 1 ==> output == Obj(Pick(Record(), keys))
    {
      var rec := Record();
      if keys == [] {
        output := Obj(rec);
      } else if |keys| == 1 {
        output := Js.Get(rec, keys[0]).GetOr(Undefined);
      } else {
        var fields := PickFields(rec, keys);
        output := Obj(fields);
      }
    }

    /** `set(key, value)`: writes one property of the shared record and
        returns the value. */
    method Set(key: string, value: Value) returns (r: Value)
      requires Valid()
      modifies store
      ensures r == value && Valid()
      ensures store.buckets == Assigned(old(store.buckets), kind, primaryKey, Put(old(Record()), key, value))
    {
      store.buckets := Assigned(store.buckets, kind, primaryKey, Put(Record(), key, value));
      AssignedRecords(old(store.buckets), kind, primaryKey, Put(old(Record()), key, value), kind, primaryKey);
      r := value;
    }

    /** `merge(object)`: writes every property of `object` into the shared
        record, one at a time, and returns `object`. */
    method Merge(obj: Value) returns (r: Value)
      requires Valid()
      modifies store
      ensures r == obj && Valid()
      ensures store.buckets == Assigned(old(store.buckets), kind, primaryKey, Overlay(old(Record()), EnumFields(obj)))
    {
      var fs := EnumFields(obj);
      var rec0 := Record();
      var b0 := store.buckets;
      AssignedRecords(b0, kind, primaryKey, rec0, kind, primaryKey);
      assert Assigned(b0, kind, primaryKey, rec0) == b0 by {
        PutSame(b0[kind], primaryKey);
      }
      var i := 0;
      while i < |fs|
        invariant 0 <= i <= |fs|
        invariant store.buckets == Assigned(b0, kind, primaryKey, Overlay(rec0, fs[..i]))
        invariant Valid() && Record() == Overlay(rec0, fs[..i])
      {
        var next := Put(Record(), fs[i].0, fs[i].1);
        OverlaySnoc(rec0, fs, i);
        store.buckets := Assigned(store.buckets, kind, primaryKey, next);
        AssignedStep(b0, kind, primaryKey, Overlay(rec0, fs[..i]), next);
        i := i + 1;
      }
      assert fs[..i] == fs;
      r := obj;
    }
  }
  /** Two `Data` objects of one type and primary key share their record: a
      value `set` through one is what `get` through the other returns, and
      every other key of the record reads as before. */
  method SharedRecord(d1: Data, d2: Data, key: string, value: Value, other: string)
    returns (seen: Value, kept: Value)
    requires d1.store == d2.store && d1.kind == d2.kind && d1.primaryKey == d2.primaryKey
    requires d1.Valid() && other != key
    modifies d1.store
    ensures seen == value
    ensures kept == Js.Get(old(d1.Record()), other).GetOr(Undefined)
  {
    ghost var b0 := d1.store.buckets;
    ghost var rec := Put(d1.Record(), key, value);
    var _ := d1.Set(key, value);
    AssignedRecords(b0, d1.kind, d1.primaryKey, rec, d1.kind, d1.primaryKey);
    PutGet(old(d1.Record()), key, value, key);
    PutGet(old(d1.Record()), key, value, other);
    seen := d2.Get([key]);
    kept := d2.Get([other]);
  }
}
