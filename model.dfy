/** The base of every model object (numbers and campaigns): the registry of
    primary keys per type, storing a model's data in the shared record
    table, reading and writing its fields, and folding an API response back
    into the table. */
module Models {
  import opened Js
  import Helpers
  import Data
  import Cookies

  /** The cookie that carries the visitor id. */
  const VisitorCookie := "CallPixels-vid"

  /** `Model.inflections`: the response key `number` names the store type
      `numbers` and `campaign` names `campaigns`; any other key names itself. */
  function Inflect(key: string): string {
    if key == "number" then "numbers"
    else if key == "campaign" then "campaigns"
    else key
  }

  /** The static `Model.primary_keys` table. */
  class Registry {
    var primaryKeys: map<string, string>

    constructor ()
      ensures primaryKeys == map[]
    {
      primaryKeys := map[];
    }
  }

  /** `Model.primaryKey(type, primary_key)`: registers "id" on the first
      lookup of a type; an explicit key replaces the entry; the entry is
      returned. */
  method PrimaryKey(registry: Registry, kind: string, pk: Option<string>) returns (r: string)
    modifies registry
    ensures pk.Some? ==> r == pk.value
    ensures pk.None? ==> r == if kind in old(registry.primaryKeys) then old(registry.primaryKeys)[kind] else "id"
    ensures registry.primaryKeys == old(registry.primaryKeys)[kind := r]
  {
    if kind !in registry.primaryKeys {
      registry.primaryKeys := registry.primaryKeys[kind := "id"];
    }
    if pk.Some? {
      registry.primaryKeys := registry.primaryKeys[kind := pk.value];
    }
    r := registry.primaryKeys[kind];
  }

  /** The cookie strings `updateVisitorId(record)` writes through a jar with
      defaults `d` and encoder `encode`: one when the record defines
      `visitor_id`, none otherwise. */
  function VisitorWrites(d: Cookies.CookieDefaults, encode: string -> string, record: Value): seq<string> {
    if Helpers.Defined(record, "visitor_id") then
      [Cookies.CookieString(VisitorCookie, ToStr(Prop(record, "visitor_id").value), Cookies.ExtendedOptions(None, d), encode)]
    else []
  }

  /** `Model.updateVisitorId`: sets the visitor cookie when the record
      carries a visitor id; reading it from `null` throws. */
  method UpdateVisitorId(jar: Cookies.CookieJar, record: Value) returns (r: Result<()>)
    modifies jar
    ensures r.Err? <==> record.Null?
    ensures r.Err? ==> r.msg == TypeError
    ensures jar.written == old(jar.written) + (if record.Null? then [] else VisitorWrites(old(jar.defaults), jar.encode, record))
    ensures jar.documentCookie == old(jar.documentCookie) && jar.defaults == old(jar.defaults)
    ensures jar.cache == old(jar.cache) && jar.cachedDocumentCookie == old(jar.cachedDocumentCookie)
  {
    if record.Undefined? {
      return Ok(());
    }
    match Prop(record, "visitor_id")
    case None =>
      return Err(TypeError);
    case Some(vid) =>
      if vid != Undefined {
        var _ := jar.Set(VisitorCookie, ToStr(vid), None);
      }
      return Ok(());
  }

  /** The static state `update` and `updateRecord` read and write: the
      primary-key registry, the record table and the cookies written. */
  datatype World = World(primaryKeys: map<string, string>, buckets: map<string, Data.Bucket>, written: seq<string>)

  /** `Model.updateRecord(type, record)`: after the visitor-id step, a record
      without `id` changes nothing more and gives `false`; otherwise every
      field is copied into the stored record under the record's own primary
      key, which must exist, and the result is `true`. */
  function RecordUpdate(w: World, d: Cookies.CookieDefaults, encode: string -> string, kind: string, record: Value): (Result<bool>, World) {
    if record.Undefined? || record.Null? then (Err(TypeError), w)
    else
      var w1 := w.(written := w.written + VisitorWrites(d, encode, record));
      if !Helpers.Defined(record, "id") then (Ok(false), w1)
      else
        var pk := if kind in w1.primaryKeys then w1.primaryKeys[kind] else "id";
        var w2 := w1.(primaryKeys := w1.primaryKeys[kind := pk]);
        var slot := ToStr(Prop(record, pk).value);
        var fs := EnumFields(record);
        if fs == [] then (Ok(true), w2)
        else if !Data.Holds(w2.buckets, kind, slot) then (Err(TypeError), w2)
        else (Ok(true), w2.(buckets := Data.Assigned(w2.buckets, kind, slot,
                                                      Data.Overlay(Data.RecordAt(w2.buckets, kind, slot), fs))))
  }

  /** `update`'s inner loop over the items of an array value. */
  function ItemsUpdate(w: World, d: Cookies.CookieDefaults, encode: string -> string, kind: string,
                       items: seq<Value>, j: nat): (Result<()>, World)
    requires j <= |items|
    decreases |items| - j
  {
    if j == |items| then (Ok(()), w)
    else
      var step := RecordUpdate(w, d, encode, kind, items[j]);
      if step.0.Err? then (Err(step.0.msg), step.1)
      else ItemsUpdate(step.1, d, encode, kind, items, j + 1)
  }

  /** `Model.update(data)` over the response's properties from index `i` on:
      a key whose inflected type has no bucket in the table is skipped; an
      array value updates each item, any other value is one record. */
  function ResponseUpdate(w: World, d: Cookies.CookieDefaults, encode: string -> string,
                          fs: seq<(string, Value)>, i: nat): (Result<()>, World)
    requires i <= |fs|
    decreases |fs| - i
  {
    if i == |fs| then (Ok(()), w)
    else
      var kind := Inflect(fs[i].0);
      var value := fs[i].1;
      if kind !in w.buckets then ResponseUpdate(w, d, encode, fs, i + 1)
      else
        var step :=
          if Helpers.IsArray(value) then ItemsUpdate(w, d, encode, kind, value.items, 0)
          else
            var one := RecordUpdate(w, d, encode, kind, value);
            (if one.0.Ok? then Ok(()) else Err(one.0.msg), one.1);
        if step.0.Err? then step
        else ResponseUpdate(step.1, d, encode, fs, i + 1)
  }

  /** An update never adds or removes a type of the table. */
  lemma RecordUpdateTypes(w: World, d: Cookies.CookieDefaults, encode: string -> string, kind: string, record: Value)
    ensures RecordUpdate(w, d, encode, kind, record).1.buckets.Keys == w.buckets.Keys
    ensures forall t :: t in w.buckets && t != kind ==> RecordUpdate(w, d, encode, kind, record).1.buckets[t] == w.buckets[t]
  {
  }

  lemma {:induction false} ItemsUpdateTypes(w: World, d: Cookies.CookieDefaults, encode: string -> string,
                                            kind: string, items: seq<Value>, j: nat)
    requires j <= |items|
    ensures ItemsUpdate(w, d, encode, kind, items, j).1.buckets.Keys == w.buckets.Keys
    ensures forall t :: t in w.buckets && t != kind ==> ItemsUpdate(w, d, encode, kind, items, j).1.buckets[t] == w.buckets[t]
    decreases |items| - j
  {
    if j < |items| {
      RecordUpdateTypes(w, d, encode, kind, items[j]);
      var step := RecordUpdate(w, d, encode, kind, items[j]);
      if step.0.Ok? {
        ItemsUpdateTypes(step.1, d, encode, kind, items, j + 1);
      }
    }
  }

  /** `update` leaves the set of types alone, and the bucket of a type that
      no response key names (after inflection) is untouched. */
  lemma {:induction false} ResponseUpdateTypes(w: World, d: Cookies.CookieDefaults, encode: string -> string,
                                               fs: seq<(string, Value)>, i: nat, t: string)
    requires i <= |fs|
    requires forall j :: i <= j < |fs| ==> Inflect(fs[j].0) != t
    ensures ResponseUpdate(w, d, encode, fs, i).1.buckets.Keys == w.buckets.Keys
    ensures t in w.buckets ==> ResponseUpdate(w, d, encode, fs, i).1.buckets[t] == w.buckets[t]
    decreases |fs| - i
  {
    if i < |fs| {
      var kind := Inflect(fs[i].0);
      var value := fs[i].1;
      if kind in w.buckets {
        var step :=
          if Helpers.IsArray(value) then ItemsUpdate(w, d, encode, kind, value.items, 0)
          else
            var one := RecordUpdate(w, d, encode, kind, value);
            (if one.0.Ok? then Ok(()) else Err(one.0.msg), one.1);
        if Helpers.IsArray(value) {
          ItemsUpdateTypes(w, d, encode, kind, value.items, 0);
        } else {
          RecordUpdateTypes(w, d, encode, kind, value);
        }
        if step.0.Ok? {
          ResponseUpdateTypes(step.1, d, encode, fs, i + 1, t);
        }
      } else {
        ResponseUpdateTypes(w, d, encode, fs, i + 1, t);
      }
    }
  }

  /** A record update that succeeds with `true` copies every field of the
      record into the stored record under its primary key and keeps that
      record's other fields. */
  lemma RecordUpdateCopies(w: World, d: Cookies.CookieDefaults, encode: string -> string, kind: string,
                           record: Value, k: string)
    requires record.Obj? && Helpers.Defined(record, "id") && DistinctKeys(record.fields)
    requires RecordUpdate(w, d, encode, kind, record).0 == Ok(true)
    ensures var pk := if kind in w.primaryKeys then w.primaryKeys[kind] else "id";
      var slot := ToStr(Prop(record, pk).value);
      var w' := RecordUpdate(w, d, encode, kind, record).1;
      Data.Holds(w.buckets, kind, slot) && Data.Holds(w'.buckets, kind, slot) &&
      Js.Get(Data.RecordAt(w'.buckets, kind, slot), k) ==
        if k in KeysOf(record.fields) then Js.Get(record.fields, k) else Js.Get(Data.RecordAt(w.buckets, kind, slot), k)
  {
    var pk := if kind in w.primaryKeys then w.primaryKeys[kind] else "id";
    var slot := ToStr(Prop(record, pk).value);
    assert record.fields != [] by {
      assert Js.Get(record.fields, "id").Some?;
    }
    var rec := Data.Overlay(Data.RecordAt(w.buckets, kind, slot), record.fields);
    Data.AssignedRecords(w.buckets, kind, slot, rec, kind, slot);
    Data.OverlayGet(Data.RecordAt(w.buckets, kind, slot), record.fields, k);
  }

  /** `updateRecord`'s loop: copies the fields one by one into the record
      at `slot`. */
  method CopyFields(store: Data.Store, kind: string, slot: string, fs: seq<(string, Value)>)
    requires fs != [] && Data.Holds(store.buckets, kind, slot)
    modifies store
    ensures store.buckets == Data.Assigned(old(store.buckets), kind, slot,
                                           Data.Overlay(Data.RecordAt(old(store.buckets), kind, slot), fs))
  {
    var b0 := store.buckets;
    var rec0 := Data.RecordAt(b0, kind, slot);
    var i := 0;
    while i < |fs|
      invariant 0 <= i <= |fs| && kind in store.buckets
      invariant store.buckets == (if i == 0 then b0 else Data.Assigned(b0, kind, slot, Data.Overlay(rec0, fs[..i])))
      invariant Data.Holds(store.buckets, kind, slot) && Data.RecordAt(store.buckets, kind, slot) == Data.Overlay(rec0, fs[..i])
    {
      var next := Put(Data.RecordAt(store.buckets, kind, slot), fs[i].0, fs[i].1);
      assert fs[..i + 1][..i] == fs[..i];
      assert next == Data.Overlay(rec0, fs[..i + 1]);
      if i > 0 {
        Data.AssignedTwice(b0, kind, slot, Data.Overlay(rec0, fs[..i]), next);
      }
      store.buckets := Data.Assigned(store.buckets, kind, slot, next);
      Data.AssignedRecords(b0, kind, slot, next, kind, slot);
      i := i + 1;
    }
    assert fs[..i] == fs;
  }

  /** `updateRecord`: the visitor-id step, the primary-key lookup, then the
      loop copying the fields. */
  method UpdateRecord(registry: Registry, store: Data.Store, jar: Cookies.CookieJar, kind: string, record: Value)
    returns (r: Result<bool>)
    modifies registry, store, jar
    ensures (r, World(registry.primaryKeys, store.buckets, jar.written)) ==
      RecordUpdate(old(World(registry.primaryKeys, store.buckets, jar.written)), old(jar.defaults), jar.encode, kind, record)
    ensures jar.defaults == old(jar.defaults)
  {
    ghost var w := World(registry.primaryKeys, store.buckets, jar.written);
    var visited := UpdateVisitorId(jar, record);
    if record.Undefined? || record.Null? {
      assert World(registry.primaryKeys, store.buckets, jar.written) == w;
      return Err(TypeError);
    }
    if !Helpers.Defined(record, "id") {
      return Ok(false);
    }
    var pk := PrimaryKey(registry, kind, None);
    var slot := ToStr(Prop(record, pk).value);
    var fs := EnumFields(record);
    if fs == [] {
      return Ok(true);
    }
    if !Data.Holds(store.buckets, kind, slot) {
      return Err(TypeError);
    }
    CopyFields(store, kind, slot, fs);
    return Ok(true);
  }

  /** `update`'s loop over an array's items. */
  method UpdateItems(registry: Registry, store: Data.Store, jar: Cookies.CookieJar, kind: string, items: seq<Value>)
    returns (r: Result<()>)
    modifies registry, store, jar
    ensures (r, World(registry.primaryKeys, store.buckets, jar.written)) ==
      ItemsUpdate(old(World(registry.primaryKeys, store.buckets, jar.written)), old(jar.defaults), jar.encode, kind, items, 0)
    ensures jar.defaults == old(jar.defaults)
  {
    var i := 0;
    while i < |items|
      invariant 0 <= i <= |items| && jar.defaults == old(jar.defaults)
      invariant ItemsUpdate(World(registry.primaryKeys, store.buckets, jar.written), jar.defaults, jar.encode, kind, items, i) ==
        ItemsUpdate(old(World(registry.primaryKeys, store.buckets, jar.written)), old(jar.defaults), jar.encode, kind, items, 0)
    {
      var one := UpdateRecord(registry, store, jar, kind, items[i]);
      if one.Err? {
        return Err(one.msg);
      }
      i := i + 1;
    }
    return Ok(());
  }

  /** `Model.update(data)`: folds every property of a response into the
      table and returns the response itself. */
  method Update(registry: Registry, store: Data.Store, jar: Cookies.CookieJar, response: Value)
    returns (r: Result<Value>)
    modifies registry, store, jar
    ensures var expected := ResponseUpdate(old(World(registry.primaryKeys, store.buckets, jar.written)),
                                           old(jar.defaults), jar.encode, EnumFields(response), 0);
      World(registry.primaryKeys, store.buckets, jar.written) == expected.1 &&
      (r.Ok? <==> expected.0.Ok?) && (r.Ok? ==> r.value == response) && (r.Err? ==> r.msg == expected.0.msg)
    ensures jar.defaults == old(jar.defaults)
  {
    var fs := EnumFields(response);
    var i := 0;
    while i < |fs|
      invariant 0 <= i <= |fs| && jar.defaults == old(jar.defaults)
      invariant ResponseUpdate(World(registry.primaryKeys, store.buckets, jar.written), jar.defaults, jar.encode, fs, i) ==
        ResponseUpdate(old(World(registry.primaryKeys, store.buckets, jar.written)), old(jar.defaults), jar.encode, fs, 0)
    {
      var kind := Inflect(fs[i].0);
      var value := fs[i].1;
      if kind in store.buckets {
        if Helpers.IsArray(value) {
          var step := UpdateItems(registry, store, jar, kind, value.items);
          if step.Err? {
            return Err(step.msg);
          }
        } else {
          var one := UpdateRecord(registry, store, jar, kind, value);
          if one.Err? {
            return Err(one.msg);
          }
        }
      }
      i := i + 1;
    }
    return Ok(response);
  }

  /** The message `store` throws when the data lacks the primary key. */
  function MissingKeyMessage(key: string): string {
    "ArgumentError: Expected to receive primary_key " + key
  }

  /** The instance state of a model object: its type, its `Data` view once
      stored, and the shared static state. A `set_<key>` method of the
      object is a function in `setters`. */
  class Model {
    const kind: string
    var data: Option<Data.Data>
    const registry: Registry
    const store: Data.Store
    const jar: Cookies.CookieJar
    const setters: map<string, Value -> Result<Value>>

    /** Once stored, the view is of this object's type in the shared table. */
    ghost predicate Valid()
      reads this, store
    {
      data.Some? ==> data.value.store == store && data.value.kind == kind && data.value.Valid()
    }

    constructor (kind: string, registry: Registry, store: Data.Store, jar: Cookies.CookieJar,
                 setters: map<string, Value -> Result<Value>>)
      ensures this.kind == kind && data == None && this.registry == registry && this.store == store
      ensures this.jar == jar && this.setters == setters && Valid()
    {
      this.kind := kind;
      data := None;
      this.registry := registry;
      this.store := store;
      this.jar := jar;
      this.setters := setters;
    }

    /** The object's record. */
    function Record(): Data.Record
      reads this, store
      requires Valid() && data.Some?
    {
      data.value.Record()
    }

    /** The table after `store` merges `v` into the record at `pk`, starting
        from `b1`. */
    ghost function StoredBuckets(b1: map<string, Data.Bucket>, pk: string, v: Value): map<string, Data.Bucket>
      requires Data.Holds(b1, kind, pk)
    {
      Data.Assigned(b1, kind, pk, Data.Overlay(Data.RecordAt(b1, kind, pk), EnumFields(v)))
    }

    /** The primary key `store` looks up for this type. */
    ghost function KeyFor(keys: map<string, string>): string {
      if kind in keys then keys[kind] else "id"
    }

    /** The configuration `store` hands to the `Data` constructor. */
    static lemma DataConfig(kind: string, field: Value)
      requires field != Undefined
      ensures var config := Obj([("type", Str(kind)), ("primary_key", field)]);
        Prop(config, "type") == Some(Str(kind)) && Prop(config, "primary_key") == Some(field) &&
        Helpers.Defined(config, "type") && Helpers.Defined(config, "primary_key")
    {
      var fs := [("type", Str(kind)), ("primary_key", field)];
      assert fs[1..][0] == ("primary_key", field);
      assert "type" != "primary_key";
      assert Js.Get(fs, "primary_key") == Js.Get(fs[1..], "primary_key") == Some(field);
    }

    /** The first `store` of an object creates its `Data` view, keyed by the
        primary-key field's value; later calls keep the view. */
    method EnsureData(field: Value)
      requires Valid() && field != Undefined
      modifies this, store
      ensures Valid() && data.Some? && Data.Holds(store.buckets, kind, data.value.primaryKey)
      ensures old(data).Some? ==> data == old(data) && store.buckets == old(store.buckets)
      ensures old(data).None? ==> (fresh(data.value) && data.value.primaryKey == ToStr(field) &&
        store.buckets == Data.Initialized(old(store.buckets), kind, ToStr(field)))
    {
      if data.None? {
        var config := Obj([("type", Str(kind)), ("primary_key", field)]);
        DataConfig(kind, field);
        var created := Data.Data.New(store, config);
        data := Some(created.value);
      }
    }

    /** `store(data)`: nothing for `undefined`; otherwise the data must have
        the type's primary key, the `Data` view is created on the first
        call (keyed by that field's value), the data is merged into the
        record and the visitor cookie is written. */
    method Store(v: Value) returns (r: Result<Option<Data.Data>>)
      requires Valid()
      modifies this, registry, store, jar
      ensures Valid() && jar.defaults == old(jar.defaults)
      ensures v.Undefined? ==> (r == Ok(data) && data == old(data) && registry.primaryKeys == old(registry.primaryKeys) &&
        store.buckets == old(store.buckets) && jar.written == old(jar.written))
      ensures !v.Undefined? ==> registry.primaryKeys == old(registry.primaryKeys)[kind := KeyFor(old(registry.primaryKeys))]
      ensures !v.Undefined? && !Helpers.Defined(v, KeyFor(old(registry.primaryKeys))) ==>
        (r == Err(if v.Null? then TypeError else MissingKeyMessage(KeyFor(old(registry.primaryKeys)))) &&
         data == old(data) && store.buckets == old(store.buckets) && jar.written == old(jar.written))
      ensures Helpers.Defined(v, KeyFor(old(registry.primaryKeys))) ==>
        (r == Ok(data) && data.Some? &&
         (old(data).Some? ==> data == old(data)) &&
         (old(data).None? ==> fresh(data.value) && data.value.primaryKey == ToStr(Prop(v, KeyFor(old(registry.primaryKeys))).value)) &&
         (var b1 := if old(data).Some? then old(store.buckets)
                    else Data.Initialized(old(store.buckets), kind, data.value.primaryKey);
          Data.Holds(b1, kind, data.value.primaryKey) && store.buckets == StoredBuckets(b1, data.value.primaryKey, v)) &&
         jar.written == old(jar.written) + VisitorWrites(old(jar.defaults), jar.encode, v))
    {
      if v.Undefined? {
        return Ok(data);
      }
      var key := PrimaryKey(registry, kind, None);
      if !Helpers.Defined(v, key) {
        return Err(if v.Null? then TypeError else MissingKeyMessage(key));
      }
      r := StoreRecord(v, key);
    }

    /** The part of `store(data)` after the key check: create the `Data`
        view when there is none, merge, write the visitor cookie. */
    method StoreRecord(v: Value, key: string) returns (r: Result<Option<Data.Data>>)
      requires Valid() && Helpers.Defined(v, key)
      modifies this, store, jar
      ensures Valid() && jar.defaults == old(jar.defaults) && r == Ok(data) && data.Some?
      ensures old(data).Some? ==> data == old(data)
      ensures old(data).None? ==> fresh(data.value) && data.value.primaryKey == ToStr(Prop(v, key).value)
      ensures var b1 := if old(data).Some? then old(store.buckets)
                        else Data.Initialized(old(store.buckets), kind, data.value.primaryKey);
        Data.Holds(b1, kind, data.value.primaryKey) && store.buckets == StoredBuckets(b1, data.value.primaryKey, v)
      ensures jar.written == old(jar.written) + VisitorWrites(old(jar.defaults), jar.encode, v)
    {
      EnsureData(Prop(v, key).value);
      var _ := data.value.Merge(v);
      var _ := UpdateVisitorId(jar, v);
      return Ok(data);
    }

    /** What `set(key, value)` stores: the value passed through the
        object's `set_<key>` method when it has one, which may throw. */
    function SetterResult(key: string, value: Value): Result<Value>
      reads this
    {
      if key in setters then setters[key](value) else Ok(value)
    }

    /** `set(key, value)`: passes the value through the object's
        `set_<key>` method when it has one, then writes and returns it;
        a throwing setter, or a missing stored view, writes nothing. */
    method Set(key: string, value: Value) returns (r: Result<Value>)
      requires Valid()
      modifies store
      ensures Valid()
      ensures SetterResult(key, value).Err? ==> r == SetterResult(key, value) && store.buckets == old(store.buckets)
      ensures SetterResult(key, value).Ok? && data.None? ==> r == Err(TypeError) && store.buckets == old(store.buckets)
      ensures SetterResult(key, value).Ok? && data.Some? ==>
        r == SetterResult(key, value) &&
        store.buckets == Data.Assigned(old(store.buckets), kind, data.value.primaryKey,
                                       Put(old(Record()), key, SetterResult(key, value).value))
    {
      var stored := value;
      if key in setters {
        var s := setters[key](value);
        if s.Err? {
          return s;
        }
        stored := s.value;
      }
      if data.None? {
        return Err(TypeError);
      }
      var written := data.value.Set(key, stored);
      return Ok(written);
    }

    /** `get(...keys)`: the stored view's `get`; without one it throws. */
    method Get(keys: seq<string>) returns (r: Result<Value>)
      requires Valid()
      ensures data.None? ==> r == Err(TypeError)
      ensures data.Some? && keys == [] ==> r == Ok(Obj(Record()))
      ensures data.Some? && |keys| == 1 ==> r == Ok(Js.Get(Record(), keys[0]).GetOr(Undefined))
      ensures data.Some? && |keys| > 1 ==> r == Ok(Obj(Data.Pick(Record(), keys)))
    {
      if data.None? {
        return Err(TypeError);
      }
      var out := data.value.Get(keys);
      return Ok(out);
    }
  }
}
