/** A tracking number: the tag-string parser, the per-visitor guard, the
    payloads of the tag operations, activation and release, and the
    grouping of active numbers for the ping request. */
module Numbers {
  import opened Js
  import Helpers
  import Data
  import Models
  import Cookies

  /** The store type of numbers. */
  const NumberType := "numbers"

  // ----- extractTagsFromString -----

  /** The first part of splitting a segment on ':'. */
  lemma FirstPart(segment: string)
    ensures var k := Split(segment, ":")[0];
      |k| <= |segment| && k == segment[..|k|] && ':' !in k &&
      (|k| < |segment| <==> ':' in segment) && (|k| < |segment| ==> segment[|k|] == ':')
  {
    IndexOfLeftmost(segment, ":", 0);
    match IndexOf(segment, ":", 0)
    case None =>
      forall q | 0 <= q < |segment| ensures segment[q] != ':' {
        assert !OccursAt(segment, ":", q);
      }
      assert segment[..|segment|] == segment;
    case Some(p) =>
      forall q | 0 <= q < p ensures segment[..p][q] != ':' {
        assert !OccursAt(segment, ":", q);
      }
      assert segment[p] == ':';
  }

  /** The key of one `key:value` segment, `tag.split(":")[0]`: the text
      before the first ':', or the whole segment when it has none. */
  function TagKey(segment: string): (k: string)
    ensures |k| <= |segment| && k == segment[..|k|] && ':' !in k
    ensures |k| < |segment| <==> ':' in segment
    ensures |k| < |segment| ==> segment[|k|] == ':'
  {
    FirstPart(segment);
    Split(segment, ":")[0]
  }

  /** The value of one segment: `tag.split(":")[1]`, undefined when the
      segment has no ':'. */
  function TagValue(segment: string): Value {
    var parts := Split(segment, ":");
    if |parts| > 1 then Str(parts[1]) else Undefined
  }

  /** The tags object built from the comma-separated segments, assigning
      each segment's key in turn. */
  function TagsFrom(segments: seq<string>): Data.Record
    decreases |segments|
  {
    if segments == [] then []
    else
      var last := segments[|segments| - 1];
      Put(TagsFrom(segments[..|segments| - 1]), TagKey(last), TagValue(last))
  }

  /** The value is the text between the first and the second ':', or
      undefined when there is no ':'. */
  lemma TagValueAfterColon(segment: string)
    ensures TagValue(segment) ==
      if ':' in segment then Str(TagKey(segment[|TagKey(segment)| + 1..])) else Undefined
  {
    match IndexOf(segment, ":", 0)
    case None =>
    case Some(p) =>
      OccursAtSlice(segment, ":", p);
      assert |Split(segment, ":")[0]| == p;
  }

  /** The value of the last segment whose key is `k`, scanning back from
      the end. */
  function LastTag(segments: seq<string>, k: string): (r: Option<Value>)
    ensures r.None? <==> forall j :: 0 <= j < |segments| ==> TagKey(segments[j]) != k
    decreases |segments|
  {
    if segments == [] then None
    else
      var n := |segments| - 1;
      if TagKey(segments[n]) == k then Some(TagValue(segments[n]))
      else
        var r := LastTag(segments[..n], k);
        assert forall j :: 0 <= j < n ==> segments[..n][j] == segments[j];
        r
  }

  /** A later segment with the same key overwrites an earlier one: the
      tags object holds, for each key, the value of the last segment that
      carries it. */
  lemma {:induction false} TagsFromGet(segments: seq<string>, k: string)
    ensures Js.Get(TagsFrom(segments), k) == LastTag(segments, k)
    decreases |segments|
  {
    if segments != [] {
      var n := |segments| - 1;
      var init := segments[..n];
      TagsFromGet(init, k);
      PutGet(TagsFrom(init), TagKey(segments[n]), TagValue(segments[n]), k);
    }
  }

  /** `extractTagsFromString(tags)`: splits on ',' and then on ':'. */
  method ExtractTagsFromString(tags: string) returns (output: Data.Record)
    ensures output == TagsFrom(Split(tags, ","))
  {
    var segments := Split(tags, ",");
    output := [];
    var i := 0;
    while i < |segments|
      invariant 0 <= i <= |segments|
      invariant output == TagsFrom(segments[..i])
    {
      var segment := segments[i];
      assert segments[..i + 1][..i] == segments[..i];
      output := Put(output, TagKey(segment), TagValue(segment));
      i := i + 1;
    }
    assert segments[..i] == segments;
  }

  // ----- the tag operations -----

  /** The message of the per-visitor guard. */
  const NotPerVisitorMessage := "Error: Tried to add tags to non per-visitor number."

  /** `this.get(key)` on a number's record. */
  function Field(rec: Data.Record, key: string): Value {
    Js.Get(rec, key).GetOr(Undefined)
  }

  /** `ensureIsPerVisitor`: only a number whose `is_per_visitor` is exactly
      `false` refuses tag changes; a missing flag, or any other value,
      passes. */
  function PerVisitorCheck(rec: Data.Record): (r: Result<()>)
    ensures r.Err? <==> Js.Get(rec, "is_per_visitor") == Some(Bool(false))
    ensures r.Err? ==> r.msg == NotPerVisitorMessage
  {
    if Field(rec, "is_per_visitor") == Bool(false) then Err(NotPerVisitorMessage) else Ok(())
  }

  /** The tags argument as `tagsPayload` reads it: a string is parsed, any
      other value is passed through. */
  function TagValues(tags: Value): Value {
    if tags.Str? then Obj(TagsFrom(Split(tags.s, ","))) else tags
  }

  /** A three-property object literal. */
  function Payload3(k1: string, v1: Value, k2: string, v2: Value, k3: string, v3: Value): (p: Value)
    ensures p.Obj? && KeysOf(p.fields) == [k1, k2, k3]
    ensures Prop(p, k1) == Some(v1)
    ensures k2 != k1 ==> Prop(p, k2) == Some(v2)
    ensures k3 != k1 && k3 != k2 ==> Prop(p, k3) == Some(v3)
  {
    var fs := [(k1, v1), (k2, v2), (k3, v3)];
    GetThree(k1, v1, k2, v2, k3, v3);
    assert KeysOf(fs) == [k1, k2, k3];
    Obj(fs)
  }

  /** Lookup in a three-entry object: the first matching entry wins. */
  lemma GetThree<V>(k1: string, v1: V, k2: string, v2: V, k3: string, v3: V)
    ensures Get([(k1, v1), (k2, v2), (k3, v3)], k1) == Some(v1)
    ensures k2 != k1 ==> Get([(k1, v1), (k2, v2), (k3, v3)], k2) == Some(v2)
    ensures k3 != k1 && k3 != k2 ==> Get([(k1, v1), (k2, v2), (k3, v3)], k3) == Some(v3)
  {
    var fs := [(k1, v1), (k2, v2), (k3, v3)];
    assert fs[1..] == [(k2, v2), (k3, v3)] && fs[1..][1..] == [(k3, v3)];
    assert Get(fs[1..][1..], k3) == Some(v3);
  }

  /** `tagsPayload(tags)`. */
  function TagsPayload(rec: Data.Record, tags: Value): (p: Value)
    ensures p.Obj? && KeysOf(p.fields) == ["tag_values", "ids", "campaign_key"]
    ensures Prop(p, "tag_values") == Some(TagValues(tags))
    ensures Prop(p, "ids") == Some(Arr([Field(rec, "id")]))
    ensures Prop(p, "campaign_key") == Some(Field(rec, "campaign_key"))
  {
    Payload3("tag_values", TagValues(tags), "ids", Arr([Field(rec, "id")]), "campaign_key", Field(rec, "campaign_key"))
  }

  /** The two versions of `removeTagsByKeys`: one wraps a string key into a
      one-element array, the other splits it on commas. */
  datatype KeysStyle = WrapKey | SplitOnCommas

  /** No piece of a split on commas holds a comma. */
  lemma SplitNoComma(s: string)
    ensures forall i :: 0 <= i < |Split(s, ",")| ==> ',' !in Split(s, ",")[i]
  {
    forall i, q | 0 <= i < |Split(s, ",")| && 0 <= q < |Split(s, ",")[i]|
      ensures Split(s, ",")[i][q] != ','
    {
      SplitPartsFree(s, ",", i, q);
      OccursAtSlice(Split(s, ",")[i], ",", q);
      assert Split(s, ",")[i][q..q + 1] == [Split(s, ",")[i][q]];
    }
  }

  /** The `tag_keys` of `removeTagsByKeys(keys)`. */
  function KeyArray(keys: Value, style: KeysStyle): (r: Value)
    ensures !keys.Str? ==> r == keys
    ensures keys.Str? && style.WrapKey? ==> r == Arr([keys])
    ensures keys.Str? && style.SplitOnCommas? ==>
      r.Arr? && |r.items| >= 1 && (forall i :: 0 <= i < |r.items| ==> r.items[i].Str?) &&
      Join(seq(|r.items|, i requires 0 <= i < |r.items| => r.items[i].s), ",") == keys.s &&
      forall i :: 0 <= i < |r.items| ==> ',' !in r.items[i].s
  {
    if !keys.Str? then keys
    else match style
      case WrapKey => Arr([keys])
      case SplitOnCommas =>
        var parts := Split(keys.s, ",");
        JoinSplit(keys.s, ",");
        SplitNoComma(keys.s);
        var items := seq(|parts|, i requires 0 <= i < |parts| => Str(parts[i]));
        assert seq(|items|, i requires 0 <= i < |items| => items[i].s) == parts;
        Arr(items)
  }

  /** A tag operation of a number. */
  datatype TagOperation =
    | AddTags(tags: Value)
    | ReplaceTags(tags: Value)
    | RemoveTags(tags: Value)
    | RemoveTagsByKeys(keys: Value)
    | ClearTags

  /** The request a tag operation posts. */
  datatype Post = Post(path: string, payload: Value)

  /** The post of a tag operation on a number with record `rec`, once the
      per-visitor guard has passed. */
  function OperationPost(rec: Data.Record, op: TagOperation, style: KeysStyle): Post {
    var ids := Arr([Field(rec, "id")]);
    var key := Field(rec, "campaign_key");
    match op
    case AddTags(tags) => Post("numbers/tag", TagsPayload(rec, tags))
    case ReplaceTags(tags) => Post("numbers/replace_tags", TagsPayload(rec, tags))
    case RemoveTags(tags) => Post("numbers/untag", TagsPayload(rec, tags))
    case RemoveTagsByKeys(keys) =>
      Post("numbers/untag/keys", Payload3("tag_keys", KeyArray(keys, style), "ids", ids, "campaign_key", key))
    case ClearTags =>
      Post("numbers/untag", Payload3("ids", ids, "campaign_key", key, "all", Str("true")))
  }

  /** `addTags`, `replaceTags`, `removeTags`, `removeTagsByKeys` and
      `clearTags`: every one runs the per-visitor guard first and posts
      nothing when it throws; every payload names the number by `ids: [id]`
      and its `campaign_key`. */
  function TagRequest(rec: Data.Record, op: TagOperation, style: KeysStyle): (r: Result<Post>)
    ensures r.Err? <==> Js.Get(rec, "is_per_visitor") == Some(Bool(false))
    ensures r.Err? ==> r.msg == NotPerVisitorMessage
    ensures r.Ok? ==> Prop(r.value.payload, "ids") == Some(Arr([Field(rec, "id")]))
    ensures r.Ok? ==> Prop(r.value.payload, "campaign_key") == Some(Field(rec, "campaign_key"))
    ensures r.Ok? && (op.AddTags? || op.ReplaceTags? || op.RemoveTags?) ==>
      Prop(r.value.payload, "tag_values") == Some(TagValues(op.tags))
    ensures r.Ok? && op.RemoveTagsByKeys? ==>
      r.value.path == "numbers/untag/keys" && Prop(r.value.payload, "tag_keys") == Some(KeyArray(op.keys, style))
    ensures r.Ok? && op.ClearTags? ==>
      r.value.path == "numbers/untag" && Prop(r.value.payload, "all") == Some(Str("true"))
  {
    match PerVisitorCheck(rec)
    case Err(msg) => Err(msg)
    case Ok(_) => Ok(OperationPost(rec, op, style))
  }

  // ----- initialize and release -----

  /** `set('is_active', flag)` on a number, which has no `set_is_active`
      method. */
  method SetActive(m: Models.Model, flag: string) returns (r: Result<Value>)
    requires m.Valid() && "is_active" !in m.setters
    modifies m.store
    ensures m.Valid()
    ensures m.data.None? ==> r == Err(TypeError)
    ensures m.data.Some? ==> r == Ok(Str(flag)) && Js.Get(m.Record(), "is_active") == Some(Str(flag))
    ensures m.data.Some? ==> (m.store.buckets ==
      Data.Assigned(old(m.store.buckets), m.kind, m.data.value.primaryKey, Put(old(m.Record()), "is_active", Str(flag))))
    ensures m.data.None? ==> m.store.buckets == old(m.store.buckets)
  {
    r := m.Set("is_active", Str(flag));
    if m.data.Some? {
      var d := m.data.value;
      var next := Put(old(m.Record()), "is_active", Str(flag));
      Data.AssignedRecords(old(m.store.buckets), d.kind, d.primaryKey, next, d.kind, d.primaryKey);
      PutGet(old(m.Record()), "is_active", Str(flag), "is_active");
    }
  }

  /** The primary key of numbers under a registry's keys. */
  function KeyOf(keys: map<string, string>): string {
    if NumberType in keys then keys[NumberType] else "id"
  }

  /** The numbers record under `slot` is active. */
  ghost predicate ActiveAt(b: map<string, Data.Bucket>, slot: string) {
    Data.Holds(b, NumberType, slot) && Js.Get(Data.RecordAt(b, NumberType, slot), "is_active") == Some(Str("true"))
  }

  /** Every numbers record of `b0` other than the one under `slot` is
      still there in `b1`, unchanged. */
  ghost predicate OthersKept(b0: map<string, Data.Bucket>, b1: map<string, Data.Bucket>, slot: string) {
    forall s :: s != slot && Data.Holds(b0, NumberType, s) ==>
      Data.Holds(b1, NumberType, s) && Data.RecordAt(b1, NumberType, s) == Data.RecordAt(b0, NumberType, s)
  }

  /** The numbers record `new RetreaverNumber(options)` leaves under
      `slot`: the options' fields merged over the record stored there (an
      empty one when there was none), then `is_active` set to 'true'. */
  ghost function BuiltRecord(b0: map<string, Data.Bucket>, slot: string, options: Value): Data.Record {
    var before := if Data.Holds(b0, NumberType, slot) then Data.RecordAt(b0, NumberType, slot) else [];
    Put(Data.Overlay(before, EnumFields(options)), "is_active", Str("true"))
  }

  /** The record construction writes is `BuiltRecord`: the options merged
      over the record the slot held, or over an empty one. */
  lemma BuiltRecordIs(b0: map<string, Data.Bucket>, slot: string, options: Value)
    ensures Data.Holds(Data.Initialized(b0, NumberType, slot), NumberType, slot)
    ensures Put(Data.Overlay(Data.RecordAt(Data.Initialized(b0, NumberType, slot), NumberType, slot), EnumFields(options)),
      "is_active", Str("true")) == BuiltRecord(b0, slot, options)
  {
    Data.InitializedRecords(b0, NumberType, slot, NumberType, slot);
  }

  /** The tables of every type other than numbers are as they were. */
  ghost predicate OtherTypesKept(b0: map<string, Data.Bucket>, b1: map<string, Data.Bucket>) {
    forall t :: t != NumberType ==> (t in b1 <==> t in b0) && (t in b0 ==> b1[t] == b0[t])
  }

  lemma OtherTypesKeptTrans(b0: map<string, Data.Bucket>, b1: map<string, Data.Bucket>, b2: map<string, Data.Bucket>)
    requires OtherTypesKept(b0, b1) && OtherTypesKept(b1, b2)
    ensures OtherTypesKept(b0, b2)
  {
  }

  /** The whole table after `new RetreaverNumber(options)` stored under
      `slot`: the slot created when it was missing, then holding
      `BuiltRecord`. */
  ghost function BuiltBuckets(b0: map<string, Data.Bucket>, slot: string, options: Value): map<string, Data.Bucket> {
    Data.Assigned(Data.Initialized(b0, NumberType, slot), NumberType, slot, BuiltRecord(b0, slot, options))
  }

  /** Construction writes one numbers record: its slot holds `BuiltRecord`
      and is active, and every other record, of every type, is kept. */
  lemma BuiltBucketsKeep(b0: map<string, Data.Bucket>, slot: string, options: Value)
    ensures ActiveAt(BuiltBuckets(b0, slot, options), slot)
    ensures Data.RecordAt(BuiltBuckets(b0, slot, options), NumberType, slot) == BuiltRecord(b0, slot, options)
    ensures OthersKept(b0, BuiltBuckets(b0, slot, options), slot)
    ensures OtherTypesKept(b0, BuiltBuckets(b0, slot, options))
  {
    var b1 := Data.Initialized(b0, NumberType, slot);
    var rec := BuiltRecord(b0, slot, options);
    Data.AssignedRecords(b1, NumberType, slot, rec, NumberType, slot);
    PutGet(Data.Overlay(if Data.Holds(b0, NumberType, slot) then Data.RecordAt(b0, NumberType, slot) else [], EnumFields(options)),
           "is_active", Str("true"), "is_active");
    forall s | s != slot && Data.Holds(b0, NumberType, s)
      ensures Data.Holds(BuiltBuckets(b0, slot, options), NumberType, s) &&
        Data.RecordAt(BuiltBuckets(b0, slot, options), NumberType, s) == Data.RecordAt(b0, NumberType, s)
    {
      Data.InitializedRecords(b0, NumberType, slot, NumberType, s);
      Data.AssignedRecords(b1, NumberType, slot, rec, NumberType, s);
    }
  }

  /** `new RetreaverNumber(options)`: stores the options, then marks the
      number active. Options without the primary key make `store` throw,
      and `undefined` options leave no record for `set` to write; either
      way the store and the cookies are untouched. Otherwise the record
      under the options' key is the only one touched, and the visitor
      cookie is written when the options carry a visitor id. */
  method NewNumber(registry: Models.Registry, store: Data.Store, jar: Cookies.CookieJar, options: Value)
    returns (r: Result<Models.Model>)
    modifies registry, store, jar
    ensures r.Ok? <==> Helpers.Defined(options, KeyOf(old(registry.primaryKeys)))
    ensures r.Err? ==> (r.msg ==
      if options.Null? || options.Undefined? then TypeError else Models.MissingKeyMessage(KeyOf(old(registry.primaryKeys))))
    ensures !options.Undefined? ==>
      registry.primaryKeys == old(registry.primaryKeys)[NumberType := KeyOf(old(registry.primaryKeys))]
    ensures options.Undefined? ==> registry.primaryKeys == old(registry.primaryKeys)
    ensures r.Ok? ==> (fresh(r.value) && r.value.kind == NumberType && r.value.Valid() && r.value.data.Some? &&
      r.value.store == store && Js.Get(r.value.Record(), "is_active") == Some(Str("true")))
    ensures r.Ok? ==> var slot := ToStr(Prop(options, KeyOf(old(registry.primaryKeys))).value);
      r.value.data.value.primaryKey == slot && ActiveAt(store.buckets, slot) &&
      store.buckets == BuiltBuckets(old(store.buckets), slot, options) &&
      Data.RecordAt(store.buckets, NumberType, slot) == BuiltRecord(old(store.buckets), slot, options) &&
      OthersKept(old(store.buckets), store.buckets, slot)
    ensures OtherTypesKept(old(store.buckets), store.buckets)
    ensures r.Err? ==> store.buckets == old(store.buckets)
    ensures jar.defaults == old(jar.defaults)
    ensures jar.written == old(jar.written) + (if r.Ok? then Models.VisitorWrites(old(jar.defaults), jar.encode, options) else [])
  {
    var m := new Models.Model(NumberType, registry, store, jar, map[]);
    var stored := m.Store(options);
    if stored.Err? {
      return Err(stored.msg);
    }
    var activated := SetActive(m, "true");
    if activated.Err? {
      return Err(activated.msg);
    }
    ghost var slot := m.data.value.primaryKey;
    ghost var b1 := Data.Initialized(old(store.buckets), NumberType, slot);
    Data.InitializedRecords(old(store.buckets), NumberType, slot, NumberType, slot);
    ghost var rec1 := Data.Overlay(Data.RecordAt(b1, NumberType, slot), EnumFields(options));
    Data.AssignedRecords(b1, NumberType, slot, rec1, NumberType, slot);
    Data.AssignedTwice(b1, NumberType, slot, rec1, Put(rec1, "is_active", Str("true")));
    BuiltRecordIs(old(store.buckets), slot, options);
    BuiltBucketsKeep(old(store.buckets), slot, options);
    return Ok(m);
  }

  /** `release()`: marks the number inactive. */
  method Release(m: Models.Model) returns (r: Result<Value>)
    requires m.Valid() && "is_active" !in m.setters
    modifies m.store
    ensures m.Valid()
    ensures m.data.None? ==> r == Err(TypeError)
    ensures m.data.Some? ==> r == Ok(Str("false")) && Js.Get(m.Record(), "is_active") == Some(Str("false"))
  {
    r := SetActive(m, "false");
  }

  // ----- ping grouping -----

  /** The ids and checksums gathered for one campaign. */
  datatype Group = Group(ids: seq<Value>, hashes: seq<Value>)

  /** `number.is_active === 'true'`. */
  predicate Active(rec: Data.Record) {
    Js.Get(rec, "is_active") == Some(Str("true"))
  }

  /** The property name a campaign key becomes. */
  function GroupKey(rec: Data.Record): string {
    ToStr(Field(rec, "campaign_key"))
  }

  /** The table after one number is visited. */
  function AddToGroup(grouped: seq<(string, Group)>, rec: Data.Record): seq<(string, Group)> {
    if !Active(rec) then grouped
    else
      var g := Js.Get(grouped, GroupKey(rec)).GetOr(Group([], []));
      Put(grouped, GroupKey(rec), Group(g.ids + [Field(rec, "id")], g.hashes + [Field(rec, "id_checksum")]))
  }

  /** The groups after visiting the stored numbers in order. */
  function Grouped(numbers: Data.Bucket): seq<(string, Group)>
    decreases |numbers|
  {
    if numbers == [] then []
    else AddToGroup(Grouped(numbers[..|numbers| - 1]), numbers[|numbers| - 1].1)
  }

  /** The ids of the active numbers of campaign `k`, in store order. */
  function ActiveIds(numbers: Data.Bucket, k: string): seq<Value>
    decreases |numbers|
  {
    if numbers == [] then []
    else
      var rec := numbers[|numbers| - 1].1;
      ActiveIds(numbers[..|numbers| - 1], k) + (if Active(rec) && GroupKey(rec) == k then [Field(rec, "id")] else [])
  }

  /** The checksums of the active numbers of campaign `k`, in store order. */
  function ActiveHashes(numbers: Data.Bucket, k: string): seq<Value>
    decreases |numbers|
  {
    if numbers == [] then []
    else
      var rec := numbers[|numbers| - 1].1;
      ActiveHashes(numbers[..|numbers| - 1], k) + (if Active(rec) && GroupKey(rec) == k then [Field(rec, "id_checksum")] else [])
  }

  /** The group of campaign `k` holds exactly the ids and the checksums of
      its active numbers, in store order, as parallel lists; a campaign
      without an active number has no group. */
  lemma {:induction false} GroupedGet(numbers: Data.Bucket, k: string)
    ensures |ActiveIds(numbers, k)| == |ActiveHashes(numbers, k)|
    ensures Js.Get(Grouped(numbers), k) ==
      if ActiveIds(numbers, k) == [] then None else Some(Group(ActiveIds(numbers, k), ActiveHashes(numbers, k)))
    decreases |numbers|
  {
    if numbers != [] {
      var n := |numbers| - 1;
      var init := numbers[..n];
      var rec := numbers[n].1;
      GroupedGet(init, k);
      var hit := Active(rec) && GroupKey(rec) == k;
      assert ActiveIds(numbers, k) == ActiveIds(init, k) + (if hit then [Field(rec, "id")] else []);
      assert ActiveHashes(numbers, k) == ActiveHashes(init, k) + (if hit then [Field(rec, "id_checksum")] else []);
      assert Grouped(numbers) == AddToGroup(Grouped(init), rec);
      if !hit {
        assert ActiveIds(numbers, k) == ActiveIds(init, k);
        assert ActiveHashes(numbers, k) == ActiveHashes(init, k);
      }
      if Active(rec) {
        var g := Js.Get(Grouped(init), GroupKey(rec)).GetOr(Group([], []));
        var g' := Group(g.ids + [Field(rec, "id")], g.hashes + [Field(rec, "id_checksum")]);
        assert Grouped(numbers) == Put(Grouped(init), GroupKey(rec), g');
        PutGet(Grouped(init), GroupKey(rec), g', k);
        if hit {
          assert g == Group(ActiveIds(init, k), ActiveHashes(init, k));
          assert g'.ids == ActiveIds(numbers, k) && g'.hashes == ActiveHashes(numbers, k);
        }
      }
    }
  }

  /** The grouping loop of `pingActiveNumbers` over the stored numbers. */
  method GroupActiveNumbers(numbers: Data.Bucket) returns (grouped: seq<(string, Group)>)
    ensures grouped == Grouped(numbers)
  {
    grouped := [];
    var i := 0;
    while i < |numbers|
      invariant 0 <= i <= |numbers|
      invariant grouped == Grouped(numbers[..i])
    {
      var rec := numbers[i].1;
      assert numbers[..i + 1][..i] == numbers[..i];
      if Active(rec) {
        var g := Js.Get(grouped, GroupKey(rec)).GetOr(Group([], []));
        grouped := Put(grouped, GroupKey(rec), Group(g.ids + [Field(rec, "id")], g.hashes + [Field(rec, "id_checksum")]));
      }
      i := i + 1;
    }
    assert numbers[..i] == numbers;
  }

  /** The ping payload of each group, in the groups' order. */
  function PingPayloads(grouped: seq<(string, Group)>): seq<Value>
    decreases |grouped|
  {
    if grouped == [] then []
    else [Obj([("ids", Arr(grouped[0].1.ids)), ("hashes", Arr(grouped[0].1.hashes))])] + PingPayloads(grouped[1..])
  }

  /** The payloads `pingActiveNumbers` posts, given what its two static
      lookups on the number class find: `getStore` (the store read is `{}`
      without it) and `connection` (nothing is posted without it). */
  function PingAsWritten(getStore: Option<map<string, Data.Bucket>>, hasConnection: bool): seq<Value> {
    var store := getStore.GetOr(map[]);
    if NumberType in store && hasConnection then PingPayloads(Grouped(store[NumberType])) else []
  }

  /** As written, the number class has neither static member: the record
      table is reached through `Data`, and connections through `Request`. */
  const StaticGetStore: Option<map<string, Data.Bucket>> := None
  const StaticConnection := false

  /** As written, no active number is ever pinged, although the intended
      ping has a payload for it. */
  lemma PingAsWrittenSendsNothing(buckets: map<string, Data.Bucket>, j: nat)
    requires NumberType in buckets && j < |buckets[NumberType]| && Active(buckets[NumberType][j].1)
    ensures PingAsWritten(StaticGetStore, StaticConnection) == []
    ensures PingRequests(buckets) != []
  {
    PingCoversActive(buckets, j);
  }

  /** The intended ping is the code as written with both lookups finding
      the record table and a connection. */
  lemma PingRequestsResolved(buckets: map<string, Data.Bucket>)
    ensures PingRequests(buckets) == PingAsWritten(Some(buckets), true)
  {
  }

  /** The payloads the ping evidently means to post: one per campaign with
      an active number, read from the record table. */
  function PingRequests(buckets: map<string, Data.Bucket>): seq<Value> {
    if NumberType in buckets then PingPayloads(Grouped(buckets[NumberType])) else []
  }

  /** The PingPayloads entry of each group. */
  lemma {:induction false} PingPayloadsAt(grouped: seq<(string, Group)>, j: nat)
    requires j < |grouped|
    ensures |PingPayloads(grouped)| == |grouped|
    ensures PingPayloads(grouped)[j] == Obj([("ids", Arr(grouped[j].1.ids)), ("hashes", Arr(grouped[j].1.hashes))])
    decreases |grouped|
  {
    if j > 0 {
      PingPayloadsAt(grouped[1..], j - 1);
    } else if |grouped| > 1 {
      PingPayloadsAt(grouped[1..], 0);
    }
  }

  /** With the table read, every active number's id and checksum are sent
      in the payload of its campaign's group. */
  lemma PingCoversActive(buckets: map<string, Data.Bucket>, j: nat)
    requires NumberType in buckets && j < |buckets[NumberType]| && Active(buckets[NumberType][j].1)
    ensures var rec := buckets[NumberType][j].1;
      exists i :: 0 <= i < |PingRequests(buckets)| &&
        PingRequests(buckets)[i] == Obj([("ids", Arr(ActiveIds(buckets[NumberType], GroupKey(rec)))),
                                         ("hashes", Arr(ActiveHashes(buckets[NumberType], GroupKey(rec))))]) &&
        Field(rec, "id") in ActiveIds(buckets[NumberType], GroupKey(rec))
  {
    var numbers := buckets[NumberType];
    var rec := numbers[j].1;
    var k := GroupKey(rec);
    ActiveIdsHas(numbers, j, k);
    GroupedGet(numbers, k);
    var grouped := Grouped(numbers);
    var g := Js.Get(grouped, k).value;
    Js.GetIndex(grouped, k);
    var i :| 0 <= i < |grouped| && grouped[i] == (k, g);
    PingPayloadsAt(grouped, i);
    var reqs := PingRequests(buckets);
    assert reqs == PingPayloads(grouped);
    assert g == Group(ActiveIds(numbers, k), ActiveHashes(numbers, k));
    assert 0 <= i < |reqs| && reqs[i] == Obj([("ids", Arr(g.ids)), ("hashes", Arr(g.hashes))]);
  }

  /** The ids of a campaign's active numbers, after the last number. */
  lemma ActiveIdsLast(numbers: Data.Bucket, k: string)
    requires numbers != []
    ensures var rec := numbers[|numbers| - 1].1;
      ActiveIds(numbers, k) ==
        ActiveIds(numbers[..|numbers| - 1], k) + (if Active(rec) && GroupKey(rec) == k then [Field(rec, "id")] else [])
  { }

  /** An active number's id is among its campaign's ids. */
  lemma {:induction false} ActiveIdsHas(numbers: Data.Bucket, j: nat, k: string)
    requires j < |numbers| && Active(numbers[j].1) && GroupKey(numbers[j].1) == k
    ensures Field(numbers[j].1, "id") in ActiveIds(numbers, k)
    decreases |numbers|
  {
    var n := |numbers| - 1;
    ActiveIdsLast(numbers, k);
    if j == n {
      assert Field(numbers[j].1, "id") in ActiveIds(numbers, k);
    } else {
      var init := numbers[..n];
      assert init[j] == numbers[j];
      ActiveIdsHas(init, j, k);
      assert Field(numbers[j].1, "id") in ActiveIds(numbers, k);
    }
  }
}
