/** A campaign: the argument handling of `requestNumber` and the dispatch
    of its response, tag validation, the numbers of the campaign, the
    integration configuration of a number, and the rewrite of `tel:` links
    when the response carries replacement numbers. */
module Campaigns {
  import opened Js
  import Data
  import Models
  import Cookies
  import Helpers
  import Numbers
  import FindReplaceText
  import FindReplaceDom

  // ----- setNumberMatchingTags -----

  /** The message thrown for tags that are not a plain object. */
  const TagsMessage := "ArgumentError: Expected number_matching_tags to be an object. eg: {tag: 'value'}"

  /** `setNumberMatchingTags(tags)`: a string is parsed into a tags object;
      a plain object is returned unchanged; arrays, `null` and every other
      value throw. */
  function SetNumberMatchingTags(tags: Value): (r: Result<Value>)
    ensures r.Ok? <==> tags.Str? || tags.Obj?
    ensures r.Ok? ==> r.value.Obj?
    ensures tags.Obj? ==> r == Ok(tags)
    ensures tags.Str? ==> r == Ok(Obj(Numbers.TagsFrom(Split(tags.s, ","))))
    ensures r.Err? ==> r.msg == TagsMessage
  {
    var parsed := if tags.Str? then Numbers.TagValues(tags) else tags;
    if Truthy(parsed) && TypeOf(parsed) == "object" && !parsed.Arr? then Ok(parsed) else Err(TagsMessage)
  }

  /** The property whose setter validates the tags. */
  const TagsKey := "number_matching_tags"

  /** The name the tag setter has on the campaign. */
  const TagSetterMethod := "setNumberMatchingTags"

  /** The method name `set(key, value)` looks for. */
  function SetterName(key: string): string {
    "set_" + key
  }

  /** The setters `set` finds among an object's methods: the method named
      `set_<key>`, for each key the object writes. */
  function SettersFrom(methods: map<string, Value -> Result<Value>>, keys: set<string>): map<string, Value -> Result<Value>> {
    map k | k in keys && SetterName(k) in methods :: methods[SetterName(k)]
  }

  /** The campaign's methods that take a value, by name. */
  function CampaignMethods(): map<string, Value -> Result<Value>> {
    map[TagSetterMethod := SetNumberMatchingTags]
  }

  /** The campaign's setters AS WRITTEN: the tag setter's name is not
      `set_number_matching_tags`. */
  function CampaignSettersAsWritten(): map<string, Value -> Result<Value>> {
    SettersFrom(CampaignMethods(), {TagsKey})
  }

  /** As written, the tags are never validated: an array, which the setter
      would reject, finds no setter and is stored as it is. */
  lemma TagsUnvalidatedAsWritten()
    ensures TagsKey !in CampaignSettersAsWritten()
    ensures SetNumberMatchingTags(Arr([])).Err?
  {
    assert SetterName(TagsKey)[3] == '_' != TagSetterMethod[3];
  }

  /** The setters the comments around `set('number_matching_tags', …)` mean:
      the tags always pass through the validator. */
  function CampaignSetters(): map<string, Value -> Result<Value>> {
    map[TagsKey := SetNumberMatchingTags]
  }

  /** Assigning the tags of a campaign whose setters validate them: what is
      stored is always a plain object, and invalid tags store nothing. */
  method AssignTags(campaign: Models.Model, tags: Value) returns (r: Result<Value>)
    requires campaign.Valid() && campaign.setters == CampaignSetters()
    modifies campaign.store
    ensures campaign.Valid()
    ensures !(tags.Str? || tags.Obj?) ==> r == Err(TagsMessage) && campaign.store.buckets == old(campaign.store.buckets)
    ensures campaign.data.Some? || SetNumberMatchingTags(tags).Err? ==> r == SetNumberMatchingTags(tags)
    ensures campaign.data.None? && SetNumberMatchingTags(tags).Ok? ==> r == Err(TypeError)
    ensures r.Ok? ==> r.value.Obj? && campaign.data.Some? && Js.Get(campaign.Record(), TagsKey) == Some(r.value)
    ensures r.Ok? ==>
      campaign.store.buckets == Data.Assigned(old(campaign.store.buckets), campaign.kind, campaign.data.value.primaryKey,
                                              Put(old(campaign.Record()), TagsKey, r.value))
    ensures r.Err? ==> campaign.store.buckets == old(campaign.store.buckets)
  {
    r := campaign.Set(TagsKey, tags);
    if r.Ok? {
      var d := campaign.data.value;
      var next := Put(old(campaign.Record()), TagsKey, r.value);
      Data.AssignedRecords(old(campaign.store.buckets), d.kind, d.primaryKey, next, d.kind, d.primaryKey);
      PutGet(old(campaign.Record()), TagsKey, r.value, TagsKey);
    }
  }

  // ----- requestNumber: arguments and dispatch -----

  /** A callback argument: a value the caller passed (possibly
      `undefined`), or the empty function the code substitutes. */
  datatype Callback = Given(v: Value) | NoOp

  /** `typeof cb === 'function'`. */
  predicate IsFunction(cb: Callback) {
    cb.NoOp? || cb.v.Func?
  }

  /** The arguments `requestNumber` works with after normalisation. */
  datatype RequestArgs = RequestArgs(tags: Value, callback: Callback, errorCallback: Callback)

  /** `requestNumber(tagsOrCallback, callback, errorCallback)`: a function
      first means no tags and the second argument is the error callback;
      otherwise falsy tags become `{}`; a missing success callback becomes
      the empty function. The error callback is never defaulted. */
  function NormalizeArgs(first: Value, second: Callback, third: Callback): (a: RequestArgs)
    ensures first.Func? ==> (a.tags == Obj([]) && a.errorCallback == second &&
      a.callback == Given(first))
    ensures !first.Func? ==> (a.tags == (if Truthy(first) then first else Obj([])) && a.errorCallback == third &&
      a.callback == (if second == Given(Undefined) then NoOp else second))
    ensures a.callback != Given(Undefined)
  {
    var chosen := if first.Func? then RequestArgs(Obj([]), Given(first), second)
                  else RequestArgs(if Truthy(first) then first else Obj([]), second, third);
    if chosen.callback == Given(Undefined) then chosen.(callback := NoOp) else chosen
  }

  /** `autoReplaceNumbers(tags, callback, errorCallback)`: both callbacks
      default to the empty function before `requestNumber` is called. */
  function AutoReplaceArgs(tags: Value, callback: Callback, errorCallback: Callback): RequestArgs {
    var cb := if callback == Given(Undefined) then NoOp else callback;
    var err := if errorCallback == Given(Undefined) then NoOp else errorCallback;
    NormalizeArgs(if Truthy(tags) then tags else Obj([]), cb, err)
  }

  /** What the response callback does with `data`. */
  datatype Outcome =
    | Success(number: Value)       // the number is stored and the success callback called with it (a
                                   // non-function callback then throws; see `Respond`)
    | Failure(data: Value)         // the error callback is called with the data
    | Silent                       // no callback is called
    | Thrown(msg: string)          // reading `data.number` throws

  /** The response test: `data` and `data.number` defined and the number
      not the empty string. */
  function Dispatch(data: Value, args: RequestArgs): (o: Outcome)
    ensures o.Thrown? <==> data.Null?
    ensures o.Thrown? ==> o.msg == TypeError
    ensures o.Success? <==> (!data.Undefined? && !data.Null? &&
      Prop(data, "number").value != Undefined && Prop(data, "number").value != Str(""))
    ensures o.Success? ==> o.number == Prop(data, "number").value
    ensures o.Failure? <==> !o.Success? && !o.Thrown? && IsFunction(args.errorCallback)
    ensures o.Failure? ==> o.data == data
  {
    if data.Undefined? then (if IsFunction(args.errorCallback) then Failure(data) else Silent)
    else match Prop(data, "number")
      case None => Thrown(TypeError)
      case Some(n) =>
        if n != Undefined && n != Str("") then Success(n)
        else if IsFunction(args.errorCallback) then Failure(data)
        else Silent
  }

  /** The response callback as a whole. On the success branch the number
      object is built first, then the replacement numbers of the response
      are applied to the page body and its links, then the success callback
      is called. Each step can throw, and a throw ends the callback: the
      construction when the number lacks its primary key, the replacement
      step when `replacement_numbers` is `null` or one of its texts to find
      is empty, and the call when the success callback is not a function.
      Off the success branch nothing is stored and no link changes. */
  method Respond(data: Value, args: RequestArgs, registry: Models.Registry, store: Data.Store, jar: Cookies.CookieJar,
                 links: array<Option<string>>, body: FindReplaceText.Node)
    returns (o: Outcome)
    modifies registry, store, jar, links
    ensures !Dispatch(data, args).Success? ==> o == Dispatch(data, args) && unchanged(registry, store, jar, links)
    ensures Dispatch(data, args).Success? ==>
      var number := Dispatch(data, args).number;
      var built := Helpers.Defined(number, Numbers.KeyOf(old(registry.primaryKeys)));
      var rns := ReplacementField(number);
      var pairs := PairsOf(rns);
      (o.Success? <==> built && !rns.Null? && (forall k :: 0 <= k < |pairs| ==> pairs[k].find != "") && IsFunction(args.callback)) &&
      (o.Success? ==> o == Dispatch(data, args)) &&
      (!o.Success? ==> o.Thrown?) &&
      (!built ==> o.msg == if number.Null? then TypeError else Models.MissingKeyMessage(Numbers.KeyOf(old(registry.primaryKeys)))) &&
      (built && rns.Null? ==> o.msg == TypeError) &&
      (built && !rns.Null? && PairsDone(pairs) < |pairs| ==> o.msg == FindReplaceText.ZeroLengthError) &&
      links[..] == if built && !rns.Null? then ApplyPairs(old(links[..]), pairs[..PairsDone(pairs)]) else old(links[..])
    ensures Dispatch(data, args).Success? ==>
      var number := Dispatch(data, args).number;
      var pk := Numbers.KeyOf(old(registry.primaryKeys));
      var slot := ToStr(Prop(number, pk).GetOr(Undefined));
      registry.primaryKeys == old(registry.primaryKeys)[Numbers.NumberType := pk] &&
      Numbers.OtherTypesKept(old(store.buckets), store.buckets) &&
      (Helpers.Defined(number, pk) ==>
        Numbers.ActiveAt(store.buckets, slot) &&
        Data.RecordAt(store.buckets, Numbers.NumberType, slot) == Numbers.BuiltRecord(old(store.buckets), slot, number) &&
        Numbers.OthersKept(old(store.buckets), store.buckets, slot) &&
        jar.written == old(jar.written) + Models.VisitorWrites(old(jar.defaults), jar.encode, number)) &&
      (!Helpers.Defined(number, pk) ==> store.buckets == old(store.buckets) && jar.written == old(jar.written))
  {
    o := Dispatch(data, args);
    if o.Success? {
      var made := Numbers.NewNumber(registry, store, jar, o.number);
      if made.Err? {
        o := Thrown(made.msg);
        return;
      }
      var rns := ReplacementField(o.number);
      if rns.Null? {
        o := Thrown(TypeError);
        return;
      }
      var pairs := PairsOf(rns);
      var done := FindAndReplaceNumber(links, body, pairs);
      if done.Err? {
        o := Thrown(done.msg);
        return;
      }
      if !IsFunction(args.callback) {
        o := Thrown(TypeError);
      }
    }
  }

  /** With `autoReplaceNumbers`, every response that can be read reaches a
      callback. */
  lemma AutoReplaceAnswers(tags: Value, callback: Callback, errorCallback: Callback, data: Value)
    requires !tags.Func? && !data.Null? && IsFunction(if errorCallback == Given(Undefined) then NoOp else errorCallback)
    ensures Dispatch(data, AutoReplaceArgs(tags, callback, errorCallback)).Success? ||
      Dispatch(data, AutoReplaceArgs(tags, callback, errorCallback)).Failure?
  {
  }

  // ----- numbers() / getNumbers() -----

  /** The stored numbers whose `campaign_key` is strictly equal to the
      campaign's, in store order. */
  function MatchingNumbers(numbers: Data.Bucket, key: Value): seq<Data.Record>
    decreases |numbers|
  {
    if numbers == [] then []
    else
      var rec := numbers[|numbers| - 1].1;
      MatchingNumbers(numbers[..|numbers| - 1], key) + (if Numbers.Field(rec, "campaign_key") == key then [rec] else [])
  }

  /** A listed record is stored with the campaign's key. */
  lemma {:induction false} MatchingNumbersSound(numbers: Data.Bucket, key: Value, rec: Data.Record)
    requires rec in MatchingNumbers(numbers, key)
    ensures Numbers.Field(rec, "campaign_key") == key
    ensures exists j :: 0 <= j < |numbers| && numbers[j].1 == rec
    decreases |numbers|
  {
    var n := |numbers| - 1;
    var init := numbers[..n];
    var last := numbers[n].1;
    var tail := if Numbers.Field(last, "campaign_key") == key then [last] else [];
    assert MatchingNumbers(numbers, key) == MatchingNumbers(init, key) + tail;
    if rec in MatchingNumbers(init, key) {
      MatchingNumbersSound(init, key, rec);
      var j :| 0 <= j < |init| && init[j].1 == rec;
      assert numbers[j] == init[j];
    } else {
      assert rec == last;
    }
  }

  /** Every number stored with the campaign's key is listed. */
  lemma {:induction false} MatchingNumbersComplete(numbers: Data.Bucket, key: Value, j: nat)
    requires j < |numbers| && Numbers.Field(numbers[j].1, "campaign_key") == key
    ensures numbers[j].1 in MatchingNumbers(numbers, key)
    decreases |numbers|
  {
    var n := |numbers| - 1;
    var init := numbers[..n];
    var last := numbers[n].1;
    var tail := if Numbers.Field(last, "campaign_key") == key then [last] else [];
    assert MatchingNumbers(numbers, key) == MatchingNumbers(init, key) + tail;
    if j == n {
      assert tail == [last];
    } else {
      assert init[j] == numbers[j];
      MatchingNumbersComplete(init, key, j);
    }
  }

  lemma MatchingNumbersSnoc(numbers: Data.Bucket, i: nat, key: Value)
    requires i < |numbers|
    ensures var rec := numbers[i].1;
      MatchingNumbers(numbers[..i + 1], key) ==
        MatchingNumbers(numbers[..i], key) + (if Numbers.Field(rec, "campaign_key") == key then [rec] else [])
  {
    assert numbers[..i + 1][..i] == numbers[..i];
  }

  /** The stored numbers of a table, in store order. */
  function NumbersIn(b: map<string, Data.Bucket>): Data.Bucket {
    if Numbers.NumberType in b then b[Numbers.NumberType] else []
  }

  /** The slot a number object built from `rec` is stored under. */
  function SlotOf(rec: Data.Record, pk: string): string {
    ToStr(Prop(Obj(rec), pk).value)
  }

  /** The number objects built from `recs`, one each: number objects on
      the shared store under the records' slots, which are active in `b`. */
  ghost predicate Built(models: seq<Models.Model>, recs: seq<Data.Record>, pk: string, store: Data.Store,
                        b: map<string, Data.Bucket>)
    reads set m | m in models
  {
    |models| == |recs| &&
    forall j :: 0 <= j < |models| ==>
      models[j].kind == Numbers.NumberType && models[j].store == store && models[j].data.Some? &&
      models[j].data.value.primaryKey == SlotOf(recs[j], pk) && Numbers.ActiveAt(b, SlotOf(recs[j], pk))
  }

  /** Every record carries the primary key. */
  ghost predicate AllDefined(recs: seq<Data.Record>, pk: string) {
    forall j :: 0 <= j < |recs| ==> Helpers.Defined(Obj(recs[j]), pk)
  }

  lemma AllDefinedSnoc(recs: seq<Data.Record>, rec: Data.Record, pk: string)
    requires AllDefined(recs, pk) && Helpers.Defined(Obj(rec), pk)
    ensures AllDefined(recs + [rec], pk)
  {
  }

  lemma AllDefinedMembers(recs: seq<Data.Record>, pk: string)
    requires AllDefined(recs, pk)
    ensures forall rec :: rec in recs ==> Helpers.Defined(Obj(rec), pk)
  {
  }

  /** One construction of the listing: `new RetreaverNumber(rec)` builds a
      number object on the shared store and marks its slot active, leaving
      every other number record as it was. */
  method BuildNumber(registry: Models.Registry, store: Data.Store, jar: Cookies.CookieJar, rec: Data.Record, ghost pk: string)
    returns (made: Result<Models.Model>)
    requires Numbers.KeyOf(registry.primaryKeys) == pk
    modifies registry, store, jar
    ensures Numbers.KeyOf(registry.primaryKeys) == pk
    ensures made.Ok? <==> Helpers.Defined(Obj(rec), pk)
    ensures made.Err? ==> made.msg == Models.MissingKeyMessage(pk)
    ensures registry.primaryKeys == old(registry.primaryKeys)[Numbers.NumberType := pk]
    ensures jar.defaults == old(jar.defaults)
    ensures made.Err? ==> store.buckets == old(store.buckets) && jar.written == old(jar.written)
    ensures made.Ok? ==>
      fresh(made.value) && made.value.kind == Numbers.NumberType && made.value.store == store &&
      made.value.data.Some? && made.value.data.value.primaryKey == SlotOf(rec, pk) &&
      Numbers.ActiveAt(store.buckets, SlotOf(rec, pk)) && Numbers.OthersKept(old(store.buckets), store.buckets, SlotOf(rec, pk))
    ensures made.Ok? ==>
      store.buckets == Numbers.BuiltBuckets(old(store.buckets), SlotOf(rec, pk), Obj(rec)) &&
      jar.written == old(jar.written) + Models.VisitorWrites(old(jar.defaults), jar.encode, Obj(rec))
  {
    made := Numbers.NewNumber(registry, store, jar, Obj(rec));
  }

  /** Writing one slot keeps the numbers built so far active. */
  lemma BuiltSnoc(built: seq<Models.Model>, recs: seq<Data.Record>, pk: string, store: Data.Store,
                  b0: map<string, Data.Bucket>, b1: map<string, Data.Bucket>, m: Models.Model, rec: Data.Record)
    requires Built(built, recs, pk, store, b0)
    requires m.kind == Numbers.NumberType && m.store == store && m.data.Some? && m.data.value.primaryKey == SlotOf(rec, pk)
    requires Numbers.ActiveAt(b1, SlotOf(rec, pk)) && Numbers.OthersKept(b0, b1, SlotOf(rec, pk))
    ensures Built(built + [m], recs + [rec], pk, store, b1)
  {
    var all, rs := built + [m], recs + [rec];
    forall j | 0 <= j < |all|
      ensures all[j].kind == Numbers.NumberType && all[j].store == store && all[j].data.Some? &&
        all[j].data.value.primaryKey == SlotOf(rs[j], pk) && Numbers.ActiveAt(b1, SlotOf(rs[j], pk))
    {
      if j < |built| {
        assert all[j] == built[j] && rs[j] == recs[j];
        assert Numbers.ActiveAt(b0, SlotOf(recs[j], pk));
      }
    }
  }

  /** The state of the listing loop: `output` are the number objects built
      from `matched`, all carrying the primary key `pk`. */
  ghost predicate Listing(registry: Models.Registry, store: Data.Store, output: seq<Models.Model>, matched: seq<Data.Record>, pk: string)
    reads registry, store, set m | m in output
  {
    Numbers.KeyOf(registry.primaryKeys) == pk && AllDefined(matched, pk) && Built(output, matched, pk, store, store.buckets)
  }

  /** What the listing started from: the registered primary keys, the
      table, the cookies written and the cookie defaults. */
  datatype Snapshot = Snapshot(keys: map<string, string>, buckets: map<string, Data.Bucket>,
                               written: seq<string>, defaults: Cookies.CookieDefaults)

  /** The shared state once number objects were built from `matched`:
      each construction applied to the table and its visitor cookie
      written, and the numbers' primary key registered once any
      construction ran (`touched`). */
  ghost predicate Traced(registry: Models.Registry, store: Data.Store, jar: Cookies.CookieJar, start: Snapshot,
                         matched: seq<Data.Record>, pk: string, touched: bool)
    reads registry, store, jar
  {
    jar.defaults == start.defaults &&
    registry.primaryKeys == (if touched then start.keys[Numbers.NumberType := pk] else start.keys) &&
    Numbers.OtherTypesKept(start.buckets, store.buckets) &&
    jar.written == start.written + ListedWrites(start.defaults, jar.encode, matched)
  }

  /** A record of the campaign met by the listing loop becomes a number
      object; a construction that throws has registered the key and
      written nothing. */
  method VisitNumber(registry: Models.Registry, store: Data.Store, jar: Cookies.CookieJar, rec: Data.Record,
                     output: seq<Models.Model>, ghost pk: string, ghost matched: seq<Data.Record>,
                     ghost start: Snapshot, ghost touched: bool)
    returns (r: Result<seq<Models.Model>>)
    requires Listing(registry, store, output, matched, pk)
    requires Traced(registry, store, jar, start, matched, pk, touched)
    modifies registry, store, jar
    ensures r.Err? ==> !Helpers.Defined(Obj(rec), pk) && r.msg == Models.MissingKeyMessage(pk)
    ensures r.Err? ==> Traced(registry, store, jar, start, matched, pk, true)
    ensures r.Ok? ==> Listing(registry, store, r.value, matched + [rec], pk)
    ensures r.Ok? ==> Traced(registry, store, jar, start, matched + [rec], pk, true)
    ensures r.Ok? ==> forall m :: m in r.value ==> m in output || fresh(m)
  {
    ghost var b0 := store.buckets;
    var made := TraceNumber(registry, store, jar, rec, pk, start, matched, touched);
    if made.Err? {
      return Err(made.msg);
    }
    assert Built(output, matched, pk, store, b0);
    BuiltSnoc(output, matched, pk, store, b0, store.buckets, made.value, rec);
    AllDefinedSnoc(matched, rec, pk);
    return Ok(output + [made.value]);
  }

  /** One construction of the listing, seen from the listing's start: the
      constructed record joins `matched` in the trace; a construction that
      throws leaves the trace as it was, the key registered. */
  method TraceNumber(registry: Models.Registry, store: Data.Store, jar: Cookies.CookieJar, rec: Data.Record, ghost pk: string,
                     ghost start: Snapshot, ghost matched: seq<Data.Record>, ghost touched: bool)
    returns (made: Result<Models.Model>)
    requires Numbers.KeyOf(registry.primaryKeys) == pk
    requires Traced(registry, store, jar, start, matched, pk, touched)
    modifies registry, store, jar
    ensures Numbers.KeyOf(registry.primaryKeys) == pk
    ensures made.Ok? <==> Helpers.Defined(Obj(rec), pk)
    ensures made.Err? ==> made.msg == Models.MissingKeyMessage(pk) && Traced(registry, store, jar, start, matched, pk, true)
    ensures made.Ok? ==>
      fresh(made.value) && made.value.kind == Numbers.NumberType && made.value.store == store &&
      made.value.data.Some? && made.value.data.value.primaryKey == SlotOf(rec, pk) &&
      Numbers.ActiveAt(store.buckets, SlotOf(rec, pk)) && Numbers.OthersKept(old(store.buckets), store.buckets, SlotOf(rec, pk))
    ensures made.Ok? ==> Traced(registry, store, jar, start, matched + [rec], pk, true)
  {
    made := BuildNumber(registry, store, jar, rec, pk);
    assert start.keys[Numbers.NumberType := pk][Numbers.NumberType := pk] == start.keys[Numbers.NumberType := pk];
    Numbers.OtherTypesKeptTrans(start.buckets, old(store.buckets), store.buckets);
    ListedWritesSnoc(start.defaults, jar.encode, start.written, matched, rec);
  }

  /** The visitor cookies the listing writes building number objects from
      `recs`, in order. */
  function ListedWrites(d: Cookies.CookieDefaults, encode: string -> string, recs: seq<Data.Record>): seq<string>
    decreases |recs|
  {
    if recs == [] then []
    else ListedWrites(d, encode, recs[..|recs| - 1]) + Models.VisitorWrites(d, encode, Obj(recs[|recs| - 1]))
  }

  /** One more number object built: one more visitor cookie. */
  lemma ListedWritesSnoc(d: Cookies.CookieDefaults, encode: string -> string, written: seq<string>,
                         recs: seq<Data.Record>, rec: Data.Record)
    ensures written + ListedWrites(d, encode, recs + [rec]) ==
      (written + ListedWrites(d, encode, recs)) + Models.VisitorWrites(d, encode, Obj(rec))
  {
    assert (recs + [rec])[..|recs|] == recs;
  }

  /** The records the listing gets through: those before the first one
      without the primary key. */
  ghost function ListedPrefix(recs: seq<Data.Record>, pk: string): seq<Data.Record>
    decreases |recs|
  {
    if recs == [] || !Helpers.Defined(Obj(recs[0]), pk) then []
    else [recs[0]] + ListedPrefix(recs[1..], pk)
  }

  /** When every record has the key, the listing gets through all of them. */
  lemma {:induction false} ListedPrefixAll(recs: seq<Data.Record>, pk: string)
    requires AllDefined(recs, pk)
    ensures ListedPrefix(recs, pk) == recs
    decreases |recs|
  {
    if recs != [] {
      assert AllDefined(recs[1..], pk) by {
        forall j | 0 <= j < |recs[1..]| ensures Helpers.Defined(Obj(recs[1..][j]), pk) {
          assert recs[1..][j] == recs[j + 1];
        }
      }
      ListedPrefixAll(recs[1..], pk);
    }
  }

  /** The listing stops at the first record without the key. */
  lemma {:induction false} ListedPrefixStops(pre: seq<Data.Record>, rec: Data.Record, rest: seq<Data.Record>, pk: string)
    requires AllDefined(pre, pk) && !Helpers.Defined(Obj(rec), pk)
    ensures ListedPrefix(pre + [rec] + rest, pk) == pre
    decreases |pre|
  {
    var all := pre + [rec] + rest;
    if pre == [] {
      assert all[0] == rec;
    } else {
      assert all[0] == pre[0] && all[1..] == pre[1..] + [rec] + rest;
      assert AllDefined(pre[1..], pk) by {
        forall j | 0 <= j < |pre[1..]| ensures Helpers.Defined(Obj(pre[1..][j]), pk) {
          assert pre[1..][j] == pre[j + 1];
        }
      }
      ListedPrefixStops(pre[1..], rec, rest, pk);
      assert all == [pre[0]] + (pre[1..] + [rec] + rest);
    }
  }

  /** The numbers matching in two runs of the table are those of each run,
      in order. */
  lemma {:induction false} MatchingNumbersAppend(a: Data.Bucket, c: Data.Bucket, key: Value)
    ensures MatchingNumbers(a + c, key) == MatchingNumbers(a, key) + MatchingNumbers(c, key)
    decreases |c|
  {
    if c == [] {
      assert a + c == a;
    } else {
      var n := |c| - 1;
      assert (a + c)[..|a + c| - 1] == a + c[..n];
      assert (a + c)[|a + c| - 1] == c[n];
      MatchingNumbersAppend(a, c[..n], key);
    }
  }

  /** The numbers matching in a table are those before `k`, then those
      from `k` on. */
  lemma MatchingNumbersSplit(numbers: Data.Bucket, k: nat, key: Value)
    requires k <= |numbers|
    ensures MatchingNumbers(numbers, key) == MatchingNumbers(numbers[..k], key) + MatchingNumbers(numbers[k..], key)
  {
    assert numbers == numbers[..k] + numbers[k..];
    MatchingNumbersAppend(numbers[..k], numbers[k..], key);
  }

  /** The listing throws at the record at `i`: the records it got through
      are those matched before it. */
  lemma ListingStops(numbers: Data.Bucket, key: Value, i: nat, matched: seq<Data.Record>, pk: string)
    requires i < |numbers| && Numbers.Field(numbers[i].1, "campaign_key") == key && !Helpers.Defined(Obj(numbers[i].1), pk)
    requires matched == MatchingNumbers(numbers[..i], key) && AllDefined(matched, pk)
    ensures var matching := MatchingNumbers(numbers, key);
      matching != [] && ListedPrefix(matching, pk) == matched &&
      !(forall rec :: rec in matching ==> Helpers.Defined(Obj(rec), pk))
  {
    var rec := numbers[i].1;
    MatchingNumbersComplete(numbers, key, i);
    MatchingNumbersSnoc(numbers, i, key);
    MatchingNumbersSplit(numbers, i + 1, key);
    ListedPrefixStops(matched, rec, MatchingNumbers(numbers[i + 1..], key), pk);
  }

  /** The listing went through the whole table: it got through every
      matching record, and each carries the primary key. */
  lemma ListingCompletes(numbers: Data.Bucket, key: Value, matched: seq<Data.Record>, pk: string)
    requires matched == MatchingNumbers(numbers[..|numbers|], key) && AllDefined(matched, pk)
    ensures matched == MatchingNumbers(numbers, key)
    ensures ListedPrefix(matched, pk) == matched
    ensures forall rec :: rec in matched ==> Helpers.Defined(Obj(rec), pk)
  {
    assert numbers[..|numbers|] == numbers;
    AllDefinedMembers(matched, pk);
    ListedPrefixAll(matched, pk);
  }

  /** `numbers()`: a number object is built from every stored number of
      the campaign, in store order. Each construction merges its record
      back into the table and marks it active, so every listed number is
      active afterwards; a record without the primary key makes the
      constructor, and so the listing, throw. The records got through
      before that write their visitor cookies, the numbers' primary key is
      registered once any construction ran, and no table of another type
      is touched. */
  method CampaignNumbers(registry: Models.Registry, store: Data.Store, jar: Cookies.CookieJar, key: Value)
    returns (r: Result<seq<Models.Model>>)
    modifies registry, store, jar
    ensures var matching := MatchingNumbers(NumbersIn(old(store.buckets)), key);
      var pk := Numbers.KeyOf(old(registry.primaryKeys));
      (r.Ok? <==> forall rec :: rec in matching ==> Helpers.Defined(Obj(rec), pk)) &&
      (r.Err? ==> r.msg == Models.MissingKeyMessage(pk)) &&
      (r.Ok? ==> Built(r.value, matching, pk, store, store.buckets) &&
                 forall m :: m in r.value ==> fresh(m))
    ensures var matching := MatchingNumbers(NumbersIn(old(store.buckets)), key);
      var pk := Numbers.KeyOf(old(registry.primaryKeys));
      var listed := ListedPrefix(matching, pk);
      (r.Ok? ==> listed == matching) &&
      Numbers.OtherTypesKept(old(store.buckets), store.buckets) &&
      jar.written == old(jar.written) + ListedWrites(old(jar.defaults), jar.encode, listed) &&
      jar.defaults == old(jar.defaults) &&
      registry.primaryKeys == if matching == [] then old(registry.primaryKeys)
                              else old(registry.primaryKeys)[Numbers.NumberType := pk]
  {
    var numbers := NumbersIn(store.buckets);
    ghost var pk := Numbers.KeyOf(registry.primaryKeys);
    ghost var start := Snapshot(registry.primaryKeys, store.buckets, jar.written, jar.defaults);
    ghost var stop;
    r, stop := ListNumbers(registry, store, jar, numbers, key, pk, start);
    if r.Err? {
      ListingStops(numbers, key, stop, MatchingNumbers(numbers[..stop], key), pk);
    } else {
      ListingCompletes(numbers, key, MatchingNumbers(numbers[..|numbers|], key), pk);
    }
  }

  /** The loop of `numbers()` over `numbers`: on success `matched` are all
      the matching records; on the missing-key error they are those before
      the record at `stop`, the one that threw. */
  method ListNumbers(registry: Models.Registry, store: Data.Store, jar: Cookies.CookieJar, numbers: Data.Bucket, key: Value,
                     ghost pk: string, ghost start: Snapshot)
    returns (r: Result<seq<Models.Model>>, ghost stop: nat)
    requires Numbers.KeyOf(registry.primaryKeys) == pk
    requires Traced(registry, store, jar, start, [], pk, false)
    modifies registry, store, jar
    ensures r.Ok? ==> Progress(registry, store, jar, start, numbers, key, |numbers|, r.value, pk)
    ensures r.Ok? ==> forall m :: m in r.value ==> fresh(m)
    ensures r.Err? ==> r.msg == Models.MissingKeyMessage(pk) && Stopped(registry, store, jar, start, numbers, key, stop, pk)
  {
    stop := 0;
    var output: seq<Models.Model> := [];
    var i := 0;
    while i < |numbers|
      invariant Progress(registry, store, jar, start, numbers, key, i, output, pk)
      invariant forall m :: m in output ==> fresh(m)
    {
      var step := StepNumber(registry, store, jar, numbers, key, i, output, pk, start);
      if step.Err? {
        return Err(step.msg), i;
      }
      output := step.value;
      i := i + 1;
    }
    return Ok(output), stop;
  }

  /** The listing after its first `i` stored numbers: the records of the
      campaign among them built, in order, and traced from the start. */
  ghost predicate Progress(registry: Models.Registry, store: Data.Store, jar: Cookies.CookieJar, start: Snapshot,
                           numbers: Data.Bucket, key: Value, i: nat, output: seq<Models.Model>, pk: string)
    reads registry, store, jar, set m | m in output
  {
    i <= |numbers| &&
    Listing(registry, store, output, MatchingNumbers(numbers[..i], key), pk) &&
    Traced(registry, store, jar, start, MatchingNumbers(numbers[..i], key), pk, MatchingNumbers(numbers[..i], key) != [])
  }

  /** The listing stopped at the stored number at `i`: a record of the
      campaign without the primary key, every record before it built. */
  ghost predicate Stopped(registry: Models.Registry, store: Data.Store, jar: Cookies.CookieJar, start: Snapshot,
                          numbers: Data.Bucket, key: Value, i: nat, pk: string)
    reads registry, store, jar
  {
    i < |numbers| && Numbers.Field(numbers[i].1, "campaign_key") == key && !Helpers.Defined(Obj(numbers[i].1), pk) &&
    AllDefined(MatchingNumbers(numbers[..i], key), pk) &&
    Traced(registry, store, jar, start, MatchingNumbers(numbers[..i], key), pk, true)
  }

  /** The listing's pass over a stored number at `i` that belongs to
      another campaign: it is skipped. */
  lemma ProgressSkip(registry: Models.Registry, store: Data.Store, jar: Cookies.CookieJar, start: Snapshot,
                     numbers: Data.Bucket, key: Value, i: nat, output: seq<Models.Model>, pk: string)
    requires i < |numbers| && Numbers.Field(numbers[i].1, "campaign_key") != key
    requires Progress(registry, store, jar, start, numbers, key, i, output, pk)
    ensures Progress(registry, store, jar, start, numbers, key, i + 1, output, pk)
  {
    MatchingNumbersSnoc(numbers, i, key);
    assert MatchingNumbers(numbers[..i + 1], key) == MatchingNumbers(numbers[..i], key);
  }

  /** The listing's pass over the stored number at `i`. */
  method StepNumber(registry: Models.Registry, store: Data.Store, jar: Cookies.CookieJar, numbers: Data.Bucket, key: Value,
                    i: nat, output: seq<Models.Model>, ghost pk: string, ghost start: Snapshot)
    returns (r: Result<seq<Models.Model>>)
    requires i < |numbers|
    requires Progress(registry, store, jar, start, numbers, key, i, output, pk)
    modifies registry, store, jar
    ensures r.Ok? ==> Progress(registry, store, jar, start, numbers, key, i + 1, r.value, pk)
    ensures r.Ok? ==> forall m :: m in r.value ==> m in output || fresh(m)
    ensures r.Err? ==> r.msg == Models.MissingKeyMessage(pk) && Stopped(registry, store, jar, start, numbers, key, i, pk)
  {
    if Numbers.Field(numbers[i].1, "campaign_key") != key {
      ProgressSkip(registry, store, jar, start, numbers, key, i, output, pk);
      return Ok(output);
    }
    MatchingNumbersSnoc(numbers, i, key);
    r := VisitNumber(registry, store, jar, numbers[i].1, output, pk, MatchingNumbers(numbers[..i], key), start,
                     MatchingNumbers(numbers[..i], key) != []);
  }

  // ----- getIntegrationConfig -----

  /** `getIntegrationConfig(number, name)`: nothing unless the number's
      `integrations` is an object holding a defined entry under the name;
      `null` passes the `typeof` test and the read then throws. An array
      also passes the test; its entries are read as `undefined` here. An
      array's `length` and index keys are never asked for, because the
      names read are `google_analytics`, `truecall.com`, `red_track` and
      `click_flare`. */
  function IntegrationConfig(rec: Data.Record, name: string): (r: Result<Option<Value>>)
    ensures r.Err? <==> Numbers.Field(rec, "integrations").Null?
    ensures r.Err? ==> r.msg == TypeError
    ensures r.Ok? && r.value.Some? ==>
      Numbers.Field(rec, "integrations").Obj? && r.value.value != Undefined &&
      Js.Get(Numbers.Field(rec, "integrations").fields, name) == Some(r.value.value)
    ensures (Numbers.Field(rec, "integrations").Obj? && Js.Get(Numbers.Field(rec, "integrations").fields, name).Some? &&
      Js.Get(Numbers.Field(rec, "integrations").fields, name).value != Undefined) ==>
      r == Ok(Js.Get(Numbers.Field(rec, "integrations").fields, name))
  {
    var integrations := Numbers.Field(rec, "integrations");
    if TypeOf(integrations) != "object" then Ok(None)
    else match Prop(integrations, name)
      case None => Err(TypeError)
      case Some(config) =>
        if config == Undefined then Ok(None)
        else if integrations.Obj? then Ok(Some(config))
        else Ok(None)
  }

  // ----- findAndReplaceNumber -----

  /** A replacement number of the response: the text to find and what
      replaces it. */
  datatype ReplacementNumber = ReplacementNumber(find: string, replaceWith: string)

  /** Reading `v[k]` gives a string. */
  predicate StringAt(v: Value, k: string) {
    Prop(v, k).Some? && Prop(v, k).value.Str?
  }

  /** The entries of a `replacement_numbers` array, when every entry has a
      string `find` and a string `replace_with`. */
  function ReplacementPairs(items: seq<Value>): (r: Option<seq<ReplacementNumber>>)
    ensures r.Some? <==> forall k :: 0 <= k < |items| ==> StringAt(items[k], "find") && StringAt(items[k], "replace_with")
    ensures r.Some? ==> (|r.value| == |items| && forall k :: 0 <= k < |items| ==>
      Prop(items[k], "find") == Some(Str(r.value[k].find)) && Prop(items[k], "replace_with") == Some(Str(r.value[k].replaceWith)))
  {
    if items == [] then Some([])
    else
      var rest := ReplacementPairs(items[1..]);
      if StringAt(items[0], "find") && StringAt(items[0], "replace_with") && rest.Some? then
        Some([ReplacementNumber(Prop(items[0], "find").value.s, Prop(items[0], "replace_with").value.s)] + rest.value)
      else None
  }

  /** `data.number.replacement_numbers` of a number that can be read. */
  function ReplacementField(number: Value): Value {
    Prop(number, "replacement_numbers").GetOr(Undefined)
  }

  /** The pairs the replacement step works through: those of an array of
      well-formed entries; any other value that is neither `undefined` nor
      `null` has no entries to work through. */
  function PairsOf(rns: Value): seq<ReplacementNumber> {
    if rns.Arr? && ReplacementPairs(rns.items).Some? then ReplacementPairs(rns.items).value else []
  }

  /** The length of the prefix `^(tel:|clk[a-z]\/tel\/)` matches, if any. */
  function TelPrefix(href: string): (n: Option<nat>)
    ensures n.Some? ==> n.value <= |href|
    ensures n == Some(4) <==> |href| >= 4 && href[..4] == "tel:"
    ensures n.Some? <==> ((|href| >= 4 && href[..4] == "tel:") ||
      (|href| >= 9 && href[..3] == "clk" && 'a' <= href[3] <= 'z' && href[4..9] == "/tel/"))
  {
    if |href| >= 4 && href[..4] == "tel:" then Some(4)
    else if |href| >= 9 && href[..3] == "clk" && 'a' <= href[3] <= 'z' && href[4..9] == "/tel/" then Some(9)
    else None
  }

  /** One link's `href` after one replacement pair: a `tel:` or click-tracked
      `tel` link whose number (up to a line break) is exactly the text to
      find gets the replacement after the same prefix; links without an
      `href` and all other links are left alone. */
  function HrefRewrite(href: Option<string>, rn: ReplacementNumber): Option<string> {
    if href.None? then href
    else
      var h := href.value;
      match TelPrefix(h)
      case None => href
      case Some(n) => if LineRest(h[n..]) == rn.find then Some(h[..n] + rn.replaceWith) else href
  }

  /** A rewritten link keeps its prefix and carries the replacement;
      a link that changes had the prefix and the exact number. */
  lemma HrefRewriteChanges(href: Option<string>, rn: ReplacementNumber)
    ensures HrefRewrite(href, rn).Some? <==> href.Some?
    ensures HrefRewrite(href, rn) != href ==>
      var h := href.value;
      TelPrefix(h).Some? && LineRest(h[TelPrefix(h).value..]) == rn.find &&
      HrefRewrite(href, rn) == Some(h[..TelPrefix(h).value] + rn.replaceWith) &&
      TelPrefix(HrefRewrite(href, rn).value) == TelPrefix(h)
  {
    if href.Some? && TelPrefix(href.value).Some? {
      var h := href.value;
      var n := TelPrefix(h).value;
      var h' := h[..n] + rn.replaceWith;
      assert h'[..n] == h[..n];
      if n == 9 {
        assert h'[..3] == h[..3] && h'[3] == h[3] && h'[4..9] == h[4..9];
        assert h'[..4] != "tel:" by {
          assert h[..3] == "clk";
          assert h'[0] == 'c';
        }
      } else {
        assert h'[..4] == "tel:";
      }
    }
  }

  /** A `tel:` link holding exactly the number to find is rewritten. */
  lemma TelLinkRewritten(rn: ReplacementNumber)
    requires forall i :: 0 <= i < |rn.find| ==> !LineTerminator(rn.find[i])
    ensures HrefRewrite(Some("tel:" + rn.find), rn) == Some("tel:" + rn.replaceWith)
  {
    var h := "tel:" + rn.find;
    assert h[..4] == "tel:" && h[4..] == rn.find;
    LineRestWhole(rn.find);
  }

  /** Every link's `href` after one pair. */
  function RewriteAll(hrefs: seq<Option<string>>, rn: ReplacementNumber): (r: seq<Option<string>>)
    ensures |r| == |hrefs| && forall j :: 0 <= j < |hrefs| ==> r[j] == HrefRewrite(hrefs[j], rn)
  {
    seq(|hrefs|, j requires 0 <= j < |hrefs| => HrefRewrite(hrefs[j], rn))
  }

  /** The links after the pairs, applied in array order. */
  function ApplyPairs(hrefs: seq<Option<string>>, pairs: seq<ReplacementNumber>): seq<Option<string>>
    decreases |pairs|
  {
    if pairs == [] then hrefs
    else RewriteAll(ApplyPairs(hrefs, pairs[..|pairs| - 1]), pairs[|pairs| - 1])
  }

  /** The pairs are applied one after another: applying a list is applying
      its first part and then the rest. */
  lemma {:induction false} ApplyPairsAppend(hrefs: seq<Option<string>>, first: seq<ReplacementNumber>, rest: seq<ReplacementNumber>)
    ensures ApplyPairs(hrefs, first + rest) == ApplyPairs(ApplyPairs(hrefs, first), rest)
    decreases |rest|
  {
    if rest != [] {
      var n := |rest| - 1;
      assert (first + rest)[..|first + rest| - 1] == first + rest[..n];
      assert (first + rest)[|first + rest| - 1] == rest[n];
      ApplyPairsAppend(hrefs, first, rest[..n]);
    } else {
      assert first + rest == first;
    }
  }

  /** The links keep their number, and a link without an `href` keeps none. */
  lemma {:induction false} ApplyPairsShape(hrefs: seq<Option<string>>, pairs: seq<ReplacementNumber>, j: nat)
    requires j < |hrefs|
    ensures |ApplyPairs(hrefs, pairs)| == |hrefs|
    ensures hrefs[j].None? ==> ApplyPairs(hrefs, pairs)[j].None?
    decreases |pairs|
  {
    if pairs != [] {
      ApplyPairsShape(hrefs, pairs[..|pairs| - 1], j);
    }
  }

  /** The options of the body-text replacement for one pair. */
  function BodyOptions(rn: ReplacementNumber): FindReplaceText.Options {
    FindReplaceText.Options(rn.find, None, Some(rn.replaceWith), None, None, None, None)
  }

  /** The options the engine runs with for one pair: the pair's text to
      find and replacement, with the portion mode defaulted to `retain`. */
  function BodyConfig(rn: ReplacementNumber): FindReplaceText.Options {
    BodyOptions(rn).(portionMode := Some(FindReplaceText.RetainMode))
  }

  /** `BodyConfig` is what the engine's option handling makes of the
      pair's options: no preset fills anything in. */
  lemma BodyConfigured(rn: ReplacementNumber)
    ensures FindReplaceText.Configure(BodyOptions(rn)) == BodyConfig(rn)
  {
  }

  /** The inner loop: rewrites the `href` of every link for one pair. */
  method RewriteLinks(links: array<Option<string>>, rn: ReplacementNumber)
    modifies links
    ensures links[..] == RewriteAll(old(links[..]), rn)
  {
    var j := 0;
    while j < links.Length
      invariant 0 <= j <= links.Length
      invariant forall i :: 0 <= i < j ==> links[i] == HrefRewrite(old(links[i]), rn)
      invariant forall i :: j <= i < links.Length ==> links[i] == old(links[i])
    {
      var href := links[j];
      if href.Some? {
        match TelPrefix(href.value)
        case None =>
        case Some(n) =>
          if LineRest(href.value[n..]) == rn.find {
            links[j] := Some(href.value[..n] + rn.replaceWith);
          }
      }
      j := j + 1;
    }
  }

  /** The engine's search over the page body: every body yields a run to
      search, so the engine throws exactly when the text to find is empty. */
  lemma BodySearchFails(body: FindReplaceText.Node, rn: ReplacementNumber)
    ensures var c := FindReplaceText.Configure(BodyOptions(rn));
      FindReplaceText.Search(FindReplaceText.Aggregate(body, c), c.find).Err? <==> rn.find == ""
  {
    var c := FindReplaceText.Configure(BodyOptions(rn));
    var runs := FindReplaceText.Aggregate(body, c);
    if body.Elem? {
      FindReplaceText.AggregateKidsPrefix(body.kids, c, [FindReplaceText.Leaf("")]);
    }
    assert FindReplaceText.Leaves(runs) != [];
    FindReplaceText.ZeroLengthRejected(FindReplaceText.Leaves(runs), c.find, FindReplaceText.SearchState([], 0, 0));
  }

  /** `findAndReplaceDOMText(body, {find, replace})` for one pair. */
  method ReplaceInBody(body: FindReplaceText.Node, rn: ReplacementNumber) returns (r: Result<FindReplaceDom.Finder>)
    ensures r.Err? <==> rn.find == ""
    ensures r.Err? ==> r.msg == FindReplaceText.ZeroLengthError
    ensures r.Ok? ==> fresh(r.value) && r.value.options == BodyConfig(rn)
  {
    BodySearchFails(body, rn);
    BodyConfigured(rn);
    r := FindReplaceDom.FindAndReplace(body, BodyOptions(rn));
  }

  /** How many pairs are handled before the first one with an empty text
      to find. */
  function PairsDone(pairs: seq<ReplacementNumber>): (n: nat)
    ensures n <= |pairs|
    ensures forall k :: 0 <= k < n ==> pairs[k].find != ""
    ensures n < |pairs| ==> pairs[n].find == ""
  {
    if pairs == [] || pairs[0].find == "" then 0 else 1 + PairsDone(pairs[1..])
  }

  /** `findAndReplaceNumber(replacementNumbers)`: for each pair in order,
      the engine replaces the text in the page body, then every link is
      rewritten. A pair with an empty text to find makes the engine throw
      before its links are rewritten, and no later pair is handled. */
  method FindAndReplaceNumber(links: array<Option<string>>, body: FindReplaceText.Node, pairs: seq<ReplacementNumber>)
    returns (r: Result<seq<FindReplaceDom.Finder>>)
    modifies links
    ensures r.Err? <==> exists k :: 0 <= k < |pairs| && pairs[k].find == ""
    ensures r.Err? ==> r.msg == FindReplaceText.ZeroLengthError
    ensures links[..] == ApplyPairs(old(links[..]), pairs[..PairsDone(pairs)])
    ensures r.Ok? ==> (|r.value| == |pairs| &&
      forall k :: 0 <= k < |pairs| ==> fresh(r.value[k]) && r.value[k].options == BodyConfig(pairs[k]))
  {
    var runs: seq<FindReplaceDom.Finder> := [];
    var i := 0;
    while i < |pairs|
      invariant 0 <= i <= |pairs|
      invariant forall k :: 0 <= k < i ==> pairs[k].find != ""
      invariant links[..] == ApplyPairs(old(links[..]), pairs[..i])
      invariant |runs| == i
      invariant forall k :: 0 <= k < i ==> fresh(runs[k]) && runs[k].options == BodyConfig(pairs[k])
    {
      var replaced := ReplaceInBody(body, pairs[i]);
      if replaced.Err? {
        return Err(replaced.msg);
      }
      runs := runs + [replaced.value];
      RewriteLinks(links, pairs[i]);
      assert pairs[..i + 1][..i] == pairs[..i];
      i := i + 1;
    }
    assert pairs[..i] == pairs;
    return Ok(runs);
  }
}
