/** The base helpers: the required-key check every constructor runs, the
    deep merge of one plain object into another, and the array test. */
module Helpers {
  import opened Js

  /** The message thrown when a required key is missing: it lists every
      required key, separated by ", ". */
  function RequiredKeysMessage(keys: seq<string>): string {
    "ArgumentError: Required keys are not defined: " + Join(keys, ", ")
  }

  /** `typeof obj[key] !== 'undefined'` on an object that can be read. */
  predicate Defined(obj: Value, key: string) {
    Prop(obj, key).Some? && Prop(obj, key).value != Undefined
  }

  /** `assertRequiredKeys`: the object back unchanged when it is defined
      and defines every key; otherwise the error naming all the keys, or
      the engine's TypeError when the object is `null`. */
  method AssertRequiredKeys(obj: Value, keys: seq<string>) returns (r: Result<Value>)
    ensures r.Ok? <==> keys == [] || forall i :: 0 <= i < |keys| ==> Defined(obj, keys[i])
    ensures r.Ok? ==> r.value == obj
    ensures r.Err? ==> r.msg == if obj.Null? then TypeError else RequiredKeysMessage(keys)
  {
    var i := 0;
    while i < |keys|
      invariant 0 <= i <= |keys|
      invariant forall j :: 0 <= j < i ==> Defined(obj, keys[j])
    {
      if obj.Undefined? {
        assert !Defined(obj, keys[i]);
        return Err(RequiredKeysMessage(keys));
      }
      match Prop(obj, keys[i])
      case None =>
        assert obj.Null? && !Defined(obj, keys[i]);
        return Err(TypeError);
      case Some(v) =>
        if v == Undefined {
          assert !obj.Null? && !Defined(obj, keys[i]);
          return Err(RequiredKeysMessage(keys));
        }
      i := i + 1;
    }
    return Ok(obj);
  }

  /** The value `merge` leaves at a property whose old value is `current`
      and whose new value is `v`: a plain object is merged into the old
      value, and when that throws the catch assigns `v` itself; any other
      value is assigned. */
  function MergedProperty(current: Value, v: Value): Value
    decreases v, if v.Obj? then |v.fields| + 1 else 0
  {
    if v.Obj? then
      match Merge(current, v.fields, 0)
      case Ok(m) => m
      case Err(_) => v
    else v
  }

  /** A value whose properties strict-mode code can assign: a plain object,
      an array or a function. Assigning a property of `undefined`, `null`
      or a primitive throws a TypeError. */
  predicate TakesProperties(v: Value) {
    v.Obj? || v.Arr? || v.Func?
  }

  /** `merge(obj1, obj2)` over the properties of `obj2` from index `i` on.
      Writing a property of a primitive, `undefined` or `null` throws
      (strict mode), and the catch around the write throws again, so `Err`
      reaches the caller. An array or a function takes the writes as
      properties of its own, which the model does not hold, so it comes
      back as it was. */
  function Merge(target: Value, src: seq<(string, Value)>, i: nat): (r: Result<Value>)
    requires i <= |src|
    decreases Obj(src), |src| - i
  {
    if i == |src| then Ok(target)
    else if !TakesProperties(target) then Err(TypeError)
    else if !target.Obj? then Merge(target, src, i + 1)
    else
      assert src[i] in src;
      var p := src[i].0;
      Merge(Obj(Put(target.fields, p, MergedProperty(Get(target.fields, p).GetOr(Undefined), src[i].1))), src, i + 1)
  }

  /** `merge`: the loop over the properties of `obj2`, recursing where the
      new value is a plain object. */
  method MergeObjects(obj1: Value, obj2: seq<(string, Value)>) returns (r: Result<Value>)
    ensures r == Merge(obj1, obj2, 0)
    decreases Obj(obj2)
  {
    var target := obj1;
    var i := 0;
    while i < |obj2|
      invariant 0 <= i <= |obj2|
      invariant Merge(target, obj2, i) == Merge(obj1, obj2, 0)
    {
      if !TakesProperties(target) {
        return Err(TypeError);
      }
      if target.Obj? {
        var p, v := obj2[i].0, obj2[i].1;
        var current := Get(target.fields, p).GetOr(Undefined);
        var nv := v;
        if v.Obj? {
          assert obj2[i] in obj2;
          var m := MergeObjects(current, v.fields);
          if m.Ok? {
            nv := m.value;
          }
        }
        assert nv == MergedProperty(current, v);
        target := Obj(Put(target.fields, p, nv));
      }
      i := i + 1;
    }
    return Ok(target);
  }

  /** Merging into a plain object never throws and gives a plain object. */
  lemma {:induction false} MergeIntoObject(target: Value, src: seq<(string, Value)>, i: nat)
    requires i <= |src| && target.Obj?
    ensures Merge(target, src, i).Ok? && Merge(target, src, i).value.Obj?
    decreases |src| - i
  {
    if i < |src| {
      var p := src[i].0;
      var t := Obj(Put(target.fields, p, MergedProperty(Get(target.fields, p).GetOr(Undefined), src[i].1)));
      MergeIntoObject(t, src, i + 1);
    }
  }

  /** Merging a non-empty object into `undefined`, `null` or a primitive
      throws. */
  lemma MergeIntoNonObject(target: Value, src: seq<(string, Value)>)
    requires !TakesProperties(target) && src != []
    ensures Merge(target, src, 0) == Err(TypeError)
  {
  }

  /** Merging into an array or a function never throws and gives back the
      same array or function. */
  lemma {:induction false} MergeIntoArrayOrFunction(target: Value, src: seq<(string, Value)>, i: nat)
    requires i <= |src| && (target.Arr? || target.Func?)
    ensures Merge(target, src, i) == Ok(target)
    decreases |src| - i
  {
    if i < |src| {
      MergeIntoArrayOrFunction(target, src, i + 1);
    }
  }

  /** The properties of `src[i..]`, none repeated. */
  predicate DistinctFrom(src: seq<(string, Value)>, i: nat) {
    forall a, b :: i <= a < b < |src| ==> src[a].0 != src[b].0
  }

  /** The first index from `i` on at which `src` has the key `k`. */
  function FindKey(src: seq<(string, Value)>, i: nat, k: string): (r: Option<nat>)
    requires i <= |src|
    ensures r.Some? ==> i <= r.value < |src| && src[r.value].0 == k
    ensures r.None? <==> forall j :: i <= j < |src| ==> src[j].0 != k
    decreases |src| - i
  {
    if i == |src| then None
    else if src[i].0 == k then Some(i)
    else FindKey(src, i + 1, k)
  }

  /** The value a merge leaves at key `k`. */
  function MergedAt(target: Value, src: seq<(string, Value)>, i: nat, k: string): Option<Value>
    requires i <= |src| && target.Obj?
  {
    match FindKey(src, i, k)
    case Some(j) => Some(MergedProperty(Get(target.fields, k).GetOr(Undefined), src[j].1))
    case None => Get(target.fields, k)
  }

  /** Property by property: a key of `src[i..]` ends with the merge of its
      old value and its new one; every other key of the target keeps its
      value. */
  lemma {:induction false} MergeGet(target: Value, src: seq<(string, Value)>, i: nat, k: string)
    requires i <= |src| && target.Obj? && DistinctFrom(src, i)
    ensures Merge(target, src, i).Ok? && Merge(target, src, i).value.Obj?
    ensures Get(Merge(target, src, i).value.fields, k) == MergedAt(target, src, i, k)
    decreases |src| - i
  {
    MergeIntoObject(target, src, i);
    if i < |src| {
      var p := src[i].0;
      var nv := MergedProperty(Get(target.fields, p).GetOr(Undefined), src[i].1);
      var t := Obj(Put(target.fields, p, nv));
      MergeGet(t, src, i + 1, k);
      PutGet(target.fields, p, nv, k);
      if p == k {
        assert FindKey(src, i + 1, k).None?;
      }
    }
  }

  /** A key of `obj1` that `obj2` does not have keeps its value. */
  lemma MergeKeeps(obj1: Value, obj2: seq<(string, Value)>, k: string)
    requires obj1.Obj? && DistinctFrom(obj2, 0) && k !in KeysOf(obj2)
    ensures Merge(obj1, obj2, 0).Ok? && Merge(obj1, obj2, 0).value.Obj?
    ensures Get(Merge(obj1, obj2, 0).value.fields, k) == Get(obj1.fields, k)
  {
    MergeGet(obj1, obj2, 0, k);
  }

  /** A property of `obj2` whose value is not a plain object overwrites the
      one in `obj1`. */
  lemma MergeOverwrites(obj1: Value, obj2: seq<(string, Value)>, j: nat)
    requires obj1.Obj? && DistinctFrom(obj2, 0) && j < |obj2| && !obj2[j].1.Obj?
    ensures Merge(obj1, obj2, 0).Ok? && Merge(obj1, obj2, 0).value.Obj?
    ensures Get(Merge(obj1, obj2, 0).value.fields, obj2[j].0) == Some(obj2[j].1)
  {
    MergeGet(obj1, obj2, 0, obj2[j].0);
  }

  /** Where both sides hold plain objects, the nested objects are merged in
      turn: the nested keys of `obj1` that the new value lacks survive. */
  lemma MergeNested(obj1: Value, obj2: seq<(string, Value)>, j: nat, k: string)
    requires obj1.Obj? && DistinctFrom(obj2, 0) && j < |obj2| && obj2[j].1.Obj?
    requires Get(obj1.fields, obj2[j].0).Some? && Get(obj1.fields, obj2[j].0).value.Obj?
    requires DistinctFrom(obj2[j].1.fields, 0) && k !in KeysOf(obj2[j].1.fields)
    ensures Merge(obj1, obj2, 0).Ok? && Merge(obj1, obj2, 0).value.Obj?
    ensures var inner := Get(Merge(obj1, obj2, 0).value.fields, obj2[j].0);
      inner.Some? && inner.value.Obj? &&
      Get(inner.value.fields, k) == Get(Get(obj1.fields, obj2[j].0).value.fields, k)
  {
    var p := obj2[j].0;
    var old1 := Get(obj1.fields, p).value;
    MergeGet(obj1, obj2, 0, p);
    MergeGet(old1, obj2[j].1.fields, 0, k);
    assert FindKey(obj2, 0, p) == Some(j);
  }

  /** Where `obj1` holds an array or a function and `obj2` a plain object,
      the merge writes into the array or function and the key keeps it. */
  lemma MergeKeepsArrayOrFunction(obj1: Value, obj2: seq<(string, Value)>, j: nat)
    requires obj1.Obj? && DistinctFrom(obj2, 0) && j < |obj2| && obj2[j].1.Obj?
    requires Get(obj1.fields, obj2[j].0).Some? &&
      (Get(obj1.fields, obj2[j].0).value.Arr? || Get(obj1.fields, obj2[j].0).value.Func?)
    ensures Merge(obj1, obj2, 0).Ok? && Merge(obj1, obj2, 0).value.Obj?
    ensures Get(Merge(obj1, obj2, 0).value.fields, obj2[j].0) == Get(obj1.fields, obj2[j].0)
  {
    var p := obj2[j].0;
    MergeGet(obj1, obj2, 0, p);
    assert FindKey(obj2, 0, p) == Some(j);
    MergeIntoArrayOrFunction(Get(obj1.fields, p).value, obj2[j].1.fields, 0);
  }

  /** `isArray`: the object tag is "[object Array]" exactly for arrays. */
  function IsArray(v: Value): (r: bool)
    ensures r <==> v.Arr?
  {
    ObjectTag(v) == "[object Array]"
  }
}
