/** JavaScript values, plain objects with insertion-ordered keys, and the
    string operations of the ECMAScript standard library that the rest of
    the model relies on. */
module Js {

  datatype Option<T> = None | Some(value: T) {
    function GetOr(default: T): T {
      match this
      case Some(v) => v
      case None => default
    }
  }

  /** The outcome of an operation that may throw: `Err` carries the message. */
  datatype Result<T> = Ok(value: T) | Err(msg: string)

  /** A JavaScript value. Numbers are modelled as integers; a plain object
      is the list of its own properties in insertion order; a function is
      known only by an identity. */
  datatype Value =
    | Undefined
    | Null
    | Bool(b: bool)
    | Num(n: int)
    | Str(s: string)
    | Arr(items: seq<Value>)
    | Obj(fields: seq<(string, Value)>)
    | Func(fid: nat)

  /** The `typeof` operator. */
  function TypeOf(v: Value): (t: string)
    ensures t == "object" <==> v.Null? || v.Arr? || v.Obj?
    ensures t == "function" <==> v.Func?
  {
    match v
    case Undefined => "undefined"
    case Null => "object"
    case Bool(_) => "boolean"
    case Num(_) => "number"
    case Str(_) => "string"
    case Arr(_) => "object"
    case Obj(_) => "object"
    case Func(_) => "function"
  }

  /** ToBoolean: the value an `if`, `||` or `&&` sees. */
  predicate Truthy(v: Value) {
    match v
    case Undefined => false
    case Null => false
    case Bool(b) => b
    case Num(n) => n != 0
    case Str(s) => s != ""
    case _ => true
  }

  // ---------------------------------------------------------------------
  // Plain objects as association lists (own properties, insertion order)
  // ---------------------------------------------------------------------

  function KeysOf<V>(d: seq<(string, V)>): (ks: seq<string>)
    ensures |ks| == |d|
    ensures forall i :: 0 <= i < |d| ==> ks[i] == d[i].0
  {
    if d == [] then [] else [d[0].0] + KeysOf(d[1..])
  }

  predicate DistinctKeys<V>(d: seq<(string, V)>) {
    forall i, j :: 0 <= i < j < |d| ==> d[i].0 != d[j].0
  }

  /** Property read `d[k]`; `None` stands for `undefined` (absent). */
  function Get<V>(d: seq<(string, V)>, k: string): (r: Option<V>)
    ensures r.None? <==> k !in KeysOf(d)
  {
    if d == [] then None
    else if d[0].0 == k then Some(d[0].1)
    else Get(d[1..], k)
  }

  /** A key that reads as present sits at some index with the value read. */
  lemma {:induction false} GetIndex<V>(d: seq<(string, V)>, k: string)
    requires Get(d, k).Some?
    ensures exists i :: 0 <= i < |d| && d[i] == (k, Get(d, k).value)
  {
    if d[0].0 != k {
      GetIndex(d[1..], k);
      var i :| 0 <= i < |d[1..]| && d[1..][i] == (k, Get(d[1..], k).value);
      assert d[i + 1] == d[1..][i];
    }
  }

  /** Property write `d[k] = v`: an existing key keeps its place, a new key
      goes last. */
  function Put<V>(d: seq<(string, V)>, k: string, v: V): (r: seq<(string, V)>)
    ensures |r| == if k in KeysOf(d) then |d| else |d| + 1
  {
    if d == [] then [(k, v)]
    else if d[0].0 == k then [(k, v)] + d[1..]
    else [d[0]] + Put(d[1..], k, v)
  }

  lemma {:induction false} PutGet<V>(d: seq<(string, V)>, k: string, v: V, k': string)
    ensures Get(Put(d, k, v), k') == if k' == k then Some(v) else Get(d, k')
  {
    if d != [] && d[0].0 != k {
      PutGet(d[1..], k, v, k');
    }
  }

  lemma {:induction false} PutKeys<V>(d: seq<(string, V)>, k: string, v: V)
    ensures KeysOf(Put(d, k, v)) == if k in KeysOf(d) then KeysOf(d) else KeysOf(d) + [k]
  {
    if d != [] && d[0].0 != k {
      PutKeys(d[1..], k, v);
      assert KeysOf(d) == [d[0].0] + KeysOf(d[1..]);
    }
  }

  lemma {:induction false} PutDistinct<V>(d: seq<(string, V)>, k: string, v: V)
    requires DistinctKeys(d)
    ensures DistinctKeys(Put(d, k, v))
  {
    if d != [] && d[0].0 != k {
      PutDistinct(d[1..], k, v);
      PutKeys(d[1..], k, v);
      var r := Put(d, k, v);
      assert r == [d[0]] + Put(d[1..], k, v);
      forall j | 0 < j < |r| ensures r[0].0 != r[j].0 {
        assert r[j].0 == KeysOf(Put(d[1..], k, v))[j - 1];
        assert d[0].0 !in KeysOf(d[1..]) by {
          forall i | 0 <= i < |d[1..]| ensures KeysOf(d[1..])[i] != d[0].0 {
            assert d[1..][i] == d[i + 1];
          }
        }
      }
    }
  }

  /** Writing the same property twice keeps only the second write. */
  lemma {:induction false} PutPut<V>(d: seq<(string, V)>, k: string, v: V, w: V)
    ensures Put(Put(d, k, v), k, w) == Put(d, k, w)
  {
    if d != [] && d[0].0 != k {
      PutPut(d[1..], k, v, w);
      assert Put(d, k, v)[1..] == Put(d[1..], k, v);
    }
  }

  /** Writing back the value a present property already has changes
      nothing. */
  lemma {:induction false} PutSame<V>(d: seq<(string, V)>, k: string)
    requires Get(d, k).Some?
    ensures Put(d, k, Get(d, k).value) == d
  {
    if d[0].0 != k {
      PutSame(d[1..], k);
    }
  }

  /** Reading a property of a list with one more property at its end. */
  lemma {:induction false} GetSnoc<V>(d: seq<(string, V)>, k: string, v: V, k': string)
    ensures KeysOf(d + [(k, v)]) == KeysOf(d) + [k]
    ensures Get(d + [(k, v)], k') ==
      if k' in KeysOf(d) then Get(d, k') else if k' == k then Some(v) else None
  {
    if d != [] {
      assert (d + [(k, v)])[1..] == d[1..] + [(k, v)];
      GetSnoc(d[1..], k, v, k');
      assert KeysOf(d) == [d[0].0] + KeysOf(d[1..]);
    }
  }

  /** Property read on any value; `None` means the read throws a TypeError
      (reading a property of `undefined` or `null`). */
  function Prop(v: Value, k: string): Option<Value> {
    match v
    case Undefined => None
    case Null => None
    case Obj(fs) => Some(Get(fs, k).GetOr(Undefined))
    case _ => Some(Undefined)
  }

  lemma AppendAssoc<T>(a: seq<T>, b: seq<T>, c: seq<T>)
    ensures (a + b) + c == a + (b + c)
  {
  }

  lemma ConsTail<T>(x: T, s: seq<T>)
    ensures ([x] + s)[1..] == s
  {
  }

  lemma HeadTail<T>(s: seq<T>)
    requires s != []
    ensures [s[0]] + s[1..] == s
  {
  }

  lemma TakeAppendLeft<T>(a: seq<T>, b: seq<T>, k: nat)
    requires k <= |a|
    ensures (a + b)[..k] == a[..k]
  {
  }

  lemma DropAppendLeft<T>(a: seq<T>, b: seq<T>, k: nat)
    requires k <= |a|
    ensures (a + b)[k..] == a[k..] + b
  {
  }

  lemma TakeAppendRight<T>(a: seq<T>, b: seq<T>, k: nat)
    requires |a| <= k <= |a| + |b|
    ensures (a + b)[..k] == a + b[..k - |a|]
  {
  }

  lemma DropAppendRight<T>(a: seq<T>, b: seq<T>, k: nat)
    requires |a| <= k <= |a| + |b|
    ensures (a + b)[k..] == b[k - |a|..]
  {
  }

  // ---------------------------------------------------------------------
  // Strings
  // ---------------------------------------------------------------------

  function Clamp(i: int, n: nat): (r: nat)
    ensures r <= n
    ensures 0 <= i <= n ==> r == i
  {
    if i < 0 then 0 else if i > n then n else i
  }

  /** `String.prototype.substring(a, b)`: both ends clamped to the string,
      swapped when out of order. */
  function Substring(s: string, a: int, b: int): (r: string)
    ensures 0 <= a <= b <= |s| ==> r == s[a..b]
    ensures |r| <= |s|
  {
    var x, y := Clamp(a, |s|), Clamp(b, |s|);
    if x <= y then s[x..y] else s[y..x]
  }

  /** `String.prototype.substring(a)`. */
  function SubstringFrom(s: string, a: int): (r: string)
    ensures 0 <= a <= |s| ==> r == s[a..]
    ensures a <= 0 ==> r == s
  {
    Substring(s, a, |s|)
  }

  /** `pat` occurs in `s` starting at position `p`. */
  predicate OccursAt(s: string, pat: string, p: int) {
    0 <= p && p + |pat| <= |s| && CharsAt(s, pat, p)
  }

  /** The characters of `pat` appear in `s` from position `p` on. */
  predicate CharsAt(s: string, pat: string, p: nat)
    requires p + |pat| <= |s|
    decreases |pat|
  {
    pat == [] || (s[p] == pat[0] && CharsAt(s, pat[1..], p + 1))
  }

  /** The same, read as a slice of `s`. */
  lemma {:induction false} OccursAtSlice(s: string, pat: string, p: int)
    ensures OccursAt(s, pat, p) <==> 0 <= p && p + |pat| <= |s| && s[p..p + |pat|] == pat
  {
    if 0 <= p && p + |pat| <= |s| {
      CharsAtSlice(s, pat, p);
    }
  }

  lemma {:induction false} CharsAtSlice(s: string, pat: string, p: nat)
    requires p + |pat| <= |s|
    ensures CharsAt(s, pat, p) <==> s[p..p + |pat|] == pat
    decreases |pat|
  {
    if pat != [] {
      CharsAtSlice(s, pat[1..], p + 1);
      assert s[p..p + |pat|] == [s[p]] + s[p + 1..p + 1 + |pat[1..]|];
      assert pat == [pat[0]] + pat[1..];
    }
  }

  /** The position of the first `c` in `s` at or after `i`. */
  function CharFrom(s: string, c: char, i: nat): (p: Option<nat>)
    requires i <= |s|
    ensures p.Some? ==> i <= p.value < |s| && s[p.value] == c
    ensures p.Some? ==> forall j :: i <= j < p.value ==> s[j] != c
    ensures p.None? ==> forall j :: i <= j < |s| ==> s[j] != c
    decreases |s| - i
  {
    if i == |s| then None
    else if s[i] == c then Some(i)
    else CharFrom(s, c, i + 1)
  }

  /** `s.indexOf(pat, from)`: the leftmost occurrence at or after `from`. */
  function IndexOf(s: string, pat: string, from: nat): (r: Option<nat>)
    decreases |s| - from
    ensures r.Some? ==> from <= r.value && OccursAt(s, pat, r.value)
  {
    if from + |pat| > |s| then None
    else if OccursAt(s, pat, from) then Some(from)
    else IndexOf(s, pat, from + 1)
  }

  /** `indexOf` finds the leftmost occurrence, and `None` means there is none. */
  lemma {:induction false} IndexOfLeftmost(s: string, pat: string, from: nat)
    ensures IndexOf(s, pat, from).Some? ==>
      forall q :: from <= q < IndexOf(s, pat, from).value ==> !OccursAt(s, pat, q)
    ensures IndexOf(s, pat, from).None? ==> forall q :: from <= q ==> !OccursAt(s, pat, q)
    decreases |s| - from
  {
    if from + |pat| <= |s| && !OccursAt(s, pat, from) {
      IndexOfLeftmost(s, pat, from + 1);
    }
    if from + |pat| > |s| {
      forall q | from <= q ensures !OccursAt(s, pat, q) {
        OccursAtSlice(s, pat, q);
      }
    }
  }

  /** `indexOf` from `from` finds `p` when `pat` occurs there and nowhere
      between `from` and `p`. */
  lemma {:induction false} IndexOfAt(s: string, pat: string, from: nat, p: nat)
    requires from <= p && OccursAt(s, pat, p)
    requires forall q :: from <= q < p ==> !OccursAt(s, pat, q)
    ensures IndexOf(s, pat, from) == Some(p)
    decreases p - from
  {
    if from < p {
      IndexOfAt(s, pat, from + 1, p);
    }
  }

  /** No occurrence of `pat` can start at a position of `s` holding a
      character other than its first. */
  lemma NoOccurrenceAt(s: string, pat: string, q: int)
    requires pat != [] && 0 <= q < |s| && s[q] != pat[0]
    ensures !OccursAt(s, pat, q)
  {
  }

  /** `s.split(sep)` for a non-empty separator string. */
  function Split(s: string, sep: string): (parts: seq<string>)
    requires sep != ""
    decreases |s|
    ensures |parts| >= 1
  {
    match IndexOf(s, sep, 0)
    case None => [s]
    case Some(p) => [s[..p]] + Split(s[p + |sep|..], sep)
  }

  /** `parts.join(sep)`. */
  function Join(parts: seq<string>, sep: string): string {
    if parts == [] then ""
    else if |parts| == 1 then parts[0]
    else parts[0] + sep + Join(parts[1..], sep)
  }

  /** Splitting and joining again gives back the original string. */
  lemma {:induction false} JoinSplit(s: string, sep: string)
    requires sep != ""
    ensures Join(Split(s, sep), sep) == s
  {
    match IndexOf(s, sep, 0)
    case None =>
    case Some(p) =>
      var rest := s[p + |sep|..];
      var parts := Split(rest, sep);
      JoinSplit(rest, sep);
      OccursAtSlice(s, sep, p);
      assert Split(s, sep) == [s[..p]] + parts;
      assert ([s[..p]] + parts)[1..] == parts;
      assert Join([s[..p]] + parts, sep) == s[..p] + sep + Join(parts, sep);
      assert s == s[..p] + s[p..p + |sep|] + rest;
  }

  /** Joining parts that never contain the separator's first character and
      splitting again gives back the parts. */
  lemma {:induction false} SplitJoin(parts: seq<string>, sep: string)
    requires sep != "" && parts != []
    requires forall i :: 0 <= i < |parts| ==> sep[0] !in parts[i]
    ensures Split(Join(parts, sep), sep) == parts
  {
    var s := Join(parts, sep);
    if |parts| == 1 {
      IndexOfLeftmost(s, sep, 0);
      forall q | 0 <= q < |s| ensures !OccursAt(s, sep, q) {
        NoOccurrenceAt(s, sep, q);
      }
      if IndexOf(s, sep, 0).Some? {
        OccursAtSlice(s, sep, IndexOf(s, sep, 0).value);
      }
    } else {
      var p0, rest := parts[0], Join(parts[1..], sep);
      assert s == p0 + sep + rest;
      forall q | 0 <= q < |p0| ensures !OccursAt(s, sep, q) {
        assert s[q] == p0[q];
        NoOccurrenceAt(s, sep, q);
      }
      assert s[|p0|..|p0| + |sep|] == sep;
      OccursAtSlice(s, sep, |p0|);
      IndexOfAt(s, sep, 0, |p0|);
      assert s[..|p0|] == p0;
      assert s[|p0| + |sep|..] == rest;
      SplitJoin(parts[1..], sep);
      assert Split(s, sep) == [p0] + parts[1..];
    }
  }

  lemma JoinSnoc(parts: seq<string>, sep: string, y: string)
    requires parts != []
    ensures Join(parts + [y], sep) == Join(parts, sep) + sep + y
    decreases |parts|
  {
    if |parts| > 1 {
      assert (parts + [y])[1..] == parts[1..] + [y];
      JoinSnoc(parts[1..], sep, y);
    } else {
      assert (parts + [y])[1..] == [y];
    }
  }

  /** No part of a split contains the separator. */
  lemma {:induction false} SplitPartsFree(s: string, sep: string, i: nat, q: int)
    requires sep != ""
    requires i < |Split(s, sep)|
    ensures !OccursAt(Split(s, sep)[i], sep, q)
  {
    IndexOfLeftmost(s, sep, 0);
    match IndexOf(s, sep, 0)
    case None =>
    case Some(p) =>
      if i == 0 {
        OccursAtSlice(s[..p], sep, q);
        OccursAtSlice(s, sep, q);
      } else {
        SplitPartsFree(s[p + |sep|..], sep, i - 1, q);
      }
  }

  /** The characters at which a regular expression's `.` stops. */
  predicate LineTerminator(c: char) {
    c == '\n' || c == '\r' || c == '\U{2028}' || c == '\U{2029}'
  }

  /** What `(.*)` captures: the text up to the first line terminator. */
  function LineRest(s: string): (r: string)
    ensures |r| <= |s| && r == s[..|r|]
    ensures forall i :: 0 <= i < |r| ==> !LineTerminator(r[i])
    ensures |r| < |s| ==> LineTerminator(s[|r|])
    decreases |s|
  {
    if s == [] || LineTerminator(s[0]) then []
    else
      var rest := LineRest(s[1..]);
      assert [s[0]] + rest == s[..|rest| + 1];
      [s[0]] + rest
  }

  /** Text without a line terminator is captured whole. */
  lemma {:induction false} LineRestWhole(s: string)
    requires forall i :: 0 <= i < |s| ==> !LineTerminator(s[i])
    ensures LineRest(s) == s
  {
    if s != [] {
      LineRestWhole(s[1..]);
    }
  }

  function LowerChar(c: char): char {
    if 'A' <= c <= 'Z' then (c as int + 32) as char else c
  }

  /** `toLowerCase` on the ASCII letters. */
  function Lower(s: string): (r: string)
    ensures |r| == |s|
    ensures forall i :: 0 <= i < |s| ==> r[i] == LowerChar(s[i])
  {
    if s == [] then [] else [LowerChar(s[0])] + Lower(s[1..])
  }

  predicate IsDigit(c: char) {
    '0' <= c <= '9'
  }

  /** The decimal digits of a natural number, most significant first. */
  function NatToString(n: nat): (r: string)
    ensures r != [] && forall i :: 0 <= i < |r| ==> IsDigit(r[i])
    ensures n < 10 <==> |r| == 1
  {
    var d := ['0' + (n % 10) as char];
    if n < 10 then d else NatToString(n / 10) + d
  }

  /** `String(v)` for the values the model has; a function's source text is
      unknown here, so every function reads as "function". */
  function ToStr(v: Value): string
    decreases v
  {
    match v
    case Undefined => "undefined"
    case Null => "null"
    case Bool(b) => if b then "true" else "false"
    case Num(n) => if n < 0 then "-" + NatToString(-n) else NatToString(n)
    case Str(s) => s
    case Arr(items) => JoinItems(v, 0)
    case Obj(_) => "[object Object]"
    case Func(_) => "function"
  }

  /** `Array.prototype.join(",")` over the items of an array from index
      `i`: `undefined` and `null` items give "". */
  function JoinItems(arr: Value, i: nat): string
    requires arr.Arr? && i <= |arr.items|
    decreases arr, |arr.items| - i
  {
    if i == |arr.items| then ""
    else
      var item := arr.items[i];
      assert item in arr.items;
      var s := if item.Undefined? || item.Null? then "" else ToStr(item);
      if i + 1 == |arr.items| then s else s + "," + JoinItems(arr, i + 1)
  }

  /** `Object.prototype.toString.call(v)`. */
  function ObjectTag(v: Value): string {
    match v
    case Undefined => "[object Undefined]"
    case Null => "[object Null]"
    case Bool(_) => "[object Boolean]"
    case Num(_) => "[object Number]"
    case Str(_) => "[object String]"
    case Arr(_) => "[object Array]"
    case Obj(_) => "[object Object]"
    case Func(_) => "[object Function]"
  }

  /** The message of a TypeError thrown by the engine (reading a property of
      `undefined` or `null`, or writing one on a primitive in strict mode). */
  const TypeError := "TypeError"

  /** The own enumerable properties a `for ... in` loop visits; only plain
      objects have any in this model. */
  function EnumFields(v: Value): seq<(string, Value)> {
    if v.Obj? then v.fields else []
  }
}
