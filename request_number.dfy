/** The number request of the embeddable script (`RequestNumber`): the
    request URL and body `perform` builds, the flag that lets it send at most
    once, and the readers of query strings and cookies it relies on.
    The document's location, its cookie string, the value of the
    `CallPixels-ou` cookie, Base64 and `JSON.stringify` are parameters: the
    `Cookies` and `Base64` modules this file imports are not part of this
    model. */
module RequestNumbers {
  import opened Js
  import opened Helpers

  const ResourceUrl := "/api/v1/numbers?"
  const CallbackMessage := "ArgumentError: Expected to receive a callback function"
  const CampaignKey := "campaign_key"

  /** A property of the configuration; reading one that is absent gives
      `undefined`. */
  function Setting(config: Value, k: string): Value {
    Prop(config, k).GetOr(Undefined)
  }

  // ----- constructor -----

  /** The constructor keeps the options as the configuration when they
      define `campaign_key`, and throws otherwise. */
  method NewRequestNumber(options: Value) returns (config: Result<Value>)
    ensures config.Ok? <==> Defined(options, CampaignKey)
    ensures config.Ok? ==> config.value == options
    ensures config.Err? ==> (config.msg ==
      if options.Null? then TypeError else RequiredKeysMessage([CampaignKey]))
  {
    config := AssertRequiredKeys(options, [CampaignKey]);
    assert [CampaignKey][0] == CampaignKey;
  }

  // ----- query strings: getUrlParts and getParts -----

  /** `url.match(/\?(.*)/)[0]`: the text from the first `?` up to the first
      line terminator after it; `None` when there is no `?`. */
  function Query(url: string): (r: Option<string>)
    ensures r.None? <==> '?' !in url
  {
    match CharFrom(url, '?', 0)
    case None => None
    case Some(p) => Some("?" + LineRest(url[p + 1..]))
  }

  /** The characters the pattern `([^?=&]+)(=([^&]*))?` stops a key at. */
  predicate Delim(c: char) {
    c == '?' || c == '=' || c == '&'
  }

  /** The length of the longest prefix of `s` without a delimiter. */
  function KeyEnd(s: string): (e: nat)
    ensures e <= |s|
    ensures forall i :: 0 <= i < e ==> !Delim(s[i])
    ensures e < |s| ==> Delim(s[e])
    decreases |s|
  {
    if s == [] || Delim(s[0]) then 0 else 1 + KeyEnd(s[1..])
  }

  /** The length of the longest prefix of `s` without a `&`. */
  function ValueEnd(s: string): (e: nat)
    ensures e <= |s|
    ensures forall i :: 0 <= i < e ==> s[i] != '&'
    ensures e < |s| ==> s[e] == '&'
    decreases |s|
  {
    if s == [] || s[0] == '&' then 0 else 1 + ValueEnd(s[1..])
  }

  /** The match of the pattern at the start of `s`: its key `$1`, its value
      `$3` (`undefined` when there is no `=`) and the text after it. The key
      runs to the first delimiter; the value, when there is an `=`, to the
      first `&`. */
  function MatchAt(s: string): (m: (string, Value, string))
    requires s != [] && !Delim(s[0])
    ensures |m.2| < |s| && m.0 != []
    ensures forall i :: 0 <= i < |m.0| ==> !Delim(m.0[i])
    ensures m.1.Undefined? || m.1.Str?
    ensures m.1.Undefined? ==> s == m.0 + m.2 && (m.2 == [] || (Delim(m.2[0]) && m.2[0] != '='))
    ensures m.1.Str? ==> (s == m.0 + "=" + m.1.s + m.2 && '&' !in m.1.s &&
      (m.2 == [] || m.2[0] == '&'))
  {
    var e := KeyEnd(s);
    KeyParts(s);
    if e < |s| && s[e] == '=' then
      var f := e + 1 + ValueEnd(s[e + 1..]);
      ValueParts(s, e);
      (s[..e], Str(s[e + 1..f]), s[f..])
    else
      (s[..e], Undefined, s[e..])
  }

  /** The key of a match: the text before the first delimiter. */
  lemma KeyParts(s: string)
    ensures var e := KeyEnd(s);
      s == s[..e] + s[e..] && (forall i :: 0 <= i < |s[..e]| ==> !Delim(s[..e][i])) &&
      (s[e..] == [] || Delim(s[e..][0]))
  {
  }

  /** The value of a match with an `=`: the text up to the next `&`. */
  lemma ValueParts(s: string, e: nat)
    requires e < |s| && s[e] == '='
    ensures var f := e + 1 + ValueEnd(s[e + 1..]);
      f <= |s| && s == s[..e] + "=" + s[e + 1..f] + s[f..] && '&' !in s[e + 1..f] &&
      (s[f..] == [] || s[f..][0] == '&')
  {
    var v := s[e + 1..];
    var f := e + 1 + ValueEnd(v);
    assert s[e + 1..f] == v[..f - e - 1];
    assert forall i :: 0 <= i < f - e - 1 ==> v[..f - e - 1][i] == v[i];
    if f < |s| {
      assert s[f..][0] == v[f - e - 1];
    }
    assert s == s[..e] + [s[e]] + s[e + 1..f] + s[f..];
  }

  /** The next match of the global pattern in `s`: the delimiters before it
      are skipped. */
  function NextMatch(s: string): (m: Option<(string, Value, string)>)
    ensures m.None? <==> forall i :: 0 <= i < |s| ==> Delim(s[i])
    ensures m.Some? ==> |m.value.2| < |s| && m.value.0 != []
    ensures m.Some? ==> forall i :: 0 <= i < |m.value.0| ==> !Delim(m.value.0[i])
    decreases |s|
  {
    if s == [] then None
    else if Delim(s[0]) then
      var m := NextMatch(s[1..]);
      assert forall i :: 0 < i < |s| ==> s[i] == s[1..][i - 1];
      m
    else Some(MatchAt(s))
  }

  /** The pairs the `replace` callback sees, in order, with the keys
      lowercased. */
  function Scan(s: string): (ps: seq<(string, Value)>)
    decreases |s|
  {
    match NextMatch(s)
    case None => []
    case Some((k, v, rest)) => [(Lower(k), v)] + Scan(rest)
  }

  /** Assigning each pair of `ps` in turn to the object `d`. */
  function PutAll(d: seq<(string, Value)>, ps: seq<(string, Value)>): seq<(string, Value)>
    decreases |ps|
  {
    if ps == [] then d else PutAll(Put(d, ps[0].0, ps[0].1), ps[1..])
  }

  /** The value of the last pair of `ps` with key `k`. */
  function LastValue(ps: seq<(string, Value)>, k: string): (r: Option<Value>)
    ensures r.None? <==> forall i :: 0 <= i < |ps| ==> ps[i].0 != k
    ensures r.Some? ==> exists i :: (0 <= i < |ps| && ps[i] == (k, r.value) &&
      forall j :: i < j < |ps| ==> ps[j].0 != k)
    decreases |ps|
  {
    if ps == [] then None
    else
      var r := LastValue(ps[1..], k);
      if r.Some? then
        var i :| 0 <= i < |ps[1..]| && ps[1..][i] == (k, r.value) &&
          forall j :: i < j < |ps[1..]| ==> ps[1..][j].0 != k;
        assert ps[i + 1] == (k, r.value);
        r
      else if ps[0].0 == k then Some(ps[0].1)
      else r
  }

  /** `getUrlParts(url)`. */
  function UrlParts(url: string): seq<(string, Value)> {
    match Query(url)
    case None => []
    case Some(q) => PutAll([], Scan(q))
  }

  /** After assigning the pairs, a key holds the value of its last pair, or
      its old value when no pair has it. */
  lemma {:induction false} PutAllGet(d: seq<(string, Value)>, ps: seq<(string, Value)>, k: string)
    ensures Get(PutAll(d, ps), k) == if LastValue(ps, k).Some? then LastValue(ps, k) else Get(d, k)
    decreases |ps|
  {
    if ps != [] {
      PutAllGet(Put(d, ps[0].0, ps[0].1), ps[1..], k);
      PutGet(d, ps[0].0, ps[0].1, k);
    }
  }

  /** Assigning pairs to an object without repeated keys leaves none. */
  lemma {:induction false} PutAllDistinct(d: seq<(string, Value)>, ps: seq<(string, Value)>)
    requires DistinctKeys(d)
    ensures DistinctKeys(PutAll(d, ps))
    decreases |ps|
  {
    if ps != [] {
      PutDistinct(d, ps[0].0, ps[0].1);
      PutAllDistinct(Put(d, ps[0].0, ps[0].1), ps[1..]);
    }
  }

  /** In an object without repeated keys, the last pair of a key is its
      only one. */
  lemma LastValueDistinct(d: seq<(string, Value)>, k: string)
    requires DistinctKeys(d)
    ensures LastValue(d, k) == Get(d, k)
  {
    if LastValue(d, k).Some? {
      var i :| 0 <= i < |d| && d[i] == (k, LastValue(d, k).value) &&
        forall j :: i < j < |d| ==> d[j].0 != k;
      GetAt(d, i);
    }
  }

  /** Reading a key of an object without repeated keys finds the pair that
      has it. */
  lemma {:induction false} GetAt(d: seq<(string, Value)>, i: nat)
    requires DistinctKeys(d) && i < |d|
    ensures Get(d, d[i].0) == Some(d[i].1)
  {
    if i > 0 {
      assert DistinctKeys(d[1..]) by {
        forall a, b | 0 <= a < b < |d[1..]| ensures d[1..][a].0 != d[1..][b].0 {
          assert d[1..][a] == d[a + 1] && d[1..][b] == d[b + 1];
        }
      }
      assert d[1..][i - 1] == d[i];
      GetAt(d[1..], i - 1);
    }
  }

  /** `getUrlParts`: a URL without `?` gives `{}`; otherwise every key
      holds the value of its last `key[=value]` pair after the `?`, and no
      key is repeated. */
  lemma UrlPartsGet(url: string, k: string)
    ensures '?' !in url ==> UrlParts(url) == []
    ensures DistinctKeys(UrlParts(url))
    ensures Query(url).Some? ==> Get(UrlParts(url), k) == LastValue(Scan(Query(url).value), k)
  {
    if Query(url).Some? {
      PutAllGet([], Scan(Query(url).value), k);
      PutAllDistinct([], Scan(Query(url).value));
    }
  }

  /** Every key of a scan is lowercase and is the lowercasing of a
      non-empty run without delimiters. */
  lemma {:induction false} ScanKeys(s: string, i: nat)
    requires i < |Scan(s)|
    ensures Scan(s)[i].0 != [] && Lower(Scan(s)[i].0) == Scan(s)[i].0
    ensures forall j :: 0 <= j < |Scan(s)[i].0| ==> !Delim(Scan(s)[i].0[j])
    decreases |s|
  {
    ScanShape(s);
    var m := NextMatch(s).value;
    if i == 0 {
      LowerKey(m.0);
    } else {
      assert Scan(s)[i] == Scan(m.2)[i - 1];
      ScanKeys(m.2, i - 1);
    }
  }

  /** A scan is empty when no match is left, and otherwise starts with the
      next match's pair. */
  lemma ScanShape(s: string)
    ensures NextMatch(s).None? ==> Scan(s) == []
    ensures NextMatch(s).Some? ==>
      Scan(s) == [(Lower(NextMatch(s).value.0), NextMatch(s).value.1)] + Scan(NextMatch(s).value.2)
  {
  }

  /** Lowercasing a key keeps it free of delimiters, and lowercasing it
      again changes nothing. */
  lemma LowerKey(k: string)
    requires forall j :: 0 <= j < |k| ==> !Delim(k[j])
    ensures Lower(Lower(k)) == Lower(k)
    ensures forall j :: 0 <= j < |Lower(k)| ==> !Delim(Lower(k)[j])
  {
    assert forall i :: 0 <= i < |k| ==> LowerChar(LowerChar(k[i])) == LowerChar(k[i]);
  }

  /** `getUrlParts`: the loop of the `replace` callback over the matches
      after the `?`. */
  method GetUrlParts(url: string) returns (objUrl: seq<(string, Value)>)
    ensures objUrl == UrlParts(url)
  {
    objUrl := [];
    var q := Query(url);
    if q.None? {
      return;
    }
    var rest := q.value;
    while true
      invariant PutAll(objUrl, Scan(rest)) == UrlParts(url)
      decreases |rest|
    {
      var m := NextMatch(rest);
      if m.None? {
        return;
      }
      var (k, v, after) := m.value;
      objUrl := Put(objUrl, Lower(k), v);
      rest := after;
    }
  }

  /** `getParts(urls)`: the parts of each URL copied in turn over the
      parts of the ones before. */
  function AllParts(urls: seq<string>): seq<(string, Value)>
    decreases |urls|
  {
    if urls == [] then []
    else PutAll(AllParts(urls[..|urls| - 1]), UrlParts(urls[|urls| - 1]))
  }

  /** The value of `k` in the last URL whose parts have it. */
  function LastHaving(urls: seq<string>, k: string): Option<Value>
    decreases |urls|
  {
    if urls == [] then None
    else
      var g := Get(UrlParts(urls[|urls| - 1]), k);
      if g.Some? then g else LastHaving(urls[..|urls| - 1], k)
  }

  /** `getParts`: keys from later URLs override those of earlier ones. */
  lemma {:induction false} AllPartsGet(urls: seq<string>, k: string)
    ensures Get(AllParts(urls), k) == LastHaving(urls, k)
    decreases |urls|
  {
    if urls != [] {
      var n := |urls| - 1;
      var parts := UrlParts(urls[n]);
      AllPartsGet(urls[..n], k);
      PutAllGet(AllParts(urls[..n]), parts, k);
      UrlPartsGet(urls[n], k);
      LastValueDistinct(parts, k);
    }
  }

  /** `getParts`: the loop over the URLs and the copy loop over each URL's
      parts. */
  method GetParts(urls: seq<string>) returns (allParts: seq<(string, Value)>)
    ensures allParts == AllParts(urls)
  {
    allParts := [];
    for i := 0 to |urls|
      invariant allParts == AllParts(urls[..i])
    {
      var urlParts := GetUrlParts(urls[i]);
      ghost var before := allParts;
      for j := 0 to |urlParts|
        invariant PutAll(allParts, urlParts[j..]) == PutAll(before, urlParts)
      {
        assert urlParts[j..][1..] == urlParts[j + 1..];
        allParts := Put(allParts, urlParts[j].0, urlParts[j].1);
      }
      assert urlParts[|urlParts|..] == [];
      assert urls[..i + 1][..i] == urls[..i];
    }
    assert urls[..|urls|] == urls;
  }

  // ----- findOne -----

  /** `findOne(allParts, varArr)`: the value of the first name that is
      present, or `false`. */
  function FirstFound(parts: seq<(string, Value)>, names: seq<string>): Value
    decreases |names|
  {
    if names == [] then Bool(false)
    else match Get(parts, names[0])
      case Some(v) => v
      case None => FirstFound(parts, names[1..])
  }

  /** `findOne` gives `false` when no name is present, and otherwise the
      value of the first name that is. */
  lemma {:induction false} FirstFoundSpec(parts: seq<(string, Value)>, names: seq<string>, i: nat)
    requires i <= |names| && forall j :: 0 <= j < i ==> Get(parts, names[j]).None?
    ensures i == |names| ==> FirstFound(parts, names) == Bool(false)
    ensures i < |names| && Get(parts, names[i]).Some? ==>
      FirstFound(parts, names) == Get(parts, names[i]).value
    decreases |names|
  {
    if names == [] {
    } else if i == 0 {
      match Get(parts, names[0])
      case Some(v) => assert FirstFound(parts, names) == v;
      case None =>
    } else {
      assert Get(parts, names[0]).None?;
      assert FirstFound(parts, names) == FirstFound(parts, names[1..]);
      forall j | 0 <= j < i - 1
        ensures Get(parts, names[1..][j]).None?
      {
        assert names[1..][j] == names[j + 1];
      }
      if i < |names| {
        assert names[1..][i - 1] == names[i];
      }
      FirstFoundSpec(parts, names[1..], i - 1);
    }
  }

  /** A key found at position `j` with no earlier pair having it is what a
      read of it returns. */
  lemma {:induction false} GetFirst(d: seq<(string, Value)>, j: nat)
    requires j < |d| && forall i :: 0 <= i < j ==> d[i].0 != d[j].0
    ensures Get(d, d[j].0) == Some(d[j].1)
  {
    if j > 0 {
      assert d[1..][j - 1] == d[j];
      GetFirst(d[1..], j - 1);
    }
  }

  /** The inner loop of `findOne`: the first key of `allParts` equal to
      `lookFor`, read as a property read would. */
  method FindName(allParts: seq<(string, Value)>, lookFor: string) returns (r: Option<Value>)
    ensures r == Get(allParts, lookFor)
  {
    for j := 0 to |allParts|
      invariant forall a :: 0 <= a < j ==> allParts[a].0 != lookFor
    {
      if allParts[j].0 == lookFor {
        GetFirst(allParts, j);
        return Some(allParts[j].1);
      }
    }
    assert lookFor !in KeysOf(allParts);
    return None;
  }

  /** `findOne`: the loop over the names and, for each, over the keys. */
  method FindOne(allParts: seq<(string, Value)>, varArr: seq<string>) returns (r: Value)
    ensures r == FirstFound(allParts, varArr)
  {
    for i := 0 to |varArr|
      invariant FirstFound(allParts, varArr[i..]) == FirstFound(allParts, varArr)
    {
      var found := FindName(allParts, varArr[i]);
      assert varArr[i..][0] == varArr[i] && varArr[i..][1..] == varArr[i + 1..];
      if found.Some? {
        return found.value;
      }
    }
    assert varArr[|varArr|..] == [];
    r := Bool(false);
  }

  // ----- tagsToScriptTags -----

  /** The script-tag string of the tags: `&key=value` for each tag, in
      order. */
  function ScriptTags(tags: seq<(string, Value)>): string
    decreases |tags|
  {
    if tags == [] then "" else "&" + tags[0].0 + "=" + ToStr(tags[0].1) + ScriptTags(tags[1..])
  }

  /** `tagsToScriptTags(tags)`: the loop over the enumerable properties. */
  method TagsToScriptTags(tags: Value) returns (scriptTags: string)
    ensures scriptTags == ScriptTags(EnumFields(tags))
  {
    var fields := EnumFields(tags);
    scriptTags := "";
    for i := 0 to |fields|
      invariant scriptTags + ScriptTags(fields[i..]) == ScriptTags(fields)
    {
      var piece := "&" + fields[i].0 + "=" + ToStr(fields[i].1);
      assert fields[i..][1..] == fields[i + 1..];
      assert ScriptTags(fields[i..]) == piece + ScriptTags(fields[i + 1..]);
      scriptTags := scriptTags + piece;
    }
    assert fields[|fields|..] == [];
  }

  /** Tags whose keys are non-empty and free of delimiters and whose values
      are free of `&`. */
  predicate ScriptSafe(tags: seq<(string, Value)>) {
    forall i :: 0 <= i < |tags| ==>
      tags[i].0 != [] && (forall j :: 0 <= j < |tags[i].0| ==> !Delim(tags[i].0[j])) &&
      '&' !in ToStr(tags[i].1)
  }

  /** The pairs a scan of the script-tag string reads. */
  function ReadBack(tags: seq<(string, Value)>): (ps: seq<(string, Value)>)
    ensures |ps| == |tags|
    ensures forall i :: 0 <= i < |tags| ==> ps[i] == (Lower(tags[i].0), Str(ToStr(tags[i].1)))
  {
    seq(|tags|, i requires 0 <= i < |tags| => (Lower(tags[i].0), Str(ToStr(tags[i].1))))
  }

  /** One `&key=value` pair is scanned as a pair, and the scan goes on
      after it. */
  lemma ScanPair(k: string, v: string, rest: string)
    requires k != [] && (forall j :: 0 <= j < |k| ==> !Delim(k[j])) && '&' !in v
    requires rest == [] || rest[0] == '&'
    ensures Scan("&" + k + "=" + v + rest) == [(Lower(k), Str(v))] + Scan(rest)
  {
    var s := "&" + k + "=" + v + rest;
    var t := k + "=" + v + rest;
    assert s[1..] == t;
    MatchAtPair(k, v, rest);
    assert NextMatch(s) == NextMatch(t);
  }

  lemma MatchAtPair(k: string, v: string, rest: string)
    requires k != [] && (forall j :: 0 <= j < |k| ==> !Delim(k[j])) && '&' !in v
    requires rest == [] || rest[0] == '&'
    ensures var t := k + "=" + v + rest; t[0] == k[0] && MatchAt(t) == (k, Str(v), rest)
  {
    var t := k + "=" + v + rest;
    KeyEndOf(k, "=" + v + rest);
    assert k + ("=" + v + rest) == t;
    assert t[|k| + 1..] == v + rest;
    ValueEndOf(v, rest);
    assert t[..|k|] == k;
    assert t[|k| + 1..|k| + 1 + |v|] == v;
    assert t[|k| + 1 + |v|..] == rest;
  }

  lemma KeyEndOf(k: string, t: string)
    requires (forall j :: 0 <= j < |k| ==> !Delim(k[j])) && t != [] && Delim(t[0])
    ensures KeyEnd(k + t) == |k|
  {
    assert forall j :: 0 <= j < |k| ==> (k + t)[j] == k[j];
    assert (k + t)[|k|] == t[0];
  }

  lemma ValueEndOf(v: string, rest: string)
    requires '&' !in v && (rest == [] || rest[0] == '&')
    ensures ValueEnd(v + rest) == |v|
  {
    assert forall j :: 0 <= j < |v| ==> (v + rest)[j] == v[j];
    if rest != [] {
      assert (v + rest)[|v|] == rest[0];
    }
  }

  /** The script-tag string reads back as the tags, keys lowercased. */
  lemma {:induction false} ScriptTagsReadBack(tags: seq<(string, Value)>)
    requires ScriptSafe(tags)
    ensures Scan(ScriptTags(tags)) == ReadBack(tags)
    decreases |tags|
  {
    if tags != [] {
      var rest := ScriptTags(tags[1..]);
      assert ScriptSafe(tags[1..]) by {
        forall i | 0 <= i < |tags[1..]| ensures tags[1..][i] == tags[i + 1] { }
      }
      ScriptTagsReadBack(tags[1..]);
      ScanPair(tags[0].0, ToStr(tags[0].1), rest);
      assert ReadBack(tags) == [(Lower(tags[0].0), Str(ToStr(tags[0].1)))] + ReadBack(tags[1..]);
    }
  }

  // ----- the request URL -----

  /** The request URL `perform` builds: the campaign key, then the default
      number and the message, each only when it is set. */
  function RequestUrl(config: Value): string {
    ResourceUrl + QueryText(ToStr(Setting(config, CampaignKey)),
      Setting(config, "default_number_replacement"), Setting(config, "message_replacement"))
  }

  /** The request URL after its `?`: `&campaign_key=` and the key, then the
      optional segments. */
  function QueryText(key: string, dn: Value, msg: Value): string {
    "&" + CampaignKey + "=" + key + (Segment("default_number", dn) + Segment("message", msg))
  }

  /** Text a URL can carry as one query value: no `&` and no line
      terminator. */
  predicate QuerySafe(s: string) {
    forall i :: 0 <= i < |s| ==> s[i] != '&' && !LineTerminator(s[i])
  }

  /** An optional `&key=value` segment of the request URL. */
  function Segment(key: string, v: Value): string {
    if Truthy(v) then "&" + key + "=" + ToStr(v) else ""
  }

  /** The pair a scan reads from an optional segment. */
  function SegmentPairs(key: string, v: Value): seq<(string, Value)> {
    if Truthy(v) then [(key, Str(ToStr(v)))] else []
  }

  /** A string without uppercase letters is its own lowercasing. */
  lemma LowerSame(s: string)
    requires forall i :: 0 <= i < |s| ==> !('A' <= s[i] <= 'Z')
    ensures Lower(s) == s
  {
  }

  /** An optional segment followed by text that starts a new pair scans as
      its pair and then that text. */
  lemma ScanSegment(key: string, v: Value, rest: string)
    requires PlainKey(key)
    requires (Truthy(v) ==> QuerySafe(ToStr(v))) && (rest == [] || rest[0] == '&')
    ensures Scan(Segment(key, v) + rest) == SegmentPairs(key, v) + Scan(rest)
  {
    if Truthy(v) {
      LowerSame(key);
      assert Segment(key, v) + rest == "&" + key + "=" + ToStr(v) + rest;
      ScanPair(key, ToStr(v), rest);
    } else {
      assert Segment(key, v) + rest == rest;
    }
  }

  /** Text without a line terminator. */
  predicate NoTerminator(s: string) {
    forall i :: 0 <= i < |s| ==> !LineTerminator(s[i])
  }

  lemma NoTerminatorAppend(a: string, b: string)
    requires NoTerminator(a) && NoTerminator(b)
    ensures NoTerminator(a + b)
  {
  }

  /** The query of the request URL is everything after its path. */
  lemma QueryOfRequestUrl(x: string)
    requires NoTerminator(x)
    ensures Query(ResourceUrl + x) == Some("?" + x)
  {
    var url := ResourceUrl + x;
    assert url[15] == '?';
    assert forall j :: 0 <= j < 15 ==> url[j] == ResourceUrl[j] && url[j] != '?';
    assert CharFrom(url, '?', 0) == Some(15);
    assert url[16..] == x;
    LineRestWhole(x);
  }

  lemma QueryTextNoTerminator(key: string, dn: Value, msg: Value)
    requires QuerySafe(key) && (Truthy(dn) ==> QuerySafe(ToStr(dn))) && (Truthy(msg) ==> QuerySafe(ToStr(msg)))
    ensures NoTerminator(QueryText(key, dn, msg))
  {
    var d, m := Segment("default_number", dn), Segment("message", msg);
    SegmentNoTerminator("default_number", dn);
    SegmentNoTerminator("message", msg);
    NoTerminatorAppend(d, m);
    KeyNoTerminator();
    NoTerminatorAppend("&" + CampaignKey + "=", key);
    NoTerminatorAppend("&" + CampaignKey + "=" + key, d + m);
  }

  lemma SegmentNoTerminator(key: string, v: Value)
    requires NoTerminator(key) && (Truthy(v) ==> QuerySafe(ToStr(v)))
    ensures NoTerminator(Segment(key, v))
  {
  }

  lemma KeyNoTerminator()
    ensures NoTerminator("&" + CampaignKey + "=")
    ensures NoTerminator("default_number") && NoTerminator("message")
  {
  }

  /** A query key: non-empty, lowercase, without delimiters. */
  predicate PlainKey(k: string) {
    k != [] && forall j :: 0 <= j < |k| ==> !Delim(k[j]) && !('A' <= k[j] <= 'Z')
  }

  lemma RequestKeysPlain()
    ensures PlainKey(CampaignKey) && PlainKey("default_number") && PlainKey("message")
  {
  }

  /** A leading `?` is skipped. */
  lemma ScanQuestion(s: string)
    ensures Scan("?" + s) == Scan(s)
  {
    assert ("?" + s)[1..] == s;
  }

  lemma ScanQueryText(key: string, dn: Value, msg: Value)
    requires QuerySafe(key) && (Truthy(dn) ==> QuerySafe(ToStr(dn))) && (Truthy(msg) ==> QuerySafe(ToStr(msg)))
    ensures Scan("?" + QueryText(key, dn, msg)) ==
      [(CampaignKey, Str(key))] + SegmentPairs("default_number", dn) + SegmentPairs("message", msg)
  {
    var d := Segment("default_number", dn) + Segment("message", msg);
    var p1, p2 := SegmentPairs("default_number", dn), SegmentPairs("message", msg);
    ScanQuestion(QueryText(key, dn, msg));
    ScanSegments(dn, msg);
    SegmentsStart(dn, msg);
    QuerySafeAmp(key);
    ScanCampaignPair(key, d);
    AppendAssoc([(CampaignKey, Str(key))], p1, p2);
  }

  /** The campaign-key pair is scanned as it was written. */
  lemma ScanCampaignPair(key: string, rest: string)
    requires '&' !in key && (rest == [] || rest[0] == '&')
    ensures Scan("&" + CampaignKey + "=" + key + rest) == [(CampaignKey, Str(key))] + Scan(rest)
  {
    RequestKeysPlain();
    LowerSame(CampaignKey);
    ScanPair(CampaignKey, key, rest);
  }

  /** The optional segments are empty or start with an `&`. */
  lemma SegmentsStart(dn: Value, msg: Value)
    ensures var d := Segment("default_number", dn) + Segment("message", msg);
      d == [] || d[0] == '&'
  {
  }

  lemma QuerySafeAmp(s: string)
    requires QuerySafe(s)
    ensures '&' !in s
  {
  }

  lemma ScanSegments(dn: Value, msg: Value)
    requires (Truthy(dn) ==> QuerySafe(ToStr(dn))) && (Truthy(msg) ==> QuerySafe(ToStr(msg)))
    ensures Scan(Segment("default_number", dn) + Segment("message", msg)) ==
      SegmentPairs("default_number", dn) + SegmentPairs("message", msg)
  {
    var m := Segment("message", msg);
    var p2 := SegmentPairs("message", msg);
    RequestKeysPlain();
    ScanSegment("message", msg, []);
    assert m + [] == m && p2 + [] == p2;
    ScanSegment("default_number", dn, m);
  }

  /** The query string of the request URL reads back as the campaign key,
      then the default number and the message when they are set, as long
      as none of them holds a `&` or a line terminator. */
  lemma RequestUrlReadsBack(config: Value)
    requires QuerySafe(ToStr(Setting(config, CampaignKey)))
    requires Truthy(Setting(config, "default_number_replacement")) ==>
      QuerySafe(ToStr(Setting(config, "default_number_replacement")))
    requires Truthy(Setting(config, "message_replacement")) ==>
      QuerySafe(ToStr(Setting(config, "message_replacement")))
    ensures Query(RequestUrl(config)).Some?
    ensures Scan(Query(RequestUrl(config)).value) ==
      [(CampaignKey, Str(ToStr(Setting(config, CampaignKey))))] +
      SegmentPairs("default_number", Setting(config, "default_number_replacement")) +
      SegmentPairs("message", Setting(config, "message_replacement"))
  {
    var key := ToStr(Setting(config, CampaignKey));
    var dn := Setting(config, "default_number_replacement");
    var msg := Setting(config, "message_replacement");
    QueryTextNoTerminator(key, dn, msg);
    QueryOfRequestUrl(QueryText(key, dn, msg));
    ScanQueryText(key, dn, msg);
  }

  // ----- cookies: extractCookie and getGACookies -----

  /** The length of the longest prefix of `s` without a `;`. */
  function CookieValueEnd(s: string): (e: nat)
    ensures e <= |s|
    ensures forall i :: 0 <= i < e ==> s[i] != ';'
    ensures e < |s| ==> s[e] == ';'
    decreases |s|
  {
    if s == [] || s[0] == ';' then 0 else 1 + CookieValueEnd(s[1..])
  }

  /** `extractCookie(name)` on the document's cookie string: the text after
      the first occurrence of `name=` (the pattern is not anchored at a
      cookie boundary) up to the next `;`, or `false` when there is none. */
  function ExtractCookie(cookie: string, name: string): (r: Value)
    ensures r.Str? <==> IndexOf(cookie, name + "=", 0).Some?
    ensures !r.Str? ==> r == Bool(false)
    ensures r.Str? ==> (
      var a := IndexOf(cookie, name + "=", 0).value + |name| + 1;
      a + |r.s| <= |cookie| && cookie[a..a + |r.s|] == r.s && ';' !in r.s &&
      (a + |r.s| == |cookie| || cookie[a + |r.s|] == ';'))
  {
    match IndexOf(cookie, name + "=", 0)
    case None => Bool(false)
    case Some(p) =>
      var rest := cookie[p + |name| + 1..];
      var e := CookieValueEnd(rest);
      assert cookie[p + |name| + 1..p + |name| + 1 + e] == rest[..e];
      Str(rest[..e])
  }

  const GACookieNames: seq<string> := ["__utma", "__utmb", "__utmc", "__utmz", "__utmv"]

  /** The cookies the first `n` names give: each one present with a
      non-empty value is assigned in turn. */
  function GAUpTo(cookie: string, n: nat): seq<(string, Value)>
    requires n <= |GACookieNames|
  {
    if n == 0 then []
    else
      var v := ExtractCookie(cookie, GACookieNames[n - 1]);
      if Truthy(v) then Put(GAUpTo(cookie, n - 1), GACookieNames[n - 1], v) else GAUpTo(cookie, n - 1)
  }

  /** `getGACookies()`: nothing unless `__utma` is present with a value. */
  function GACookies(cookie: string): seq<(string, Value)> {
    if Truthy(ExtractCookie(cookie, GACookieNames[0])) then GAUpTo(cookie, |GACookieNames|) else []
  }

  lemma {:induction false} GAUpToGet(cookie: string, n: nat, k: string)
    requires n <= |GACookieNames|
    ensures Get(GAUpTo(cookie, n), k) ==
      if k in GACookieNames[..n] && Truthy(ExtractCookie(cookie, k)) then Some(ExtractCookie(cookie, k)) else None
  {
    if n > 0 {
      GAUpToGet(cookie, n - 1, k);
      var v := ExtractCookie(cookie, GACookieNames[n - 1]);
      PutGet(GAUpTo(cookie, n - 1), GACookieNames[n - 1], v, k);
      assert GACookieNames[..n] == GACookieNames[..n - 1] + [GACookieNames[n - 1]];
    }
  }

  /** `getGACookies`: `{}` when `__utma` is missing or empty; otherwise
      each of the five cookies that is present with a value, and no
      other. */
  lemma GACookiesGet(cookie: string, k: string)
    ensures Get(GACookies(cookie), k) ==
      if Truthy(ExtractCookie(cookie, GACookieNames[0])) && k in GACookieNames &&
         Truthy(ExtractCookie(cookie, k))
      then Some(ExtractCookie(cookie, k)) else None
  {
    GAUpToGet(cookie, |GACookieNames|, k);
    assert GACookieNames[..|GACookieNames|] == GACookieNames;
  }

  /** `getGACookies`: the loop over the names, which stops at once when
      `__utma` has no value. */
  method GetGACookies(cookie: string) returns (cookies: seq<(string, Value)>)
    ensures cookies == GACookies(cookie)
  {
    cookies := [];
    var i := 0;
    while i < |GACookieNames|
      invariant 0 <= i <= |GACookieNames|
      invariant cookies == GAUpTo(cookie, i)
      invariant i > 0 ==> Truthy(ExtractCookie(cookie, GACookieNames[0]))
    {
      var cookieVal := ExtractCookie(cookie, GACookieNames[i]);
      if Truthy(cookieVal) || i > 0 {
        if Truthy(cookieVal) {
          cookies := Put(cookies, GACookieNames[i], cookieVal);
        }
      } else {
        break;
      }
      i := i + 1;
    }
  }

  // ----- perform -----

  const OriginalUrlCookie := "CallPixels-ou"

  /** What `perform` has ready before anything is sent: the request URL,
      the body, and the value written to the `CallPixels-ou` cookie, if
      any. */
  datatype Prepared = Prepared(url: string, body: seq<(string, Value)>, ouWrite: Option<string>)

  /** The page asks for the original URL to be reset: its `cpreset`
      parameter has a value. */
  predicate Reset(href: string) {
    var c := Get(AllParts([href]), "cpreset");
    c.Some? && Truthy(c.value)
  }

  /** The tags `perform` sends: the configured ones, or none. */
  function ConfiguredTags(config: Value): Value {
    var tags := Setting(config, "number_matching_tags");
    if Truthy(tags) then tags else Obj([])
  }

  /** The body: the encoded location, the encoded script tags and, when
      it is sent back, the original URL (a new property goes last). */
  function Body(u: string, st: string, ou: Option<string>): (b: seq<(string, Value)>)
    ensures KeysOf(b) == if ou.Some? then ["u", "st", "ou"] else ["u", "st"]
    ensures Get(b, "u") == Some(Str(u)) && Get(b, "st") == Some(Str(st))
    ensures ou.Some? ==> Get(b, "ou") == Some(Str(ou.value))
  {
    var b2 := [("u", Str(u)), ("st", Str(st))];
    assert b2[1..] == [("st", Str(st))];
    if ou.None? then b2
    else
      var b3 := b2 + [("ou", Str(ou.value))];
      assert b3[1..] == [("st", Str(st)), ("ou", Str(ou.value))] && b3[1..][1..] == [("ou", Str(ou.value))];
      assert Get(b3[1..][1..], "ou") == Some(Str(ou.value));
      b3
  }

  /** `perform(callback)` up to the point where the request may be sent;
      `href` is the page's location, `ou` the value of the `CallPixels-ou`
      cookie and `b64` the Base64 encoder. */
  function PrepareRequest(config: Value, callback: Value, href: string, ou: Option<string>,
                          b64: string -> string): (r: Result<Prepared>)
    ensures r.Err? <==> !callback.Func?
    ensures r.Err? ==> r.msg == CallbackMessage
    ensures r.Ok? ==> r.value.url == RequestUrl(config)
    ensures r.Ok? ==> (Get(r.value.body, "u") == Some(Str(b64(href))) &&
      Get(r.value.body, "st") == Some(Str(b64(ScriptTags(EnumFields(ConfiguredTags(config)))))))
    ensures r.Ok? ==> (r.value.ouWrite.Some? <==> Reset(href) || ou.None? || ou.value == "")
    ensures r.Ok? && r.value.ouWrite.Some? ==>
      r.value.ouWrite.value == b64(href) && KeysOf(r.value.body) == ["u", "st"]
    ensures r.Ok? && r.value.ouWrite.None? ==>
      KeysOf(r.value.body) == ["u", "st", "ou"] && Get(r.value.body, "ou") == Some(Str(ou.value))
  {
    if !callback.Func? then Err(CallbackMessage)
    else
      var u := b64(href);
      var st := b64(ScriptTags(EnumFields(ConfiguredTags(config))));
      if Reset(href) || ou.None? || ou.value == "" then
        Ok(Prepared(RequestUrl(config), Body(u, st, None), Some(u)))
      else
        Ok(Prepared(RequestUrl(config), Body(u, st, ou), None))
  }

  /** What can trigger a send: the one-second timer (or a failed probe),
      or the analytics callback with the account and the `JSON.stringify`
      text of its cookies. */
  datatype Trigger = Timer | Analytics(account: string, cookiesJson: string)

  /** The body a trigger sends. */
  function BodyFor(body: seq<(string, Value)>, t: Trigger, b64: string -> string): seq<(string, Value)> {
    match t
    case Timer => body
    case Analytics(account, json) => Put(Put(body, "ga", Str(b64(account))), "c", Str(b64(json)))
  }

  /** The state `perform`'s two closures share: the body and the flag that
      lets only the first of them send. `sent` lists the `getJSON` calls
      made, as URL and body. */
  class PendingRequest {
    const url: string
    const callback: Value
    var body: seq<(string, Value)>
    var requestRan: bool
    var sent: seq<(string, seq<(string, Value)>)>

    /** Nothing is sent before the flag is set, and once after. */
    ghost predicate Valid()
      reads this
    {
      if requestRan then |sent| == 1 else sent == []
    }

    constructor (url: string, body: seq<(string, Value)>, callback: Value)
      ensures this.url == url && this.body == body && this.callback == callback
      ensures !requestRan && sent == [] && Valid()
    {
      this.url := url;
      this.body := body;
      this.callback := callback;
      requestRan := false;
      sent := [];
    }

    /** `runRequest`: sends the body as it is, unless a request ran. */
    method RunRequest()
      requires Valid()
      modifies this
      ensures Valid() && requestRan && body == old(body)
      ensures sent == if old(requestRan) then old(sent) else [(url, body)]
    {
      if !requestRan {
        requestRan := true;
        sent := sent + [(url, body)];
      }
    }

    /** `sendGARequest(account, cookies)`: adds the analytics fields and
        sends, unless a request ran. */
    method SendGARequest(account: string, cookiesJson: string, b64: string -> string)
      requires Valid()
      modifies this
      ensures Valid() && requestRan
      ensures old(requestRan) ==> body == old(body) && sent == old(sent)
      ensures !old(requestRan) ==>
        body == BodyFor(old(body), Analytics(account, cookiesJson), b64) && sent == [(url, body)]
    {
      if !requestRan {
        requestRan := true;
        body := Put(body, "ga", Str(b64(account)));
        body := Put(body, "c", Str(b64(cookiesJson)));
        sent := sent + [(url, body)];
      }
    }

    /** Any sequence of triggers sends at most one request: the first
        trigger's, when no request ran before. */
    method Deliver(triggers: seq<Trigger>, b64: string -> string)
      requires Valid()
      modifies this
      ensures Valid() && |sent| <= 1
      ensures old(requestRan) || triggers == [] ==> sent == old(sent)
      ensures !old(requestRan) && triggers != [] ==>
        sent == [(url, BodyFor(old(body), triggers[0], b64))]
    {
      for i := 0 to |triggers|
        invariant Valid()
        invariant old(requestRan) || i == 0 ==> sent == old(sent) && body == old(body)
        invariant !old(requestRan) && i > 0 ==> sent == [(url, BodyFor(old(body), triggers[0], b64))]
        invariant i > 0 ==> requestRan
      {
        match triggers[i]
        case Timer => RunRequest();
        case Analytics(account, json) => SendGARequest(account, json, b64);
      }
    }
  }

  /** `perform(callback)`: throws unless the callback is a function;
      otherwise prepares the URL, the body and the `CallPixels-ou` write,
      and creates the state the two closures share, ready for the first
      trigger. */
  method Perform(config: Value, callback: Value, href: string, ou: Option<string>, b64: string -> string)
    returns (r: Result<PendingRequest>, ouWrite: Option<string>)
    ensures r.Err? <==> PrepareRequest(config, callback, href, ou, b64).Err?
    ensures r.Err? ==> r.msg == CallbackMessage && ouWrite.None?
    ensures r.Ok? ==> (
      var p := PrepareRequest(config, callback, href, ou, b64).value;
      fresh(r.value) && r.value.Valid() && !r.value.requestRan && r.value.sent == [] &&
      r.value.url == p.url && r.value.body == p.body && r.value.callback == callback &&
      ouWrite == p.ouWrite)
  {
    var prepared := PrepareRequest(config, callback, href, ou, b64);
    if prepared.Err? {
      return Err(prepared.msg), None;
    }
    ouWrite := prepared.value.ouWrite;
    var p := new PendingRequest(prepared.value.url, prepared.value.body, callback);
    r := Ok(p);
  }
}
