/** The HTTP request helper (`Request`): the configuration check of its
    constructor, the URL of an API request, the `visitor_id` it adds to a
    payload, the normalisation of callbacks, the form encoding of a post
    body, and the connection the library shares. The transports (XHR,
    XDomainRequest, easyXDM) are not part of this model; the value of the
    `CallPixels-vid` cookie and the page's protocol are parameters. */
module Requests {
  import opened Js
  import opened Helpers

  const RequiredConfig: seq<string> := ["http_prefix", "addr", "urlregex"]
  const ApiAddr := "api.rtvrapi.com"
  /** The source text of the regular expression that extracts a URL's path. */
  const UrlRegex := "/\\/\\/[^\\/]*\\/(.*)/"

  /** A property of the configuration; reading one that is absent gives
      `undefined`. */
  function Setting(config: Value, k: string): Value {
    Prop(config, k).GetOr(Undefined)
  }

  /** A request helper with its checked configuration. */
  class Request {
    const config: Value

    constructor Make(config: Value)
      ensures this.config == config
    {
      this.config := config;
    }

    /** `new Request(options)`: throws unless `http_prefix`, `addr` and
        `urlregex` are all defined. */
    static method New(options: Value) returns (r: Result<Request>)
      ensures r.Ok? <==> forall i :: 0 <= i < |RequiredConfig| ==> Defined(options, RequiredConfig[i])
      ensures r.Ok? ==> fresh(r.value) && r.value.config == options
      ensures r.Err? ==> (r.msg == if options.Null? then TypeError else RequiredKeysMessage(RequiredConfig))
    {
      var checked := AssertRequiredKeys(options, RequiredConfig);
      if checked.Err? {
        return Err(checked.msg);
      }
      var request := new Request.Make(checked.value);
      return Ok(request);
    }
  }

  /** The URL of an API request: `http_prefix://addr` and the request
      URI. */
  function ApiUrl(config: Value, uri: string): string {
    ToStr(Setting(config, "http_prefix")) + "://" + ToStr(Setting(config, "addr")) + uri
  }

  // ----- the connection singleton -----

  /** `protocol.replace(':', '')`: the first `:` removed. */
  function RemoveFirstColon(s: string): (r: string)
    ensures ':' !in s ==> r == s
    ensures ':' in s ==> |r| == |s| - 1
    ensures ':' in s ==> exists p :: 0 <= p < |s| && s[p] == ':' && ':' !in s[..p] && r == s[..p] + s[p + 1..]
  {
    match CharFrom(s, ':', 0)
    case None => s
    case Some(p) =>
      assert ':' !in s[..p] by {
        forall j | 0 <= j < p ensures s[..p][j] != ':' {}
      }
      s[..p] + s[p + 1..]
  }

  /** The configuration of the shared connection for a page served with
      `protocol` (such as "https:"). */
  function ConnectionConfig(protocol: string): (c: Value)
    ensures forall i :: 0 <= i < |RequiredConfig| ==> Defined(c, RequiredConfig[i])
    ensures Setting(c, "addr") == Str(ApiAddr)
    ensures Setting(c, "http_prefix") == Str(RemoveFirstColon(protocol))
    ensures Setting(c, "urlregex") == Str(UrlRegex)
  {
    var fs := [("addr", Str(ApiAddr)), ("http_prefix", Str(RemoveFirstColon(protocol))),
      ("urlregex", Str(UrlRegex))];
    assert fs[1..] == [fs[1], fs[2]] && fs[1..][1..] == [fs[2]];
    assert Get(fs[1..][1..], "urlregex") == Some(Str(UrlRegex));
    assert Get(fs[1..], "http_prefix") == Some(Str(RemoveFirstColon(protocol)));
    assert Get(fs[1..], "urlregex") == Some(Str(UrlRegex));
    Obj(fs)
  }

  /** The shared connection's API URLs: for a protocol such as "https:",
      the protocol without its colon, then the API host and the URI. */
  lemma ConnectionUrl(protocol: string, uri: string)
    requires protocol != [] && protocol[|protocol| - 1] == ':' && ':' !in protocol[..|protocol| - 1]
    ensures ApiUrl(ConnectionConfig(protocol), uri) == protocol[..|protocol| - 1] + "://" + ApiAddr + uri
  {
    TrailingColon(protocol);
  }

  /** A protocol's only colon, at its end, is what the replacement removes. */
  lemma TrailingColon(protocol: string)
    requires protocol != [] && protocol[|protocol| - 1] == ':' && ':' !in protocol[..|protocol| - 1]
    ensures RemoveFirstColon(protocol) == protocol[..|protocol| - 1]
  {
    var n := |protocol| - 1;
    assert forall j :: 0 <= j < n ==> protocol[j] == protocol[..n][j];
    assert CharFrom(protocol, ':', 0) == Some(n);
    assert protocol[n + 1..] == [];
  }

  /** The static `_connection` field. */
  class Connections {
    var connection: Option<Request>

    constructor ()
      ensures connection.None?
    {
      connection := None;
    }

    /** `Request.connection()`: builds the shared request helper on the
        first call and returns the same one on every call after it. */
    method Connection(protocol: string) returns (r: Request)
      modifies this
      ensures connection == Some(r)
      ensures old(connection).Some? ==> r == old(connection).value
      ensures old(connection).None? ==> fresh(r) && r.config == ConnectionConfig(protocol)
    {
      if connection.None? {
        var created := Request.New(ConnectionConfig(protocol));
        r := created.value;
        connection := Some(r);
      } else {
        r := connection.value;
      }
    }
  }

  // ----- the visitor id -----

  /** The payload of an API request once `visitor_id` has been copied into
      it from the `CallPixels-vid` cookie `vid`: only when there is a
      payload and the cookie is defined and is not "null". Writing a
      property of a primitive throws in strict mode; a property of an array
      or a function is not part of this model, so those payloads are kept
      as they are. */
  function VisitorPayload(payload: Value, vid: Option<string>): (r: Result<Value>)
    ensures !Truthy(payload) || vid.None? || vid.value == "null" ==> r == Ok(payload)
    ensures r.Err? <==> (Truthy(payload) && (payload.Str? || payload.Num? || payload.Bool?) &&
      vid.Some? && vid.value != "null")
    ensures r.Err? ==> r.msg == TypeError
    ensures payload.Obj? ==> (r.Ok? && r.value.Obj? &&
      Get(r.value.fields, "visitor_id") ==
        (if vid.Some? && vid.value != "null" then Some(Str(vid.value)) else Get(payload.fields, "visitor_id")))
    ensures payload.Obj? ==> forall k :: k != "visitor_id" ==> Get(r.value.fields, k) == Get(payload.fields, k)
  {
    if Truthy(payload) && vid.Some? && vid.value != "null" then
      match payload
      case Obj(fs) =>
        assert forall k :: (Get(Put(fs, "visitor_id", Str(vid.value)), k) ==
          if k == "visitor_id" then Some(Str(vid.value)) else Get(fs, k)) by {
          forall k { PutGet(fs, "visitor_id", Str(vid.value), k); }
        }
        Ok(Obj(Put(fs, "visitor_id", Str(vid.value))))
      case Arr(_) => Ok(payload)
      case Func(_) => Ok(payload)
      case _ => Err(TypeError)
    else Ok(payload)
  }

  // ----- callbacks -----

  /** The callback argument of `getJSON` and `apiRequest` as a list: a
      function alone, the items of an array, or nothing. */
  function CallbackList(callbacks: Value): (r: seq<Value>)
    ensures forall i :: 0 <= i < |r| ==> r[i] == callbacks || (callbacks.Arr? && r[i] in callbacks.items)
    ensures callbacks.Func? ==> r == [callbacks]
    ensures !callbacks.Func? && !IsArray(callbacks) ==> r == []
    ensures IsArray(callbacks) ==> r == callbacks.items
  {
    if TypeOf(callbacks) == "function" then [callbacks]
    else if IsArray(callbacks) then callbacks.items
    else []
  }

  /** The functions a response is given to: the callbacks that are
      functions, in order. */
  function Fired(callbacks: seq<Value>): seq<nat>
    decreases |callbacks|
  {
    if callbacks == [] then []
    else (if callbacks[0].Func? then [callbacks[0].fid] else []) + Fired(callbacks[1..])
  }

  /** Exactly the callbacks that are functions are called. */
  lemma {:induction false} FiredSpec(callbacks: seq<Value>)
    ensures forall i :: 0 <= i < |Fired(callbacks)| ==> Func(Fired(callbacks)[i]) in callbacks
    ensures forall c :: c in callbacks && c.Func? ==> c.fid in Fired(callbacks)
    decreases |callbacks|
  {
    if callbacks != [] {
      FiredSpec(callbacks[1..]);
      assert forall c :: c in callbacks ==> c == callbacks[0] || c in callbacks[1..];
    }
  }

  /** `runCallbacks(response)`: the loop that calls each callback that is a
      function. */
  method RunCallbacks(callbacks: seq<Value>) returns (calls: seq<nat>)
    ensures calls == Fired(callbacks)
  {
    calls := [];
    for i := 0 to |callbacks|
      invariant calls + Fired(callbacks[i..]) == Fired(callbacks)
    {
      assert callbacks[i..][1..] == callbacks[i + 1..];
      var now := if callbacks[i].Func? then [callbacks[i].fid] else [];
      AppendAssoc(calls, now, Fired(callbacks[i + 1..]));
      calls := calls + now;
    }
    assert callbacks[|callbacks|..] == [];
  }

  /** With the callbacks normalised, a response goes to the one function
      given, to the functions in the array given, or to nobody. */
  lemma NormalisedFired(callbacks: Value)
    ensures callbacks.Func? ==> Fired(CallbackList(callbacks)) == [callbacks.fid]
    ensures callbacks.Arr? ==> Fired(CallbackList(callbacks)) == Fired(callbacks.items)
    ensures !callbacks.Func? && !callbacks.Arr? ==> Fired(CallbackList(callbacks)) == []
  {
    if callbacks.Func? {
      assert [callbacks][1..] == [];
    }
  }

  // ----- buildPost -----

  /** The form encoding of a post body: `key=value&` for each property, in
      order. */
  function PostVars(fields: seq<(string, Value)>): string
    decreases |fields|
  {
    if fields == [] then "" else fields[0].0 + "=" + ToStr(fields[0].1) + "&" + PostVars(fields[1..])
  }

  /** `buildPost(obj)`: the loop over the enumerable properties. */
  method BuildPost(obj: Value) returns (postVars: string)
    ensures postVars == PostVars(EnumFields(obj))
  {
    var fields := EnumFields(obj);
    postVars := "";
    for i := 0 to |fields|
      invariant postVars + PostVars(fields[i..]) == PostVars(fields)
    {
      var piece := fields[i].0 + "=" + ToStr(fields[i].1) + "&";
      assert fields[i..][1..] == fields[i + 1..];
      assert PostVars(fields[i..]) == piece + PostVars(fields[i + 1..]);
      postVars := postVars + piece;
    }
    assert fields[|fields|..] == [];
  }

  /** The `key=value` texts of the properties. */
  function Assignments(fields: seq<(string, Value)>): (r: seq<string>)
    ensures |r| == |fields|
    ensures forall i :: 0 <= i < |fields| ==> r[i] == fields[i].0 + "=" + ToStr(fields[i].1)
  {
    seq(|fields|, i requires 0 <= i < |fields| => fields[i].0 + "=" + ToStr(fields[i].1))
  }

  lemma {:induction false} PostVarsJoin(fields: seq<(string, Value)>)
    ensures PostVars(fields) == Join(Assignments(fields) + [""], "&")
    decreases |fields|
  {
    if fields != [] {
      PostVarsJoin(fields[1..]);
      var a := Assignments(fields);
      assert a + [""] == [a[0]] + (Assignments(fields[1..]) + [""]);
      assert (a + [""])[1..] == Assignments(fields[1..]) + [""];
    }
  }

  /** Splitting a post body at `&` gives back each `key=value`, then the
      empty text after the last `&`, when no key or value holds a `&`;
      an empty object gives the empty string. */
  lemma BuildPostSplits(fields: seq<(string, Value)>)
    requires forall i :: 0 <= i < |fields| ==> '&' !in fields[i].0 && '&' !in ToStr(fields[i].1)
    ensures fields == [] ==> PostVars(fields) == ""
    ensures Split(PostVars(fields), "&") == Assignments(fields) + [""]
  {
    PostVarsJoin(fields);
    AssignmentsFree(fields);
    SplitJoin(Assignments(fields) + [""], "&");
  }

  lemma AssignmentsFree(fields: seq<(string, Value)>)
    requires forall i :: 0 <= i < |fields| ==> '&' !in fields[i].0 && '&' !in ToStr(fields[i].1)
    ensures forall i :: 0 <= i < |Assignments(fields) + [""]| ==> "&"[0] !in (Assignments(fields) + [""])[i]
  {
    var parts := Assignments(fields) + [""];
    forall i | 0 <= i < |parts| ensures "&"[0] !in parts[i] {
      if i < |fields| {
        assert parts[i] == fields[i].0 + "=" + ToStr(fields[i].1);
      }
    }
  }
}
