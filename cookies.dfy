/** The cookie jar wrapper: reading the document's cookie-string into a
    cached dictionary, and writing one `Set-Cookie`-style string per `set`.
    `encodeURIComponent` and `decodeURIComponent` are not part of this
    model: they are the jar's `encode` and `decode` functions. */
module Cookies {
  import opened Js

  /** The options a caller may pass to `set`; `None` is an absent property. */
  datatype CookieOptions = CookieOptions(path: Option<string>, domain: Option<string>, secure: Option<bool>)

  /** `Cookies.defaults`: a path, and optionally a domain and `secure`. */
  datatype CookieDefaults = CookieDefaults(path: string, domain: Option<string>, secure: Option<bool>)

  /** The defaults the class starts with: path "/" and nothing else. */
  const InitialDefaults := CookieDefaults("/", None, None)

  /** `(x && x.f) || d` for an optional string: an absent or empty string
      falls back to `d`. */
  function OrDefault(x: Option<string>, d: Option<string>): Option<string> {
    if x.Some? && x.value != "" then x else d
  }

  /** `_getExtendedOptions`: the path falls back to the default path, the
      domain to the default domain, and `secure` is the caller's whenever
      the caller defined it. */
  function ExtendedOptions(options: Option<CookieOptions>, d: CookieDefaults): (e: CookieOptions)
    ensures options.Some? && options.value.path.Some? && options.value.path.value != "" ==>
      e.path == options.value.path
    ensures !(options.Some? && options.value.path.Some? && options.value.path.value != "") ==>
      e.path == Some(d.path)
    ensures options.Some? && options.value.domain.Some? && options.value.domain.value != "" ==>
      e.domain == options.value.domain
    ensures !(options.Some? && options.value.domain.Some? && options.value.domain.value != "") ==>
      e.domain == d.domain
    ensures options.Some? && options.value.secure.Some? ==> e.secure == options.value.secure
    ensures !(options.Some? && options.value.secure.Some?) ==> e.secure == d.secure
  {
    match options
    case None => CookieOptions(Some(d.path), d.domain, d.secure)
    case Some(o) =>
      CookieOptions(OrDefault(o.path, Some(d.path)), OrDefault(o.domain, d.domain),
                    if o.secure.Some? then o.secure else d.secure)
  }

  /** The characters the value encoder keeps as they are. */
  predicate Kept(c: char) {
    c == '!' || c == '#' || c == '$' || ('&' <= c <= '+') || ('-' <= c <= ':') ||
    ('<' <= c <= '[') || (']' <= c <= '~')
  }

  /** A `cookie-octet` of section 4.1.1 of RFC 6265. */
  predicate CookieOctet(c: char) {
    var n := c as int;
    n == 0x21 || (0x23 <= n <= 0x2B) || (0x2D <= n <= 0x3A) || (0x3C <= n <= 0x5B) || (0x5D <= n <= 0x7E)
  }

  /** The encoder keeps exactly the cookie-octets other than `%`, which it
      encodes so that decoding gives the value back. */
  lemma KeptOctets(c: char)
    ensures Kept(c) <==> CookieOctet(c) && c != '%'
  {
  }

  /** The value encoding: each character the encoder does not keep is
      replaced by its encoding. */
  function EncodeValue(v: string, encode: string -> string): (r: string)
    ensures (forall i :: 0 <= i < |v| ==> Kept(v[i])) ==> r == v
  {
    if v == [] then []
    else (if Kept(v[0]) then [v[0]] else encode([v[0]])) + EncodeValue(v[1..], encode)
  }

  /** An encoding that never yields `;` keeps `;` out of the value. */
  lemma {:induction false} EncodeValueNoSemicolon(v: string, encode: string -> string)
    requires forall x :: ';' !in encode(x)
    ensures ';' !in EncodeValue(v, encode)
  {
    if v != [] {
      EncodeValueNoSemicolon(v[1..], encode);
      var head := if Kept(v[0]) then [v[0]] else encode([v[0]]);
      assert EncodeValue(v, encode) == head + EncodeValue(v[1..], encode);
    }
  }

  function Attribute(prefix: string, v: Option<string>): string {
    if v.Some? && v.value != "" then prefix + v.value else ""
  }

  /** `_generateCookieString`. */
  function CookieString(name: string, value: string, o: CookieOptions, encode: string -> string): string {
    encode(name) + "=" + EncodeValue(value, encode) + Attribute(";path=", o.path) +
    Attribute(";domain=", o.domain) + (if o.secure == Some(true) then ";secure" else "")
  }

  function AttributeList(name: string, v: Option<string>): seq<string> {
    if v.Some? && v.value != "" then [name + "=" + v.value] else []
  }

  /** The attributes written after `name=value`, in order. */
  function Attributes(o: CookieOptions): seq<string> {
    AttributeList("path", o.path) + AttributeList("domain", o.domain) +
    (if o.secure == Some(true) then ["secure"] else [])
  }

  lemma JoinOptional(parts: seq<string>, name: string, v: Option<string>)
    requires parts != []
    ensures Join(parts + AttributeList(name, v), ";") == Join(parts, ";") + Attribute(";" + name + "=", v)
  {
    if v.Some? && v.value != "" {
      JoinSnoc(parts, ";", name + "=" + v.value);
    } else {
      assert parts + [] == parts;
    }
  }

  /** The generated string is `name=value` followed by the path, domain and
      secure attributes that are set, in that order, each after a `;`. */
  lemma CookieStringParts(name: string, value: string, o: CookieOptions, encode: string -> string)
    ensures CookieString(name, value, o, encode) ==
      Join([encode(name) + "=" + EncodeValue(value, encode)] + Attributes(o), ";")
  {
    var head := [encode(name) + "=" + EncodeValue(value, encode)];
    var l1 := AttributeList("path", o.path);
    var l2 := AttributeList("domain", o.domain);
    var l3: seq<string> := if o.secure == Some(true) then ["secure"] else [];
    JoinOptional(head, "path", o.path);
    JoinOptional(head + l1, "domain", o.domain);
    var two := head + l1 + l2;
    if o.secure == Some(true) {
      JoinSnoc(two, ";", "secure");
    } else {
      assert two + l3 == two;
    }
    SeqAssoc3(head, l1, l2, l3);
    assert Attributes(o) == l1 + l2 + l3;
    var all := head + Attributes(o);
    assert all == two + l3;
    assert Join(head, ";") == head[0];
    assert ";" + "path" + "=" == ";path=" && ";" + "domain" + "=" == ";domain=";
    assert ";" + "secure" == ";secure";
    var sec := if o.secure == Some(true) then ";secure" else "";
    assert Join(all, ";") == Join(two, ";") + sec;
    assert Join(two, ";") == Join(head, ";") + Attribute(";path=", o.path) + Attribute(";domain=", o.domain);
  }

  lemma SeqAssoc3<T>(a: seq<T>, b: seq<T>, c: seq<T>, d: seq<T>)
    ensures a + (b + c + d) == a + b + c + d
  {
  }

  /** Splitting the generated string at `;` gives back `name=value` and the
      attributes, when neither the encoded name nor the attribute values
      contain `;` and the encoding never yields one. */
  lemma CookieStringSplits(name: string, value: string, o: CookieOptions, encode: string -> string)
    requires forall x :: ';' !in encode(x)
    requires o.path.Some? ==> ';' !in o.path.value
    requires o.domain.Some? ==> ';' !in o.domain.value
    ensures Split(CookieString(name, value, o, encode), ";") ==
      [encode(name) + "=" + EncodeValue(value, encode)] + Attributes(o)
  {
    CookieStringParts(name, value, o, encode);
    var parts := [encode(name) + "=" + EncodeValue(value, encode)] + Attributes(o);
    CookiePartsFree(name, value, o, encode);
    SplitJoin(parts, ";");
  }

  lemma CookiePartsFree(name: string, value: string, o: CookieOptions, encode: string -> string)
    requires forall x :: ';' !in encode(x)
    requires o.path.Some? ==> ';' !in o.path.value
    requires o.domain.Some? ==> ';' !in o.domain.value
    ensures var parts := [encode(name) + "=" + EncodeValue(value, encode)] + Attributes(o);
      forall i :: 0 <= i < |parts| ==> ";"[0] !in parts[i]
  {
    EncodeValueNoSemicolon(value, encode);
    var parts := [encode(name) + "=" + EncodeValue(value, encode)] + Attributes(o);
    forall i | 0 <= i < |parts| ensures ";"[0] !in parts[i] {
      if i == 0 {
        assert parts[0] == encode(name) + "=" + EncodeValue(value, encode);
      }
    }
  }

  /** `_getKeyValuePairFromCookieString`: the key is the decoded text before
      the first `=`, the value the decoded text after it; without `=` the
      whole segment is the key and the value is the decoding of "". */
  function KeyValuePair(segment: string, decode: string -> string): (kv: (string, string))
    ensures IndexOf(segment, "=", 0).None? ==> kv == (decode(segment), decode(""))
    ensures IndexOf(segment, "=", 0).Some? ==>
      var p := IndexOf(segment, "=", 0).value;
      p < |segment| && segment[p] == '=' && '=' !in segment[..p] &&
      kv == (decode(segment[..p]), decode(segment[p + 1..]))
  {
    var sep := IndexOf(segment, "=", 0);
    var keyEnd := if sep.None? then |segment| else sep.value;
    FirstEquals(segment);
    assert segment[..|segment|] == segment;
    (decode(segment[..keyEnd]), decode(if keyEnd + 1 <= |segment| then segment[keyEnd + 1..] else ""))
  }

  lemma FirstEquals(segment: string)
    ensures IndexOf(segment, "=", 0).Some? ==>
      var p := IndexOf(segment, "=", 0).value;
      p < |segment| && segment[p] == '=' && '=' !in segment[..p]
  {
    IndexOfLeftmost(segment, "=", 0);
    if IndexOf(segment, "=", 0).Some? {
      var p := IndexOf(segment, "=", 0).value;
      forall q | 0 <= q < p ensures segment[..p][q] != '=' {
        assert !OccursAt(segment, "=", q);
      }
    }
  }

  /** A key without `=` joined to a value by `=` is split back into them. */
  lemma KeyValueJoin(k: string, v: string, decode: string -> string)
    requires '=' !in k
    ensures KeyValuePair(k + "=" + v, decode) == (decode(k), decode(v))
  {
    var s := k + "=" + v;
    forall q | 0 <= q < |k| ensures !OccursAt(s, "=", q) {
      assert s[q] == k[q];
    }
    assert OccursAt(s, "=", |k|);
    IndexOfAt(s, "=", 0, |k|);
    assert s[..|k|] == k && s[|k| + 1..] == v;
  }

  /** The segments of a cookie-string: none for the empty string, otherwise
      the pieces between `"; "` separators. */
  function Segments(s: string): seq<string> {
    if s == "" then [] else Split(s, "; ")
  }

  /** The cookies of `segments` added to `acc`, where a key already present
      keeps its value. */
  function AddPairs(acc: map<string, string>, segments: seq<string>, decode: string -> string): map<string, string>
    decreases |segments|
  {
    if segments == [] then acc
    else
      var kv := KeyValuePair(segments[0], decode);
      AddPairs(if kv.0 in acc then acc else acc[kv.0 := kv.1], segments[1..], decode)
  }

  /** Reference definition of the parse: the cookies of a cookie-string. */
  function ParseCookies(s: string, decode: string -> string): map<string, string> {
    AddPairs(map[], Segments(s), decode)
  }

  function Key(segment: string, decode: string -> string): string {
    KeyValuePair(segment, decode).0
  }

  /** The first segment with key `k` gives its value: a key is present once
      some segment has it, and its value is that of the first such segment. */
  lemma {:induction false} AddPairsFirstWins(acc: map<string, string>, segments: seq<string>,
                                             decode: string -> string, k: string)
    ensures k in AddPairs(acc, segments, decode) <==>
      k in acc || exists i :: 0 <= i < |segments| && Key(segments[i], decode) == k
    ensures k !in acc ==> forall i :: (0 <= i < |segments| && Key(segments[i], decode) == k &&
      (forall j :: 0 <= j < i ==> Key(segments[j], decode) != k)) ==>
      AddPairs(acc, segments, decode)[k] == KeyValuePair(segments[i], decode).1
    ensures k in acc ==> AddPairs(acc, segments, decode)[k] == acc[k]
    decreases |segments|
  {
    if segments != [] {
      var kv := KeyValuePair(segments[0], decode);
      var acc' := if kv.0 in acc then acc else acc[kv.0 := kv.1];
      AddPairsFirstWins(acc', segments[1..], decode, k);
      if exists i :: 0 <= i < |segments| && Key(segments[i], decode) == k {
        var i :| 0 <= i < |segments| && Key(segments[i], decode) == k;
        if i > 0 {
          assert Key(segments[1..][i - 1], decode) == k;
        }
      }
      forall i | 1 <= i < |segments| ensures segments[1..][i - 1] == segments[i] {
      }
    }
  }

  /** The empty cookie-string has no cookies. */
  lemma ParseEmpty(decode: string -> string)
    ensures ParseCookies("", decode) == map[]
  {
  }

  /** The parse of a cookie-string: a key is present exactly when some
      `"; "`-separated segment has it, and the first such segment gives its
      value. */
  lemma ParseFirstWins(s: string, decode: string -> string, k: string)
    ensures k in ParseCookies(s, decode) <==>
      exists i :: 0 <= i < |Segments(s)| && Key(Segments(s)[i], decode) == k
    ensures forall i :: (0 <= i < |Segments(s)| && Key(Segments(s)[i], decode) == k &&
      (forall j :: 0 <= j < i ==> Key(Segments(s)[j], decode) != k)) ==>
      ParseCookies(s, decode)[k] == KeyValuePair(Segments(s)[i], decode).1
  {
    AddPairsFirstWins(map[], Segments(s), decode, k);
  }

  /** `_getCookieObjectFromString`: the loop over the segments. */
  method CookieObjectFromString(s: string, decode: string -> string) returns (cookies: map<string, string>)
    ensures cookies == ParseCookies(s, decode)
  {
    cookies := map[];
    var cookieArray := if s != "" then Split(s, "; ") else [];
    var i := 0;
    while i < |cookieArray|
      invariant 0 <= i <= |cookieArray| && cookieArray == Segments(s)
      invariant AddPairs(cookies, cookieArray[i..], decode) == ParseCookies(s, decode)
    {
      assert cookieArray[i..][1..] == cookieArray[i + 1..];
      var kv := KeyValuePair(cookieArray[i], decode);
      if kv.0 !in cookies {
        cookies := cookies[kv.0 := kv.1];
      }
      i := i + 1;
    }
  }

  /** The static state of the `Cookies` class and the document it reads:
      `documentCookie` is what `document.cookie` reads as, `written` the
      strings assigned to it. */
  class CookieJar {
    var documentCookie: string
    var written: seq<string>
    var cache: map<string, string>
    var cachedDocumentCookie: string
    var defaults: CookieDefaults
    const encode: string -> string
    const decode: string -> string

    /** The cache always holds the parse of the cookie-string it was read
        from. */
    ghost predicate Valid()
      reads this
    {
      cache == ParseCookies(cachedDocumentCookie, decode)
    }

    constructor (documentCookie: string, encode: string -> string, decode: string -> string)
      ensures this.documentCookie == documentCookie && written == []
      ensures cache == map[] && cachedDocumentCookie == "" && defaults == InitialDefaults
      ensures this.encode == encode && this.decode == decode
      ensures Valid()
    {
      this.documentCookie := documentCookie;
      written := [];
      cache := map[];
      cachedDocumentCookie := "";
      defaults := InitialDefaults;
      this.encode := encode;
      this.decode := decode;
    }

    /** `_renewCache`. */
    method RenewCache()
      modifies this
      ensures cache == ParseCookies(documentCookie, decode) && cachedDocumentCookie == documentCookie
      ensures documentCookie == old(documentCookie) && written == old(written) && defaults == old(defaults)
      ensures Valid()
    {
      cache := CookieObjectFromString(documentCookie, decode);
      cachedDocumentCookie := documentCookie;
    }

    /** `get`: re-read the cookie-string only when it changed since the last
        read; the value of `name`, if any, in the parse of the current
        cookie-string. */
    method Get(name: string) returns (r: Option<string>)
      requires Valid()
      modifies this
      ensures Valid() && cachedDocumentCookie == documentCookie
      ensures old(cachedDocumentCookie) == documentCookie ==> cache == old(cache)
      ensures r == if name in ParseCookies(documentCookie, decode)
        then Some(ParseCookies(documentCookie, decode)[name]) else None
      ensures documentCookie == old(documentCookie) && written == old(written) && defaults == old(defaults)
    {
      if cachedDocumentCookie != documentCookie {
        RenewCache();
      }
      r := if name in cache then Some(cache[name]) else None;
    }

    /** `set`: assign exactly the generated cookie string to the document,
        and return the class for chaining. */
    method Set(name: string, value: string, options: Option<CookieOptions>) returns (r: CookieJar)
      modifies this
      ensures r == this
      ensures written == old(written) + [CookieString(name, value, ExtendedOptions(options, defaults), encode)]
      ensures documentCookie == old(documentCookie) && cache == old(cache)
      ensures cachedDocumentCookie == old(cachedDocumentCookie) && defaults == old(defaults)
    {
      var extended := ExtendedOptions(options, defaults);
      written := written + [CookieString(name, value, extended, encode)];
      r := this;
    }
  }
}
