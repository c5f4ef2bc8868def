/** The request object of src/http/request.c: methods, header store and length. */
module Request {
  import opened Common
  import opened Strings

  datatype Method = Get | Post | Put | Delete | Connect | Options | Trace | Patch | Invalid

  /** `httpserv_http_strmethod`; None is the null pointer. */
  function StrMethod(m: Method): Option<string> {
    match m
    case Get => Some("GET")
    case Post => Some("POST")
    case Put => Some("PUT")
    case Delete => Some("DELETE")
    case Connect => Some("CONNECT")
    case Options => Some("OPTIONS")
    case Trace => Some("TRACE")
    case Patch => Some("PATCH")
    case Invalid => None
  }

  /** `httpserv_http_strtomethod`. */
  function StrToMethod(s: string): Method {
    if Streq(s, "GET") == 0 then Get
    else if Streq(s, "POST") == 0 then Post
    else if Streq(s, "PUT") == 0 then Put
    else if Streq(s, "DELETE") == 0 then Delete
    else if Streq(s, "CONNECT") == 0 then Connect
    else if Streq(s, "OPTIONS") == 0 then Options
    else if Streq(s, "TRACE") == 0 then Trace
    else if Streq(s, "PATCH") == 0 then Patch
    else Invalid
  }

  /** The two tables are inverse to each other. */
  lemma MethodTables(s: string, m: Method)
    requires NulFree(s)
    ensures StrToMethod(s) == m && m != Invalid <==> StrMethod(m) == Some(s)
  {
    StreqIsEquality(s, "GET");
    StreqIsEquality(s, "POST");
    StreqIsEquality(s, "PUT");
    StreqIsEquality(s, "DELETE");
    StreqIsEquality(s, "CONNECT");
    StreqIsEquality(s, "OPTIONS");
    StreqIsEquality(s, "TRACE");
    StreqIsEquality(s, "PATCH");
  }

  // ----- headers -----

  datatype Field = Field(key: string, value: string)

  /** The text under which a field is stored. */
  function Text(f: Field): string {
    f.key + ": " + f.value
  }

  function Texts(fs: seq<Field>): (ts: seq<string>)
    ensures |ts| == |fs|
    ensures forall i | 0 <= i < |fs| :: ts[i] == Text(fs[i])
  {
    if fs == [] then [] else [Text(fs[0])] + Texts(fs[1..])
  }

  lemma TextsConcat(fs: seq<Field>, gs: seq<Field>)
    ensures Texts(fs + gs) == Texts(fs) + Texts(gs)
  {
  }

  /** The result of a header lookup. PastEnd: the pointer that is returned lies behind the
      terminator of the stored text. */
  datatype Lookup = NotFound | Found(value: string) | PastEnd

  /** The pointer |key| + 2 bytes into the stored text. */
  function AfterKey(text: string, key: string): Lookup {
    if |key| + 2 <= |text| then Found(text[|key| + 2..]) else PastEnd
  }

  /** The place of the first stored text that starts with key, or the number of texts. */
  ghost function FirstMatch(texts: seq<string>, key: string): (i: nat)
    ensures i <= |texts|
    ensures i < |texts| ==> key <= texts[i]
    ensures forall k | 0 <= k < i :: !(key <= texts[k])
  {
    if texts == [] || key <= texts[0] then 0 else 1 + FirstMatch(texts[1..], key)
  }

  /** What the lookup of key in the stored texts gives. */
  ghost function LookupIn(texts: seq<string>, key: string): Lookup {
    var i := FirstMatch(texts, key);
    if i < |texts| then AfterKey(texts[i], key) else NotFound
  }

  // ----- the canonical bytes -----

  function Lines(texts: seq<string>): string {
    if texts == [] then "" else texts[0] + CRLF + Lines(texts[1..])
  }

  /** The canonical request of sections 2.1 and 3 of RFC 9112: request line, header lines,
      empty line, body. */
  function Serialize(name: string, path: string, texts: seq<string>, body: string): string {
    name + " " + path + " HTTP/1.1" + CRLF + Lines(texts) + CRLF + body
  }

  // ----- the object -----

  /** httpserv_http_request_t. */
  class HttpRequest {
    var verb: Method
    var path: string
    var headers: seq<string>
    var body: string

    /** `httpserv_http_request_new`. */
    constructor (m: Method, p: string)
      ensures verb == m && path == p && headers == [] && body == ""
    {
      verb, path, headers, body := m, p, [], "";
    }

    /** `httpserv_http_request_add_header`. */
    method AddHeader(key: string, value: string)
      modifies this
      ensures headers == old(headers) + [Text(Field(key, value))]
      ensures verb == old(verb) && path == old(path) && body == old(body)
    {
      headers := headers + [key + ": " + value];
    }

    /** `httpserv_http_request_set_body`: the first len bytes of b. The content length is
        the length of the body. */
    method SetBody(b: string, len: nat)
      requires len <= |b|
      modifies this
      ensures body == b[..len]
      ensures verb == old(verb) && path == old(path) && headers == old(headers)
    {
      body := b[..len];
    }

    /** `httpserv_http_request_get_header`: nothing without a request; otherwise the first
        stored text that starts with key decides, whatever key it was stored under. */
    static method GetHeader(req: HttpRequest?, key: string) returns (r: Lookup)
      requires NulFree(key)
      requires req != null ==> forall i | 0 <= i < |req.headers| :: NulFree(req.headers[i])
      ensures r == if req == null then NotFound else LookupIn(req.headers, key)
    {
      if req == null {
        return NotFound;
      }
      var i := 0;
      r := NotFound;
      while i < |req.headers|
        invariant 0 <= i <= |req.headers|
        invariant r == NotFound
        invariant forall k | 0 <= k < i :: !(key <= req.headers[k])
      {
        StrncmpIsPrefixTest(req.headers[i], key);
        if Strncmp(req.headers[i], key, |key|) == 0 {
          r := AfterKey(req.headers[i], key);
          break;
        }
        i := i + 1;
      }
    }

    /** The length that `httpserv_http_request_build` allocates. */
    method BuildLength() returns (len: nat)
      requires verb != Invalid
      ensures len == |Serialize(StrMethod(verb).value, path, headers, body)|
    {
      len := 9 + |StrMethod(verb).value| + 1 + |path| + 4 + |body|;
      var i := 0;
      assert headers[0..] == headers;
      while i < |headers|
        invariant 0 <= i <= |headers|
        invariant len + |Lines(headers[i..])| == |Serialize(StrMethod(verb).value, path, headers, body)|
      {
        assert headers[i..][1..] == headers[i + 1..];
        len := len + |headers[i]| + 2;
        i := i + 1;
      }
    }
  }

  // ----- what a lookup finds -----

  /** A lookup is null exactly if no stored text starts with the key. */
  lemma LookupNullIff(texts: seq<string>, key: string)
    ensures LookupIn(texts, key) == NotFound <==> forall i | 0 <= i < |texts| :: !(key <= texts[i])
  {
  }

  /** What a lookup gives is read off the first text that starts with the key: what stands
      behind the key and two more bytes, or a pointer past the end if there are no such two. */
  lemma LookupIsBehindKey(texts: seq<string>, key: string, i: nat)
    requires i < |texts| && key <= texts[i] && forall k | 0 <= k < i :: !(key <= texts[k])
    ensures LookupIn(texts, key) == PastEnd <==> |texts[i]| < |key| + 2
    ensures forall separator: string, value: string | |separator| == 2 && texts[i] == key + separator + value ::
              LookupIn(texts, key) == Found(value)
    ensures LookupIn(texts, key) != NotFound
  {
    assert FirstMatch(texts, key) == i;
  }

  /** The place of the first field with this very key, or the number of fields. */
  ghost function FirstNamed(fs: seq<Field>, key: string): (i: nat)
    ensures i <= |fs|
    ensures i < |fs| ==> fs[i].key == key
    ensures forall k | 0 <= k < i :: fs[k].key != key
  {
    if fs == [] || fs[0].key == key then 0 else 1 + FirstNamed(fs[1..], key)
  }

  /** The value sent under a key. */
  ghost function ValueOf(fs: seq<Field>, key: string): Lookup {
    var i := FirstNamed(fs, key);
    if i < |fs| then Found(fs[i].value) else NotFound
  }

  /** No field before the first one named key, and none at all if there is none, is stored
      under a text that starts with key. */
  ghost predicate Unshadowed(fs: seq<Field>, key: string) {
    forall i | 0 <= i < FirstNamed(fs, key) :: !(key <= Text(fs[i]))
  }

  lemma NamedFieldMatches(f: Field, key: string)
    requires f.key == key
    ensures key <= Text(f) && AfterKey(Text(f), key) == Found(f.value)
  {
  }

  /** The lookup reads the field named key exactly if no earlier text starts with key; then
      it returns the value that was sent. */
  lemma LookupReadsNamedFieldIff(fs: seq<Field>, key: string)
    ensures FirstMatch(Texts(fs), key) == FirstNamed(fs, key) <==> Unshadowed(fs, key)
    ensures Unshadowed(fs, key) ==> LookupIn(Texts(fs), key) == ValueOf(fs, key)
  {
    var n := FirstNamed(fs, key);
    if n < |fs| {
      NamedFieldMatches(fs[n], key);
      assert key <= Texts(fs)[n];
    }
  }

  /** A lookup after any run of additions. */
  method LookupAfterAdds(m: Method, path: string, fields: seq<Field>, key: string) returns (r: Lookup)
    requires NulFree(key) && forall i | 0 <= i < |fields| :: NulFree(Text(fields[i]))
    ensures r == LookupIn(Texts(fields), key)
    ensures r == NotFound <==> forall i | 0 <= i < |fields| :: !(key <= Text(fields[i]))
    ensures Unshadowed(fields, key) ==> r == ValueOf(fields, key)
  {
    var req := new HttpRequest(m, path);
    for n := 0 to |fields|
      invariant fresh(req) && req.headers == Texts(fields[..n])
    {
      TextsConcat(fields[..n], [fields[n]]);
      assert fields[..n + 1] == fields[..n] + [fields[n]];
      req.AddHeader(fields[n].key, fields[n].value);
    }
    assert fields[..|fields|] == fields;
    r := HttpRequest.GetHeader(req, key);
    LookupNullIff(Texts(fields), key);
    LookupReadsNamedFieldIff(fields, key);
  }

  /** A longer key in front shadows the key that is asked for: the lookup then returns a
      piece of the wrong field. */
  lemma LongerKeyShadows()
    ensures var fs := [Field("Content-Length", "5"), Field("Content", "a")];
            ValueOf(fs, "Content") == Found("a") && LookupIn(Texts(fs), "Content") == Found("ength: 5")
  {
  }
}
