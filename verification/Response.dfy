/** The response object of src/http/response.c with the reason table of src/http/status.c. */
module Response {
  import opened Common
  import opened Request
  import opened Wire

  /** `httpserv_http_strstatus`; None is the null pointer. */
  function StrStatus(status: int): Option<string> {
    match status
    case 100 => Some("Continue")
    case 101 => Some("Switching Protocols")
    case 200 => Some("OK")
    case 201 => Some("Created")
    case 202 => Some("Accepted")
    case 203 => Some("Non-Authoritative Information")
    case 204 => Some("No Content")
    case 205 => Some("Reset Content")
    case 206 => Some("Partial Content")
    case 300 => Some("Multiple Choices")
    case 301 => Some("Moved Permanently")
    case 302 => Some("Found")
    case 303 => Some("See Other")
    case 304 => Some("Not Modified")
    case 307 => Some("Temporary Redirect")
    case 308 => Some("Permanent Redirect")
    case 400 => Some("Bad Request")
    case 401 => Some("Unauthorized")
    case 403 => Some("Forbidden")
    case 404 => Some("Not Found")
    case 405 => Some("Method Not Allowed")
    case 406 => Some("Not Acceptable")
    case 407 => Some("Proxy Authentication Required")
    case 408 => Some("Request Timeout")
    case 409 => Some("Conflict")
    case 410 => Some("Gone")
    case 411 => Some("Lenght Required")
    case 412 => Some("Precondition Failed")
    case 413 => Some("Payload Too Large")
    case 414 => Some("URI Too Long")
    case 415 => Some("Unsupported Media Type")
    case 416 => Some("Range Not Satisfiable")
    case 417 => Some("Expectation Failed")
    case 418 => Some("I'm a teapot")
    case 426 => Some("Upgrade Required")
    case 428 => Some("Precondition Required")
    case 429 => Some("Too Many Requests")
    case 431 => Some("Request Header Fields Too Large")
    case 451 => Some("Unavailable For Legal Reasons")
    case 500 => Some("Internal Server Error")
    case 501 => Some("Not Implemented")
    case 502 => Some("Bad Gateway")
    case 503 => Some("Service Unavailable")
    case 504 => Some("Gateway Timeout")
    case 505 => Some("HTTP Version Not Supported")
    case 506 => Some("Variant Also Negotiates")
    case 510 => Some("Not Extended")
    case 511 => Some("Network Authentication Required")
    case _ => None
  }

  /** `httpserv_http_status_valid`. */
  predicate StatusValid(status: int) {
    StrStatus(status) != None
  }

  function Digit(d: nat): char
    requires d < 10
  {
    "0123456789"[d]
  }

  /** `%d` for a number that is not negative. */
  function Decimal(n: nat): string {
    if n < 10 then [Digit(n)] else Decimal(n / 10) + [Digit(n % 10)]
  }

  /** `snprintf` into a buffer of four bytes: three bytes of text and the terminator. */
  function FirstThree(s: string): string {
    if |s| <= 3 then s else s[..3]
  }

  function StatusText(status: nat): string {
    FirstThree(Decimal(status) + " ")
  }

  lemma ValidStatusRange(status: int)
    requires StatusValid(status)
    ensures 100 <= status <= 999
  {
  }

  /** t is three decimal digits that denote n. */
  predicate Denotes(t: string, n: int) {
    && |t| == 3 && '0' <= t[0] <= '9' && '0' <= t[1] <= '9' && '0' <= t[2] <= '9'
    && n == 100 * (t[0] as int - 48) + 10 * (t[1] as int - 48) + (t[2] as int - 48)
  }

  lemma DigitDenotes(d: nat)
    requires d < 10
    ensures '0' <= Digit(d) <= '9' && Digit(d) as int - 48 == d
  {
  }

  lemma DigitsDenote(a: nat, b: nat, c: nat)
    requires a < 10 && b < 10 && c < 10
    ensures Denotes([Digit(a), Digit(b), Digit(c)], 100 * a + 10 * b + c)
  {
    DigitDenotes(a);
    DigitDenotes(b);
    DigitDenotes(c);
  }

  lemma DigitsDetermine(s: nat)
    requires 100 <= s <= 999
    ensures s == 100 * (s / 100) + 10 * (s / 10 % 10) + s % 10
  {
  }

  lemma StatusTextDigits(status: nat)
    requires 100 <= status <= 999
    ensures StatusText(status) == [Digit(status / 100), Digit(status / 10 % 10), Digit(status % 10)]
  {
    assert Decimal(status / 100) == [Digit(status / 100)];
    assert Decimal(status / 10) == [Digit(status / 100), Digit(status / 10 % 10)];
  }

  /** Every valid status is written with exactly its three digits. */
  lemma StatusTextDenotes(status: nat)
    requires 100 <= status <= 999
    ensures Denotes(StatusText(status), status)
  {
    StatusTextDigits(status);
    DigitsDenote(status / 100, status / 10 % 10, status % 10);
    DigitsDetermine(status);
  }

  lemma DenotesOnce(t: string, u: string, n: int)
    requires Denotes(t, n) && Denotes(u, n)
    ensures t == u
  {
    var a, b := [t[0], t[1], t[2]], [u[0], u[1], u[2]];
    assert t == a && u == b;
  }

  lemma StatusTextInjective(s: nat, t: nat)
    requires 100 <= s <= 999 && 100 <= t <= 999
    requires StatusText(s) == StatusText(t)
    ensures s == t
  {
    StatusTextDenotes(s);
    StatusTextDenotes(t);
  }

  // ----- the bytes of a response -----

  /** The response as a value. A body that could not be allocated is None. */
  datatype Content = Content(status: nat, headers: seq<string>, body: Option<string>, bodyLength: nat)

  function StatusLine(status: nat): string
    requires StatusValid(status)
  {
    "HTTP/1.1 " + StatusText(status) + " " + StrStatus(status).value
  }

  /** The canonical response of sections 2.1 and 4 of RFC 9112. */
  function Bytes(status: nat, headers: seq<string>, body: string): string
    requires StatusValid(status)
  {
    StatusLine(status) + CRLF + (Lines(headers) + CRLF + body)
  }

  /** `strncat` stops at a terminator: the part of the body before its first NUL. */
  function UpToNul(body: string): (r: string)
    ensures NulFree(r) && r <= body && (r == body <==> NulFree(body))
    ensures |r| < |body| ==> body[|r|] == NUL
  {
    if body == "" || body[0] == NUL then "" else [body[0]] + UpToNul(body[1..])
  }

  function LinesLength(headers: seq<string>): nat {
    if headers == [] then 0 else |headers[0]| + 2 + LinesLength(headers[1..])
  }

  lemma {:induction false} LinesLengthIs(headers: seq<string>)
    ensures |Lines(headers)| == LinesLength(headers)
  {
    if headers != [] {
      LinesLengthIs(headers[1..]);
    }
  }

  lemma {:induction false} LinesLengthAppend(headers: seq<string>, h: string)
    ensures LinesLength(headers + [h]) == LinesLength(headers) + |h| + 2
  {
    if headers != [] {
      LinesLengthAppend(headers[1..], h);
      assert (headers + [h])[1..] == headers[1..] + [h];
    }
  }

  // ----- the object -----

  /** What `build` gives: nothing for an invalid status; Undefined if it has to copy from a
      body that is not there. */
  datatype Built = NoResponse | Undefined | Built(bytes: string, len: nat)

  /** httpserv_http_response_t. */
  class HttpResponse {
    var status: nat
    var headers: seq<string>
    var body: Option<string>
    var bodyLength: nat
    var length: nat

    function View(): Content
      reads this
    {
      Content(status, headers, body, bodyLength)
    }

    /** The length field is the length of everything but a missing or cut body. */
    ghost predicate Valid()
      reads this
    {
      && StatusValid(status)
      && (forall h | h in headers :: |h| >= 2)
      && (body.Some? ==> |body.value| == bodyLength)
      && length == |StatusLine(status)| + 4 + LinesLength(headers) + bodyLength
    }

    /** `httpserv_http_response_new`; it needs the length of the reason. */
    constructor (s: nat)
      requires StatusValid(s)
      ensures Valid() && View() == Content(s, [], None, 0)
    {
      status, headers, body, bodyLength := s, [], None, 0;
      length := 9 + 4 + |StrStatus(s).value| + 4;
      new;
      ValidStatusRange(s);
      StatusTextDenotes(s);
    }

    /** `httpserv_http_response_add_header`; null pointers are None. */
    static method AddHeader(response: HttpResponse?, key: Option<string>, value: Option<string>)
      requires response != null ==> response.Valid()
      modifies response
      ensures response != null ==> response.Valid() && response.View() == WithHeader(old(response.View()), key, value)
      ensures response != null && key.Some? && value.Some? ==>
                response.headers == old(response.headers) + [key.value + ": " + value.value]
    {
      if key == None || response == null || value == None {
        return;
      }
      LinesLengthAppend(response.headers, Text(Field(key.value, value.value)));
      response.headers := response.headers + [key.value + ": " + value.value];
      response.length := response.length + |key.value| + |value.value| + 4;
    }

    /** `httpserv_http_response_set_body` with the first n bytes of b; `granted` says
        whether `realloc` gave memory. The length field never underflows. */
    static method SetBody(response: HttpResponse?, b: string, n: nat, granted: bool) returns (rc: int)
      requires n <= |b|
      requires response != null ==> response.Valid()
      modifies response
      ensures rc == (if response == null then -1 else if !granted then 1 else 0)
      ensures response != null ==> response.Valid() && response.View() == WithBody(old(response.View()), b[..n], granted)
    {
      if response == null {
        return -1;
      }
      if !granted {
        response.body := None;
        return 1;
      }
      response.body := Some(b[..n]);
      assert response.bodyLength <= response.length;
      response.length := response.length - response.bodyLength;
      response.bodyLength := n;
      response.length := response.length + response.bodyLength;
      rc := 0;
    }

    /** `httpserv_http_response_build`: the bytes and the length that is sent with them. The
        two agree exactly if the body holds no NUL. */
    method Build() returns (r: Built)
      requires StatusValid(status) ==> Valid()
      ensures r == BuiltFrom(View(), length)
      ensures r.Built? ==> (|r.bytes| == r.len <==> body == None || NulFree(body.value))
      ensures r == Undefined <==> StatusValid(status) && body == None && bodyLength > 0
      ensures r.Built? ==>
                |r.bytes| >= 13 && r.bytes[..9] == "HTTP/1.1 " && Denotes(r.bytes[9..12], status) && r.bytes[12] == ' '
    {
      if !StatusValid(status) {
        return NoResponse;
      }
      if body == None && bodyLength > 0 {
        return Undefined;
      }
      var bytes := "HTTP/1.1 " + FirstThree(Decimal(status) + " ") + " " + StrStatus(status).value + CRLF;
      ghost var start := bytes;
      bytes := AppendHeaders(bytes, headers);
      var text := UpToNul(BodyOf(View()));
      bytes := bytes + CRLF + text;
      Assoc(start, Lines(headers), CRLF);
      Assoc(start, Lines(headers) + CRLF, text);
      LinesLengthIs(headers);
      StatusComesFirst(status, headers, text);
      r := Built(bytes, length);
    }

    /** The loop of `build` over the stored headers. */
    static method AppendHeaders(start: string, headers: seq<string>) returns (bytes: string)
      ensures bytes == start + Lines(headers)
    {
      bytes := start;
      var i := 0;
      assert headers[0..] == headers;
      while i < |headers|
        invariant 0 <= i <= |headers|
        invariant bytes + Lines(headers[i..]) == start + Lines(headers)
      {
        assert headers[i..][1..] == headers[i + 1..];
        Assoc(bytes, headers[i] + CRLF, Lines(headers[i + 1..]));
        bytes := bytes + (headers[i] + CRLF);
        i := i + 1;
      }
      assert bytes + "" == bytes;
    }
  }

  function WithHeader(c: Content, key: Option<string>, value: Option<string>): Content {
    if key == None || value == None then c
    else c.(headers := c.headers + [Text(Field(key.value, value.value))])
  }

  /** A failed allocation loses the body but keeps its length. */
  function WithBody(c: Content, b: string, granted: bool): Content {
    if granted then c.(body := Some(b), bodyLength := |b|) else c.(body := None)
  }

  function BodyOf(c: Content): string {
    if c.body.Some? then c.body.value else ""
  }

  function BuiltFrom(c: Content, length: nat): Built {
    if !StatusValid(c.status) then NoResponse
    else if c.body == None && c.bodyLength > 0 then Undefined
    else Built(Bytes(c.status, c.headers, UpToNul(BodyOf(c))), length)
  }

  // ----- any sequence of calls -----

  datatype Op =
    | OpHeader(key: Option<string>, value: Option<string>)
    | OpBody(bytes: string, granted: bool)

  function Do(c: Content, op: Op): Content {
    match op
    case OpHeader(k, v) => WithHeader(c, k, v)
    case OpBody(b, granted) => WithBody(c, b, granted)
  }

  function After(c: Content, ops: seq<Op>): Content {
    if ops == [] then c else Do(After(c, ops[..|ops| - 1]), ops[|ops| - 1])
  }

  /** The texts of the headers that the calls add: those of the complete calls, in order. */
  function TextsAdded(ops: seq<Op>): seq<string> {
    if ops == [] then [] else TextOf(ops[0]) + TextsAdded(ops[1..])
  }

  function TextOf(op: Op): seq<string> {
    if op.OpHeader? && op.key.Some? && op.value.Some? then [op.key.value + ": " + op.value.value] else []
  }

  /** The body that the last call that sets one leaves; without memory it is lost. */
  function BodySet(ops: seq<Op>, start: Option<string>): Option<string> {
    if ops == [] then start
    else
      var last := ops[|ops| - 1];
      if last.OpHeader? then BodySet(ops[..|ops| - 1], start)
      else if last.granted then Some(last.bytes)
      else None
  }

  /** The body length that the last call that was granted memory leaves. */
  function LengthSet(ops: seq<Op>, start: nat): nat {
    if ops == [] then start
    else
      var last := ops[|ops| - 1];
      if last.OpBody? && last.granted then |last.bytes| else LengthSet(ops[..|ops| - 1], start)
  }

  lemma {:induction false} TextsAddedAppend(ops: seq<Op>, op: Op)
    ensures TextsAdded(ops + [op]) == TextsAdded(ops) + TextOf(op)
  {
    if ops == [] {
      assert ops + [op] == [op] && [op][1..] == [];
    } else {
      assert (ops + [op])[1..] == ops[1..] + [op];
      TextsAddedAppend(ops[1..], op);
    }
  }

  /** What any sequence of calls makes of a response. */
  lemma {:induction false} AfterIsSet(c: Content, ops: seq<Op>)
    ensures var d := After(c, ops);
            && d.status == c.status && d.headers == c.headers + TextsAdded(ops)
            && d.body == BodySet(ops, c.body) && d.bodyLength == LengthSet(ops, c.bodyLength)
    decreases |ops|
  {
    if ops == [] {
      assert c.headers + TextsAdded(ops) == c.headers;
    } else {
      var n := |ops| - 1;
      AfterIsSet(c, ops[..n]);
      assert ops == ops[..n] + [ops[n]];
      TextsAddedAppend(ops[..n], ops[n]);
      var headers := After(c, ops[..n]).headers;
      assert Do(After(c, ops[..n]), ops[n]).headers == headers + TextOf(ops[n]);
      assert headers + TextOf(ops[n]) == c.headers + (TextsAdded(ops[..n]) + TextOf(ops[n]));
    }
  }

  /** Length conservation over every sequence of calls: what is built are the canonical
      bytes of the headers added and the body set last, and their number is the length sent
      along, unless the body holds a NUL; with a NUL the bytes fall short. */
  method BuildAfter(status: nat, ops: seq<Op>) returns (r: Built)
    requires StatusValid(status)
    ensures var headers, body := TextsAdded(ops), BodySet(ops, None);
            if body == None && LengthSet(ops, 0) > 0 then r == Undefined
            else
              var text := if body.Some? then body.value else "";
              && r.Built?
              && r.bytes == Bytes(status, headers, UpToNul(text))
              && r.len == |Bytes(status, headers, text)|
              && (|r.bytes| == r.len <==> NulFree(text))
              && |r.bytes| <= r.len
  {
    var resp := new HttpResponse(status);
    ghost var c0 := resp.View();
    for i := 0 to |ops|
      invariant resp.Valid() && resp.View() == After(c0, ops[..i]) && resp.status == status
    {
      assert ops[..i + 1][..i] == ops[..i];
      match ops[i] {
        case OpHeader(k, v) => HttpResponse.AddHeader(resp, k, v);
        case OpBody(b, granted) =>
          var rc := HttpResponse.SetBody(resp, b, |b|, granted);
          assert b[..|b|] == b;
      }
    }
    assert ops[..|ops|] == ops;
    AfterIsSet(c0, ops);
    assert c0.headers + TextsAdded(ops) == TextsAdded(ops);
    r := resp.Build();
    LinesLengthIs(resp.headers);
    StatusComesFirst(status, resp.headers, "");
  }

  // ----- the wire form is unambiguous -----

  /** A line that is not the empty line. Every stored header has a separator, so it is one
      exactly if it holds no line end. */
  ghost predicate OneLine(h: string) {
    h != "" && NoCrlf(h)
  }

  ghost predicate AllOneLine(hs: seq<string>) {
    forall h | h in hs :: OneLine(h)
  }

  lemma {:induction false} HeadersUnambiguous(hs: seq<string>, gs: seq<string>, b: string, c: string)
    requires AllOneLine(hs) && AllOneLine(gs)
    requires Lines(hs) + CRLF + b == Lines(gs) + CRLF + c
    ensures hs == gs && b == c
    decreases |hs|
  {
    var x, u := FirstLine(hs, b);
    var y, v := FirstLine(gs, c);
    LineSkipped(x, u);
    LineSkipped(y, v);
    assert u == v && |x| == |y|;
    assert x == (x + CRLF + u)[..|x|] == (y + CRLF + v)[..|x|] == y;
    if hs != [] {
      HeadersUnambiguous(hs[1..], gs[1..], b, c);
      assert hs == [x] + hs[1..] && gs == [y] + gs[1..];
    }
  }

  lemma FirstLine(hs: seq<string>, b: string) returns (x: string, u: string)
    requires AllOneLine(hs)
    ensures Lines(hs) + CRLF + b == x + CRLF + u && NoCrlf(x)
    ensures if hs == [] then x == "" && u == b else x == hs[0] && x != "" && u == Lines(hs[1..]) + CRLF + b
  {
    if hs == [] {
      x, u := "", b;
    } else {
      x, u := hs[0], Lines(hs[1..]) + CRLF + b;
      assert OneLine(x);
      Assoc(x + CRLF, Lines(hs[1..]), CRLF);
      Assoc(x + CRLF, Lines(hs[1..]) + CRLF, b);
    }
  }

  /** Two responses with valid statuses and one-line headers are written as the same bytes
      only if they are the same: equal status, equal headers in order, equal body. */
  lemma ResponseUnambiguous(s: nat, hs: seq<string>, b: string, t: nat, gs: seq<string>, c: string)
    requires StatusValid(s) && StatusValid(t)
    requires AllOneLine(hs) && AllOneLine(gs)
    ensures Bytes(s, hs, b) == Bytes(t, gs, c) <==> s == t && hs == gs && b == c
  {
    if Bytes(s, hs, b) == Bytes(t, gs, c) {
      SameStatus(s, hs, b, t, gs, c);
      var n := |StatusLine(s)| + 2;
      assert Bytes(s, hs, b)[n..] == Lines(hs) + CRLF + b;
      assert Bytes(t, gs, c)[n..] == Lines(gs) + CRLF + c;
      HeadersUnambiguous(hs, gs, b, c);
    }
  }

  lemma SameStatus(s: nat, hs: seq<string>, b: string, t: nat, gs: seq<string>, c: string)
    requires StatusValid(s) && StatusValid(t)
    ensures Bytes(s, hs, b) == Bytes(t, gs, c) ==> s == t
  {
    StatusComesFirst(s, hs, b);
    StatusComesFirst(t, gs, c);
    ValidStatusRange(s);
    ValidStatusRange(t);
    if StatusText(s) == StatusText(t) {
      StatusTextInjective(s, t);
    }
  }

  /** Every response begins with the protocol, a space, the digits of its status, a space. */
  lemma StatusComesFirst(s: nat, hs: seq<string>, b: string)
    requires StatusValid(s)
    ensures var bytes := Bytes(s, hs, b);
            && |bytes| >= 13 && bytes[..9] == "HTTP/1.1 " && bytes[12] == ' '
            && bytes[9..12] == StatusText(s) && Denotes(bytes[9..12], s)
  {
    ValidStatusRange(s);
    StatusTextDenotes(s);
    var p := "HTTP/1.1 ";
    var rest := " " + StrStatus(s).value + CRLF + (Lines(hs) + CRLF + b);
    assert Bytes(s, hs, b) == p + StatusText(s) + rest;
  }

  predicate HasStatusLine(status: nat, text: string, reason: string) {
    StatusValid(status) && StatusLine(status) == "HTTP/1.1 " + text + " " + reason
  }

  lemma StatusLineIs(status: nat, text: string, reason: string)
    requires StrStatus(status) == Some(reason) && Denotes(text, status)
    ensures HasStatusLine(status, text, reason)
  {
    ValidStatusRange(status);
    StatusTextDenotes(status);
    DenotesOnce(StatusText(status), text, status);
  }

  /** The status lines that the server sends, written out. */
  lemma StatusLinesSent()
    ensures HasStatusLine(200, "200", "OK")
    ensures HasStatusLine(301, "301", "Moved Permanently")
    ensures HasStatusLine(302, "302", "Found")
    ensures HasStatusLine(400, "400", "Bad Request")
    ensures HasStatusLine(404, "404", "Not Found")
  {
    StatusLineIs(200, "200", "OK");
    StatusLineIs(301, "301", "Moved Permanently");
    StatusLineIs(302, "302", "Found");
    StatusLineIs(400, "400", "Bad Request");
    StatusLineIs(404, "404", "Not Found");
  }

  // ----- headers that hold a line end -----

  /** What a receiver reads of the lines of hs behind one more text h. */
  lemma {:induction false} ReadBehind(h: string, hs: seq<string>, b: string) returns (gs: seq<string>, c: string)
    requires AllOneLine(hs)
    ensures AllOneLine(gs) && Lines(gs) + CRLF + c == h + CRLF + (Lines(hs) + CRLF + b)
    decreases |h|
  {
    var u := Lines(hs) + CRLF + b;
    var x, ended := LineSound(h);
    if h == "" {
      gs, c := [], u;
    } else if !ended {
      gs, c := [h] + hs, b;
      LinesBehind(h, hs, b);
    } else {
      var y := h[|x| + 2..];
      assert h == x + CRLF + y;
      if x == "" {
        gs, c := [], y + CRLF + u;
      } else {
        var ys;
        ys, c := ReadBehind(y, hs, b);
        gs := [x] + ys;
        LinesBehind(x, ys, c);
        Assoc(x + CRLF, y, CRLF + u);
      }
    }
  }

  lemma LinesBehind(x: string, ys: seq<string>, c: string)
    ensures Lines([x] + ys) + CRLF + c == x + CRLF + (Lines(ys) + CRLF + c)
  {
    assert ([x] + ys)[1..] == ys;
    Assoc(x + CRLF, Lines(ys), CRLF);
    Assoc(x + CRLF, Lines(ys) + CRLF, c);
  }

  /** Whatever the stored headers hold, a receiver reads some lines, an empty line and a body. */
  lemma {:induction false} ReadAsLines(hs: seq<string>, b: string) returns (gs: seq<string>, c: string)
    ensures AllOneLine(gs) && Lines(gs) + CRLF + c == Lines(hs) + CRLF + b
    decreases |hs|
  {
    if hs == [] {
      gs, c := [], b;
    } else {
      gs, c := ReadAsLines(hs[1..], b);
      LinesBehind(hs[0], hs[1..], b);
      assert [hs[0]] + hs[1..] == hs;
      gs, c := ReadBehind(hs[0], gs, c);
    }
  }

  /** The condition under which a receiver that reads line by line gets another response than
      the one built, for every list of stored headers: one of them holds a line end. */
  lemma HeaderWithLineEndIsAmbiguous(s: nat, hs: seq<string>, b: string)
    requires StatusValid(s) && forall h | h in hs :: h != ""
    ensures (exists gs: seq<string>, c: string ::
               AllOneLine(gs) && (gs != hs || c != b) && Bytes(s, gs, c) == Bytes(s, hs, b))
            <==> exists h :: h in hs && !NoCrlf(h)
  {
    if AllOneLine(hs) {
      forall gs: seq<string>, c: string | AllOneLine(gs) && Bytes(s, gs, c) == Bytes(s, hs, b)
        ensures gs == hs && c == b
      {
        ResponseUnambiguous(s, gs, c, s, hs, b);
      }
    } else {
      var gs, c := ReadAsLines(hs, b);
      assert gs != hs && Bytes(s, gs, c) == Bytes(s, hs, b);
    }
  }

  /** A line end in a value, with the text of another header behind it, makes one stored
      header the bytes of two. */
  lemma LineEndMakesTwoHeaders(s: nat, before: seq<string>, key: string, value: string, f: Field,
        behind: seq<string>, b: string)
    requires StatusValid(s)
    ensures Bytes(s, before + [Text(Field(key, value + CRLF + Text(f)))] + behind, b)
            == Bytes(s, before + [Text(Field(key, value)), Text(f)] + behind, b)
  {
    var x, y := Text(Field(key, value)), Text(f);
    assert Text(Field(key, value + CRLF + y)) == x + CRLF + y;
    LinesJoin(before, x, y, behind);
  }

  lemma {:induction false} LinesJoin(before: seq<string>, x: string, y: string, behind: seq<string>)
    ensures Lines(before + [x + CRLF + y] + behind) == Lines(before + [x, y] + behind)
  {
    var one, two := before + [x + CRLF + y] + behind, before + [x, y] + behind;
    if before == [] {
      assert one[1..] == behind && two[1..][1..] == behind;
      Assoc(x + CRLF, y + CRLF, Lines(behind));
      Assoc(x + CRLF, y, CRLF);
    } else {
      LinesJoin(before[1..], x, y, behind);
      assert one[1..] == before[1..] + [x + CRLF + y] + behind;
      assert two[1..] == before[1..] + [x, y] + behind;
    }
  }
}
