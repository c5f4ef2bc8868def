/** The loop of src/net/server.c that reads a request head byte by byte, and how it meets
    the parser. The connection is a sequence of bytes. */
module Framing {
  import opened Common
  import opened Request
  import opened RequestParser
  import opened Wire

  /** The head ends with byte n: it is at least the fifth byte, and the last four bytes are
      two line ends. */
  predicate EndsAt(s: string, n: nat) {
    && 4 <= n < |s|
    && s[n - 3] == '\r' && s[n - 2] == '\n' && s[n - 1] == '\r' && s[n] == '\n'
  }

  /** Two line ends meet at place p. */
  predicate TwoEndsAt(s: string, p: nat) {
    p + 4 <= |s| && s[p] == '\r' && s[p + 1] == '\n' && s[p + 2] == '\r' && s[p + 3] == '\n'
  }

  /** Bytes that end where the first head in them does. */
  ghost predicate Framed(s: string) {
    && |s| > 0 && EndsAt(s, |s| - 1)
    && forall n: nat | n + 1 < |s| :: !EndsAt(s, n)
  }

  /** Every NUL byte comes after the end of a head: request heads are text, bodies need not be. */
  ghost predicate TextHead(stream: string) {
    forall n: nat | n < |stream| && stream[n] == NUL :: exists k: nat :: k < n && EndsAt(stream, k)
  }

  /** The reading loop of `httpserv_httpserver_worker`. It stops at the first end of a head;
      without one it would go on reading, and `stopped` is false. The result is the buffer
      with its terminator, and the number of bytes taken from the connection. */
  method ReadHead(stream: string) returns (content: array<char>, len: nat, stopped: bool)
    requires TextHead(stream)
    ensures fresh(content) && len <= |stream| && len + 1 == content.Length
    ensures content[..len] == stream[..len] && content[len] == NUL
    ensures forall n: nat | n + 1 < len :: !EndsAt(stream, n)
    ensures if stopped then len > 0 && EndsAt(stream, len - 1)
            else len == |stream| && forall n: nat | n < len :: !EndsAt(stream, n)
  {
    var text := "";
    len, stopped := 0, false;
    while len < |stream|
      invariant len <= |stream| && text == stream[..len]
      invariant forall n: nat | n < len :: !EndsAt(stream, n)
    {
      var c := stream[len];
      text := Cat(text, c);
      assert stream[..len + 1] == stream[..len] + [c];
      if len >= 4 && text[len] == '\n' && text[len - 1] == '\r' && text[len - 2] == '\n' && text[len - 3] == '\r' {
        len := len + 1;
        stopped := true;
        break;
      }
      len := len + 1;
    }
    content := new char[len + 1](i requires 0 <= i <= len => if i < |text| then text[i] else NUL);
    assert content[..len] == text;
  }

  /** Where the loop stops, said of texts: behind any text that is not empty and in which no
      two line ends have met, it stops right behind the first two that meet. Two line ends at
      the very beginning do not stop it. */
  lemma StopsBehindText(text: string, rest: string)
    requires forall p: nat | p < |text| :: !TwoEndsAt(text + CRLF + CRLF, p)
    ensures var s := text + CRLF + CRLF + rest;
            && (forall n: nat | n < |text| + 3 :: !EndsAt(s, n))
            && (EndsAt(s, |text| + 3) <==> text != "")
  {
    var s, t := text + CRLF + CRLF + rest, text + CRLF + CRLF;
    forall n: nat | n < |text| + 3
      ensures !EndsAt(s, n)
    {
      if n >= 4 {
        var p: nat := n - 3;
        assert !TwoEndsAt(t, p);
        assert forall k | 0 <= k < |t| :: s[k] == t[k];
      }
    }
  }

  // ----- canonical heads -----

  ghost predicate NoLineBytes(s: string) {
    NulFree(s) && '\r' !in s && '\n' !in s
  }

  ghost predicate FieldPlain(f: Field) {
    && NoLineBytes(f.key) && NoSeparator(f.key)
    && NoLineBytes(f.value)
    && !(f.key == "" && f.value == "")
  }

  /** A request as a sender writes it. */
  ghost predicate RequestPlain(m: Method, path: string, fields: seq<Field>) {
    && m != Invalid
    && NoLineBytes(path) && ' ' !in path
    && forall f | f in fields :: FieldPlain(f)
  }

  lemma NoLineBytesNoCrlf(s: string)
    requires NoLineBytes(s)
    ensures NoCrlf(s) && !(CRLF <= s)
  {
    assert forall i | 0 <= i < |s| :: s[i] in s;
    StartsWithCrlf(s);
  }

  function CanonicalWire(m: Method, path: string, fields: seq<Field>): Wire {
    Wire(m, path, 'H', "TTP/1.1", fields, false)
  }

  /** The canonical head of RFC 9112 is one of the heads that the parser reads. */
  lemma CanonicalHead(m: Method, path: string, fields: seq<Field>, body: string)
    requires m != Invalid
    ensures HeadBytes(CanonicalWire(m, path, fields)) + body == Serialize(StrMethod(m).value, path, Texts(fields), body)
  {
    var name, lines := StrMethod(m).value, Lines(Texts(fields));
    var w := CanonicalWire(m, path, fields);
    var v := lines + CRLF;
    assert HeaderBytes(fields, false) == v by {
      assert "" + CRLF == CRLF;
    }
    RequestLineBytes(name, path, v);
    assert HeadBytes(w) == name + " " + path + " HTTP/1.1" + CRLF + v;
    Assoc(name + " " + path + " HTTP/1.1" + CRLF, lines, CRLF);
  }

  lemma RequestLineBytes(name: string, path: string, v: string)
    ensures name + " " + (path + " " + ['H'] + ("TTP/1.1" + CRLF + v)) == name + " " + path + " HTTP/1.1" + CRLF + v
  {
  }

  lemma CanonicalWireOk(m: Method, path: string, fields: seq<Field>)
    requires RequestPlain(m, path, fields)
    ensures WireOk(CanonicalWire(m, path, fields))
  {
    forall f | f in fields
      ensures FieldOk(f)
    {
      NoLineBytesNoCrlf(f.key);
      NoLineBytesNoCrlf(f.value);
    }
  }

  /** Round trip: parsing the canonical request gives back the method, the path and the
      headers in order, and leaves the body unread. */
  lemma RequestRoundTrip(m: Method, path: string, fields: seq<Field>, body: string)
    requires RequestPlain(m, path, fields)
    ensures Parse(Serialize(StrMethod(m).value, path, Texts(fields), body)) == Accepted(m, path, Texts(fields), true, body)
  {
    CanonicalWireOk(m, path, fields);
    CanonicalHead(m, path, fields, body);
    ParseInvertsWire(CanonicalWire(m, path, fields), body);
  }

  // ----- where a canonical head ends -----

  ghost predicate PlainLine(l: string) {
    l != "" && NoLineBytes(l)
  }

  /** Two line ends that meet behind a plain line: the next line is empty, or both lie
      further on. */
  lemma TwoEndsShift(l: string, rest: string, p: nat)
    requires NoLineBytes(l)
    ensures TwoEndsAt(l + CRLF + rest, p) ==>
              (p == |l| && CRLF <= rest) || (p >= |l| + 2 && TwoEndsAt(rest, p - |l| - 2))
  {
  }

  /** In plain lines no two line ends meet before the empty line. */
  lemma {:induction false} LinesEnd(ls: seq<string>, body: string, p: nat)
    requires forall l | l in ls :: PlainLine(l)
    requires ls != []
    ensures TwoEndsAt(Lines(ls) + CRLF + body, p) ==> p + 2 >= |Lines(ls)|
    decreases |ls|
  {
    var l, rest := ls[0], Lines(ls[1..]) + CRLF + body;
    assert PlainLine(l);
    LineThenRest(ls, body);
    TwoEndsShift(l, rest, p);
    if ls[1..] != [] {
      NextLineIsPlain(ls[1..], body);
      if p >= |l| + 2 {
        LinesEnd(ls[1..], body, p - |l| - 2);
      }
    }
  }

  lemma NextLineIsPlain(ls: seq<string>, body: string)
    requires ls != [] && PlainLine(ls[0])
    ensures !(CRLF <= Lines(ls) + CRLF + body)
  {
    var s := Lines(ls) + CRLF + body;
    LineThenRest(ls, body);
    assert s[0] == ls[0][0] && ls[0][0] in ls[0];
    StartsWithCrlf(s);
  }

  lemma LineThenRest(ls: seq<string>, body: string)
    requires ls != []
    ensures Lines(ls) + CRLF + body == ls[0] + CRLF + (Lines(ls[1..]) + CRLF + body)
  {
  }

  function RequestLine(m: Method, path: string): string
    requires m != Invalid
  {
    StrMethod(m).value + " " + path + " HTTP/1.1"
  }

  lemma TextIsPlainLine(f: Field)
    requires FieldPlain(f)
    ensures PlainLine(Text(f))
  {
  }

  lemma RequestLineIsPlain(m: Method, path: string)
    requires m != Invalid && NoLineBytes(path)
    ensures PlainLine(RequestLine(m, path)) && |RequestLine(m, path)| >= 5
  {
  }

  lemma CanonicalLines(m: Method, path: string, fields: seq<Field>, body: string)
    requires RequestPlain(m, path, fields)
    ensures var ls := [RequestLine(m, path)] + Texts(fields);
            && Serialize(StrMethod(m).value, path, Texts(fields), body) == Lines(ls) + CRLF + body
            && (forall l | l in ls :: PlainLine(l)) && |ls[0]| >= 5
  {
    var ls := [RequestLine(m, path)] + Texts(fields);
    assert ls[1..] == Texts(fields);
    RequestLineIsPlain(m, path);
    forall i | 0 <= i < |fields|
      ensures PlainLine(Texts(fields)[i])
    {
      TextIsPlainLine(fields[i]);
    }
  }

  /** Framing agrees with parsing: on a canonical head followed by any body bytes the
      reading loop stops right behind the head, and what it hands on is parsed to exactly
      the request that was sent; the body stays on the connection. */
  lemma FramingAgreesWithParsing(m: Method, path: string, fields: seq<Field>, body: string)
    requires RequestPlain(m, path, fields)
    ensures var head := Serialize(StrMethod(m).value, path, Texts(fields), "");
            && Serialize(StrMethod(m).value, path, Texts(fields), body) == head + body
            && |head| > 0 && EndsAt(head + body, |head| - 1)
            && (forall n: nat | n + 1 < |head| :: !EndsAt(head + body, n))
            && Parse(head) == Accepted(m, path, Texts(fields), true, "")
  {
    var ls := [RequestLine(m, path)] + Texts(fields);
    var head := Serialize(StrMethod(m).value, path, Texts(fields), "");
    CanonicalLines(m, path, fields, "");
    CanonicalLines(m, path, fields, body);
    assert head == Lines(ls) + CRLF;
    HeadEnds(ls, body);
    RequestRoundTrip(m, path, fields, "");
  }

  lemma {:induction false} LinesEndWithCrlf(ls: seq<string>)
    requires ls != []
    ensures var t := Lines(ls); |t| >= |ls[0]| + 2 && t[|t| - 2] == '\r' && t[|t| - 1] == '\n'
    decreases |ls|
  {
    if |ls| > 1 {
      LinesEndWithCrlf(ls[1..]);
    }
  }

  lemma HeadEnds(ls: seq<string>, body: string)
    requires ls != [] && (forall l | l in ls :: PlainLine(l)) && |ls[0]| >= 5
    ensures var head := Lines(ls) + CRLF;
            && |head| > 0 && EndsAt(head + body, |head| - 1)
            && forall n: nat | n + 1 < |head| :: !EndsAt(head + body, n)
  {
    var head := Lines(ls) + CRLF;
    LinesEndWithCrlf(ls);
    forall n: nat | n + 1 < |head|
      ensures !EndsAt(head + body, n)
    {
      if n >= 4 {
        var p: nat := n - 3;
        assert EndsAt(head + body, n) ==> TwoEndsAt(head + body, p);
        LinesEnd(ls, body, p);
      }
    }
  }

  // ----- what the parser makes of any framed head -----

  lemma {:induction false} LinesConcat(ls: seq<string>, ms: seq<string>)
    ensures Lines(ls + ms) == Lines(ls) + Lines(ms)
  {
    if ls == [] {
      assert ls + ms == ms;
    } else {
      assert (ls + ms)[1..] == ls[1..] + ms;
      LinesConcat(ls[1..], ms);
      Assoc(ls[0] + CRLF, Lines(ls[1..]), Lines(ms));
    }
  }

  lemma LastLine(ls: seq<string>)
    requires ls != []
    ensures Lines(ls) == Lines(ls[..|ls| - 1]) + ls[|ls| - 1] + CRLF
  {
    var before, last := ls[..|ls| - 1], ls[|ls| - 1];
    assert ls == before + [last];
    LinesConcat(before, [last]);
    assert Lines([last]) == last + CRLF;
    Assoc(Lines(before), last, CRLF);
  }

  /** A head that the parser reads ends where the reading loop would stop, unless its empty
      line follows a dangling separator. */
  lemma HeadBytesEnd(w: Wire)
    requires WireOk(w)
    ensures var h := HeadBytes(w); |h| >= 5 && (EndsAt(h, |h| - 1) <==> !w.dangling)
  {
    var h := HeadBytes(w);
    var lines := w.version + CRLF + Lines(Texts(w.fields));
    var end := (if w.dangling then ": " else "") + CRLF;
    var start := StrMethod(w.verb).value + " " + (w.path + " " + [w.mark]);
    assert h == start + (lines + end);
    if w.fields != [] {
      LinesEndWithCrlf(Texts(w.fields));
    }
    assert lines[|lines| - 2] == '\r' && lines[|lines| - 1] == '\n';
  }

  lemma FramedHeadRead(s: string, w: Wire)
    requires Framed(s) && WireOk(w) && HeadBytes(w) <= s
    ensures Parse(s) == Accepted(w.verb, w.path, Texts(w.fields), true, s[|HeadBytes(w)|..])
    ensures HeadBytes(w) == s <==> !w.dangling
  {
    var h := HeadBytes(w);
    assert s == h + s[|h|..];
    ParseInvertsWire(w, s[|h|..]);
    HeadBytesEnd(w);
    assert EndsAt(h, |h| - 1) ==> EndsAt(s, |h| - 1);
  }

  /** A request line that ends right behind its second space: the carriage return is the
      byte that the parser skips, so the line end is not seen and the next one ends the line. */
  function NoVersion(m: Method, path: string): string
    requires m != Invalid
  {
    StrMethod(m).value + " " + (path + " " + CRLF + CRLF)
  }

  /** A text that ends in two line ends holds one in what follows the second space, unless
      the byte behind that space begins the first of them. */
  lemma LineCutEnds(start: string, mark: char, text: string)
    requires NoCrlf(text)
    ensures !EndsAt(start + " " + [mark] + text, |start| + 1 + |text|)
    ensures EndsAt(start + " " + [mark] + text + CRLF, |start| + 3 + |text|) ==> mark == '\r' && text == "\n"
  {
  }

  lemma FieldCutEnds(start: string, f: Field)
    requires NoCrlf(f.value)
    ensures !EndsAt(start + Text(f) + CRLF, |start + Text(f)| + 1)
  {
    var b := start + Text(f) + CRLF;
    assert b == start + f.key + ":" + " " + f.value + CRLF;
  }

  /** The only cut head that ends with two line ends is a request line without a version. */
  lemma CutEnds(c: Cut)
    requires CutOk(c)
    ensures var b := CutBytes(c);
            |b| > 0 && (EndsAt(b, |b| - 1) ==> c.InHeaders? && b == NoVersion(c.verb, c.path))
  {
    var name, b := StrMethod(c.verb).value, CutBytes(c);
    match c
    case AfterMethod(_, _) =>
    case InRequestLine(_, path, mark, text) =>
      assert b == name + " " + path + " " + [mark] + text;
      LineCutEnds(name + " " + path, mark, text);
    case InHeaders(_, _, _, _, _, _) =>
      HeadersCutEnd(c);
  }

  lemma HeadersCutEnd(c: Cut)
    requires CutOk(c) && c.InHeaders?
    ensures var b := CutBytes(c); |b| > 0 && (EndsAt(b, |b| - 1) ==> b == NoVersion(c.verb, c.path))
  {
    var InHeaders(verb, path, mark, version, fields, open) := c;
    var start := StrMethod(verb).value + " " + path;
    var line := start + " " + [mark] + version + CRLF;
    CutSplits(c, line);
    if open == None {
      assert Lines(Texts(fields)) + OpenBytes(open) == Lines(Texts(fields));
      if fields == [] {
        LineCutEnds(start, mark, version);
        NoVersionBytes(verb, path);
        assert line + "" == line;
      } else {
        FieldsCutEnd(line, fields);
      }
    }
  }

  lemma CutSplits(c: Cut, line: string)
    requires c.verb != Invalid && c.InHeaders?
    requires line == StrMethod(c.verb).value + " " + c.path + " " + [c.mark] + c.version + CRLF
    ensures CutBytes(c) == line + (Lines(Texts(c.fields)) + OpenBytes(c.open))
  {
  }

  lemma FieldsCutEnd(line: string, fields: seq<Field>)
    requires fields != [] && FieldsOk(fields)
    ensures var b := line + Lines(Texts(fields)); |b| > 0 && !EndsAt(b, |b| - 1)
  {
    var f := fields[|fields| - 1];
    assert FieldOk(f);
    var ts := Texts(fields);
    var before := Lines(ts[..|ts| - 1]);
    LastLine(ts);
    Assoc(line, before + Text(f), CRLF);
    Assoc(line, before, Text(f));
    FieldCutEnds(line + before, f);
  }

  lemma NoVersionBytes(m: Method, path: string)
    requires m != Invalid
    ensures NoVersion(m, path) == StrMethod(m).value + " " + path + " " + ['\r'] + "\n" + CRLF
    ensures NoVersion(m, path) == CutBytes(InHeaders(m, path, '\r', "\n", [], None))
  {
    assert path + " " + ['\r'] + ("\n" + CRLF + ("" + "")) == path + " " + CRLF + CRLF;
  }

  lemma NoVersionRead(m: Method, path: string)
    requires m != Invalid && NulFree(path) && ' ' !in path
    ensures Parse(NoVersion(m, path)) == Accepted(m, path, [], false, "")
  {
    NoVersionBytes(m, path);
    TruncatedHeadsAreAccepted(InHeaders(m, path, '\r', "\n", [], None));
  }

  lemma FramedWithoutVersion(s: string)
    requires NulFree(s) && Framed(s)
    ensures Parse(s).Accepted? && !Parse(s).blank <==>
              exists m: Method, path: string ::
                m != Invalid && NulFree(path) && ' ' !in path && s == NoVersion(m, path)
  {
    if Parse(s).Accepted? && !Parse(s).blank {
      var c := CutIsSound(s);
      CutEnds(c);
    } else if m: Method, path: string :| m != Invalid && NulFree(path) && ' ' !in path && s == NoVersion(m, path) {
      NoVersionRead(m, path);
    }
  }

  /** What the parser makes of every head that the reading loop hands on: it reads all of it
      exactly if it is a head without a dangling separator, leaves bytes of it unread exactly
      if it begins with a head that has one, and misses the empty line exactly if there is
      no byte between the second space and the line end. Every other framed head is bad. */
  lemma FramedHeadsParse(s: string)
    requires NulFree(s) && Framed(s)
    ensures Parse(s).Accepted? && Parse(s).blank && Parse(s).rest == "" <==>
              exists w: Wire :: WireOk(w) && !w.dangling && HeadBytes(w) == s
    ensures Parse(s).Accepted? && Parse(s).blank && Parse(s).rest != "" <==>
              exists w: Wire :: WireOk(w) && w.dangling && HeadBytes(w) <= s
    ensures Parse(s).Accepted? && !Parse(s).blank <==>
              exists m: Method, path: string ::
                m != Invalid && NulFree(path) && ' ' !in path && s == NoVersion(m, path)
  {
    FramedWithoutVersion(s);
    if Parse(s).Accepted? && Parse(s).blank {
      var w := ParseIsSound(s);
      FramedHeadRead(s, w);
    }
    if w: Wire :| WireOk(w) && !w.dangling && HeadBytes(w) == s {
      FramedHeadRead(s, w);
    }
    if w: Wire :| WireOk(w) && w.dangling && HeadBytes(w) <= s {
      FramedHeadRead(s, w);
    }
  }

  /** The bytes of a canonical head with a bare separator on a line of its own. */
  function WithSeparator(m: Method, path: string, fields: seq<Field>, hidden: seq<Field>): string
    requires m != Invalid
  {
    Lines([RequestLine(m, path)] + Texts(fields) + [": "] + Texts(hidden)) + CRLF
  }

  lemma WithSeparatorBytes(m: Method, path: string, fields: seq<Field>, hidden: seq<Field>)
    requires m != Invalid
    ensures WithSeparator(m, path, fields, hidden)
            == HeadBytes(CanonicalWire(m, path, fields).(dangling := true)) + (Lines(Texts(hidden)) + CRLF)
  {
    var name, u := StrMethod(m).value, Lines(Texts(hidden)) + CRLF;
    var w := CanonicalWire(m, path, fields).(dangling := true);
    WireSplits(w, u);
    RequestLineBytes(name, path, HeaderBytes(fields, true) + u);
    SeparatorLines(RequestLine(m, path), Texts(fields), Texts(hidden));
  }

  lemma SeparatorLines(first: string, fs: seq<string>, hs: seq<string>)
    ensures Lines([first] + fs + [": "] + hs) + CRLF == first + CRLF + (Lines(fs) + (": " + CRLF) + (Lines(hs) + CRLF))
  {
    LinesConcat([first] + fs + [": "], hs);
    LinesConcat([first] + fs, [": "]);
    LinesConcat([first], fs);
    assert Lines([first]) == first + CRLF && Lines([": "]) == ": " + CRLF;
    Assoc(Lines([first] + fs + [": "]), Lines(hs), CRLF);
    Assoc(first + CRLF, Lines(fs), ": " + CRLF);
    Assoc(first + CRLF, Lines(fs) + (": " + CRLF), Lines(hs) + CRLF);
  }

  /** Dangling separators occur in framed heads: the whole head is handed on, but the parser
      stops behind the separator, and the headers that follow are lost. */
  lemma SeparatorHidesHeaders(m: Method, path: string, fields: seq<Field>, hidden: seq<Field>)
    requires RequestPlain(m, path, fields) && RequestPlain(m, path, hidden)
    ensures var s := WithSeparator(m, path, fields, hidden);
            Framed(s) && Parse(s) == Accepted(m, path, Texts(fields), true, Lines(Texts(hidden)) + CRLF)
  {
    CanonicalLines(m, path, fields, "");
    CanonicalLines(m, path, hidden, "");
    var s := WithSeparator(m, path, fields, hidden);
    var ls := [RequestLine(m, path)] + Texts(fields) + [": "] + Texts(hidden);
    PlainWithSeparator([RequestLine(m, path)] + Texts(fields), [RequestLine(m, path)] + Texts(hidden));
    assert ls == [RequestLine(m, path)] + Texts(fields) + [": "] + ([RequestLine(m, path)] + Texts(hidden))[1..];
    HeadEnds(ls, "");
    assert s + "" == s;
    CanonicalWireOk(m, path, fields);
    WithSeparatorBytes(m, path, fields, hidden);
    ParseInvertsWire(CanonicalWire(m, path, fields).(dangling := true), Lines(Texts(hidden)) + CRLF);
  }

  lemma PlainWithSeparator(ls: seq<string>, ms: seq<string>)
    requires ms != [] && (forall l | l in ls :: PlainLine(l)) && (forall l | l in ms :: PlainLine(l))
    ensures forall l | l in ls + [": "] + ms[1..] :: PlainLine(l)
  {
  }

  lemma PrefixFramed(stream: string, len: nat)
    requires TextHead(stream) && 0 < len <= |stream|
    requires EndsAt(stream, len - 1) && forall n: nat | n + 1 < len :: !EndsAt(stream, n)
    ensures Framed(stream[..len]) && NulFree(stream[..len])
  {
    var s := stream[..len];
    forall n: nat | n < len
      ensures EndsAt(s, n) <==> EndsAt(stream, n)
    {
    }
    forall n: nat | n < len
      ensures s[n] != NUL
    {
      assert s[n] == stream[n];
    }
  }

  /** A request received from a connection: read the head, then parse it. */
  method Receive(stream: string) returns (req: HttpRequest?, len: nat, stopped: bool)
    requires TextHead(stream)
    ensures len <= |stream|
    ensures stopped <==> len > 0 && EndsAt(stream, len - 1)
    ensures forall n: nat | n + 1 < len :: !EndsAt(stream, n)
    ensures !stopped ==> len == |stream| && req == null
    ensures stopped ==> Framed(stream[..len]) && NulFree(stream[..len])
    ensures stopped ==> (req == null <==> Parse(stream[..len]).Rejected?)
    ensures req != null ==>
              var h := Parse(stream[..len]);
              fresh(req) && h.Accepted? && req.verb == h.verb && req.path == h.path && req.headers == h.headers
  {
    var content;
    content, len, stopped := ReadHead(stream);
    req := null;
    if stopped {
      PrefixFramed(stream, len);
      req := FromRaw(content, len);
    }
  }

  /** End to end: whoever sends a canonical request with any body has its method, path and
      headers received exactly and its body left on the connection, and a lookup of one of its
      keys on the receiving side gives the value that was sent unless an earlier header's text
      starts with that key. */
  method SendAndReceive(m: Method, path: string, ghost fields: seq<Field>, stream: string, ghost body: string, key: string)
      returns (req: HttpRequest, len: nat, found: Lookup)
    requires RequestPlain(m, path, fields) && NulFree(key)
    requires stream == Serialize(StrMethod(m).value, path, Texts(fields), body)
    ensures fresh(req) && req.verb == m && req.path == path && req.headers == Texts(fields)
    ensures len <= |stream| && stream[len..] == body
    ensures found == LookupIn(Texts(fields), key)
    ensures Unshadowed(fields, key) ==> found == ValueOf(fields, key)
  {
    CanonicalTextHead(m, path, fields, body);
    FramingAgreesWithParsing(m, path, fields, body);
    var received, stopped;
    received, len, stopped := Receive(stream);
    HeadIsFramed(m, path, fields, body, len);
    req := received;
    TextsNulFree(fields);
    found := HttpRequest.GetHeader(req, key);
    LookupReadsNamedFieldIff(fields, key);
  }

  /** A length at which the reading loop may stop on a canonical request is that of its head. */
  lemma HeadIsFramed(m: Method, path: string, fields: seq<Field>, body: string, len: nat)
    requires RequestPlain(m, path, fields)
    requires var stream := Serialize(StrMethod(m).value, path, Texts(fields), body);
             && len <= |stream|
             && (forall n: nat | n + 1 < len :: !EndsAt(stream, n))
             && (len == |stream| || (len > 0 && EndsAt(stream, len - 1)))
    ensures var stream := Serialize(StrMethod(m).value, path, Texts(fields), body);
            && len > 0 && EndsAt(stream, len - 1) && stream[len..] == body
            && Parse(stream[..len]) == Accepted(m, path, Texts(fields), true, "")
  {
    FramingAgreesWithParsing(m, path, fields, body);
    FirstEndIsUnique(Serialize(StrMethod(m).value, path, Texts(fields), ""), body, len);
  }

  lemma FirstEndIsUnique(head: string, body: string, len: nat)
    requires |head| > 0 && EndsAt(head + body, |head| - 1)
    requires forall n: nat | n + 1 < |head| :: !EndsAt(head + body, n)
    requires len <= |head + body| && (len == |head + body| || (len > 0 && EndsAt(head + body, len - 1)))
    requires forall n: nat | n + 1 < len :: !EndsAt(head + body, n)
    ensures (head + body)[..len] == head && (head + body)[len..] == body
    ensures len > 0 && EndsAt(head + body, len - 1)
  {
    assert len == |head|;
  }

  lemma TextsNulFree(fields: seq<Field>)
    requires forall f | f in fields :: FieldPlain(f)
    ensures forall i | 0 <= i < |fields| :: NulFree(Texts(fields)[i])
  {
    forall i | 0 <= i < |fields|
      ensures NulFree(Texts(fields)[i])
    {
      TextIsPlainLine(fields[i]);
    }
  }

  lemma CanonicalTextHead(m: Method, path: string, fields: seq<Field>, body: string)
    requires RequestPlain(m, path, fields)
    ensures TextHead(Serialize(StrMethod(m).value, path, Texts(fields), body))
  {
    FramingAgreesWithParsing(m, path, fields, body);
    var head := Serialize(StrMethod(m).value, path, Texts(fields), "");
    HeadNulFree(m, path, fields);
    assert forall n: nat | n < |head| :: (head + body)[n] == head[n] && head[n] in head;
  }

  lemma HeadNulFree(m: Method, path: string, fields: seq<Field>)
    requires RequestPlain(m, path, fields)
    ensures NulFree(Serialize(StrMethod(m).value, path, Texts(fields), ""))
  {
    CanonicalLines(m, path, fields, "");
    var ls := [RequestLine(m, path)] + Texts(fields);
    forall l | l in ls
      ensures NulFree(l)
    {
      assert PlainLine(l);
    }
    LinesNulFree(ls);
  }

  lemma {:induction false} LinesNulFree(ls: seq<string>)
    requires forall l | l in ls :: NulFree(l)
    ensures NulFree(Lines(ls))
  {
    if ls != [] {
      LinesNulFree(ls[1..]);
      assert NulFree(ls[0]);
    }
  }
}
