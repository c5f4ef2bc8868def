/** The request heads that the parser reads, written as what they were made from. */
module Wire {
  import opened Common
  import opened Request
  import opened RequestParser

  /** A request head. `mark` is the byte behind the second space, which the parser skips
      unseen, `version` the rest of the request line; `dangling` stands for a last ": "
      with nothing around it, which the parser reads over. */
  datatype Wire = Wire(verb: Method, path: string, mark: char, version: string, fields: seq<Field>, dangling: bool)

  function HeaderBytes(fields: seq<Field>, dangling: bool): string {
    Lines(Texts(fields)) + ((if dangling then ": " else "") + CRLF)
  }

  function HeadBytes(w: Wire): string
    requires w.verb != Invalid
  {
    StrMethod(w.verb).value + " " + (w.path + " " + [w.mark] + (w.version + CRLF + HeaderBytes(w.fields, w.dangling)))
  }

  /** A field that can be told from its line: the first ": " ends the key, the first line end
      ends the value, and the line does not look like the empty line. */
  ghost predicate FieldOk(f: Field) {
    && NulFree(f.key) && NulFree(f.value)
    && NoSeparator(f.key) && !(CRLF <= f.key)
    && NoCrlf(f.value)
    && !(f.key == "" && f.value == "")
  }

  ghost predicate FieldsOk(fs: seq<Field>) {
    forall f | f in fs :: FieldOk(f)
  }

  ghost predicate WireOk(w: Wire) {
    && w.verb != Invalid
    && NulFree(w.path) && ' ' !in w.path
    && NoCrlf(w.version)
    && FieldsOk(w.fields)
  }

  // ----- the parser reads what was written -----

  lemma {:induction false} MethodRead(name: string, u: string, acc: string)
    requires NulFree(name) && ' ' !in name
    ensures ReadMethod(name + " " + u, acc) == (acc + name, u)
  {
    if name == "" {
      assert (name + " " + u)[1..] == u && acc + name == acc;
    } else {
      MethodRead(name[1..], u, acc + [name[0]]);
      assert (name + " " + u)[1..] == name[1..] + " " + u;
      assert name == [name[0]] + name[1..] && name[0] in name;
      Assoc(acc, [name[0]], name[1..]);
    }
  }

  lemma {:induction false} PathRead(path: string, mark: char, u: string, acc: string)
    requires NulFree(path) && ' ' !in path
    ensures ReadPath(path + " " + [mark] + u, acc) == Some((acc + path, u))
  {
    if path == "" {
      assert (path + " " + [mark] + u)[2..] == u && acc + path == acc;
    } else {
      PathRead(path[1..], mark, u, acc + [path[0]]);
      assert (path + " " + [mark] + u)[1..] == path[1..] + " " + [mark] + u;
      assert path == [path[0]] + path[1..] && path[0] in path;
      Assoc(acc, [path[0]], path[1..]);
    }
  }

  lemma {:induction false} LineSkipped(text: string, u: string)
    requires NoCrlf(text)
    ensures SkipLine(text + CRLF + u) == u
  {
    var t := text + CRLF + u;
    if text == "" {
      assert t[2..] == u;
    } else {
      LineSkipped(text[1..], u);
      assert t[1..] == text[1..] + CRLF + u;
      assert t[0] == text[0] && t[1] == if |text| > 1 then text[1] else '\r';
    }
  }

  lemma StartsWithCrlf(s: string)
    ensures CRLF <= s <==> |s| >= 2 && s[0] == '\r' && s[1] == '\n'
  {
  }

  lemma {:induction false} KeyRead(k: string, u: string, acc: string, headers: seq<string>)
    requires NulFree(k) && NoSeparator(k)
    requires acc == "" ==> !(CRLF <= k)
    ensures ReadHeaders(k + ": " + u, acc, "", false, headers) == ReadHeaders(u, acc + k, "", true, headers)
  {
    var t := k + ": " + u;
    if k == "" {
      assert t[2..] == u && acc + k == acc;
    } else {
      KeyRead(k[1..], u, acc + [k[0]], headers);
      assert t[1..] == k[1..] + ": " + u;
      assert t[0] == k[0] && t[1] == if |k| > 1 then k[1] else ':';
      Assoc(acc, [k[0]], k[1..]);
      assert k == [k[0]] + k[1..] && k[0] in k;
      StartsWithCrlf(k);
    }
  }

  lemma {:induction false} ValueRead(v: string, u: string, key: string, acc: string, headers: seq<string>)
    requires NulFree(v) && NoCrlf(v)
    requires !(key == "" && acc == "" && v == "")
    ensures ReadHeaders(v + CRLF + u, key, acc, true, headers)
            == ReadHeaders(u, "", "", false, headers + [Text(Field(key, acc + v))])
  {
    var t := v + CRLF + u;
    if v == "" {
      assert t[2..] == u && acc + v == acc;
    } else {
      ValueRead(v[1..], u, key, acc + [v[0]], headers);
      assert t[1..] == v[1..] + CRLF + u;
      assert t[0] == v[0] && t[1] == if |v| > 1 then v[1] else '\r';
      assert v == [v[0]] + v[1..] && v[0] in v;
      Assoc(acc, [v[0]], v[1..]);
    }
  }

  lemma FieldRead(f: Field, u: string, headers: seq<string>)
    requires FieldOk(f)
    ensures ReadHeaders(Text(f) + CRLF + u, "", "", false, headers) == ReadHeaders(u, "", "", false, headers + [Text(f)])
  {
    var t := f.value + CRLF + u;
    assert Text(f) + CRLF + u == f.key + ": " + t;
    KeyRead(f.key, t, "", headers);
    assert "" + f.key == f.key;
    ValueRead(f.value, u, f.key, "", headers);
    assert "" + f.value == f.value;
  }

  lemma EndRead(dangling: bool, u: string, headers: seq<string>)
    ensures ReadHeaders((if dangling then ": " else "") + CRLF + u, "", "", false, headers) == Done(headers, true, u)
  {
  }

  lemma FirstFieldBytes(fs: seq<Field>, dangling: bool, u: string)
    requires fs != []
    ensures HeaderBytes(fs, dangling) + u == Text(fs[0]) + CRLF + (HeaderBytes(fs[1..], dangling) + u)
  {
    var first, end := Text(fs[0]) + CRLF, (if dangling then ": " else "") + CRLF;
    assert Texts(fs)[1..] == Texts(fs[1..]);
    Assoc(first, Lines(Texts(fs[1..])), end);
    Assoc(first, HeaderBytes(fs[1..], dangling), u);
  }

  lemma {:induction false} FieldsRead(fs: seq<Field>, dangling: bool, u: string, headers: seq<string>)
    requires FieldsOk(fs)
    ensures ReadHeaders(HeaderBytes(fs, dangling) + u, "", "", false, headers) == Done(headers + Texts(fs), true, u)
  {
    if fs == [] {
      EndRead(dangling, u, headers);
      assert HeaderBytes(fs, dangling) + u == (if dangling then ": " else "") + CRLF + u;
      assert headers + Texts(fs) == headers;
    } else {
      var f := fs[0];
      FirstFieldBytes(fs, dangling, u);
      FieldRead(f, HeaderBytes(fs[1..], dangling) + u, headers);
      FieldsRead(fs[1..], dangling, u, headers + [Text(f)]);
      Assoc(headers, [Text(f)], Texts(fs[1..]));
    }
  }

  lemma NamesArePlain(m: Method)
    requires m != Invalid
    ensures var name := StrMethod(m).value; NulFree(name) && ' ' !in name && StrToMethod(name) == m
  {
    MethodTables(StrMethod(m).value, m);
  }

  /** The parser inverts the wire form: on the bytes of any request head, followed by any
      bytes at all, it returns the method, the path and the headers in order, and stops
      right behind the head. */
  lemma ParseInvertsWire(w: Wire, u: string)
    requires WireOk(w)
    ensures Parse(HeadBytes(w) + u) == Accepted(w.verb, w.path, Texts(w.fields), true, u)
  {
    var name := StrMethod(w.verb).value;
    var fields := HeaderBytes(w.fields, w.dangling) + u;
    var line := w.version + CRLF + fields;
    var target := w.path + " " + [w.mark] + line;
    WireSplits(w, u);
    NamesArePlain(w.verb);
    MethodRead(name, target, "");
    assert "" + name == name;
    PathRead(w.path, w.mark, line, "");
    assert "" + w.path == w.path;
    LineSkipped(w.version, fields);
    FieldsRead(w.fields, w.dangling, u, []);
    assert [] + Texts(w.fields) == Texts(w.fields);
  }

  lemma WireSplits(w: Wire, u: string)
    requires w.verb != Invalid
    ensures HeadBytes(w) + u == StrMethod(w.verb).value + " "
                                + (w.path + " " + [w.mark] + (w.version + CRLF + (HeaderBytes(w.fields, w.dangling) + u)))
  {
  }

  // ----- the parser reads nothing else -----

  lemma {:induction false} MethodSound(t: string, acc: string) returns (name: string)
    requires NulFree(t)
    ensures var (n, rest) := ReadMethod(t, acc);
            && n == acc + name && NulFree(name) && ' ' !in name
            && (t == name + " " + rest || (t == name && rest == ""))
  {
    if t == "" || t[0] == ' ' {
      name := "";
      assert acc + name == acc;
      assert t != "" ==> t == " " + t[1..] == "" + " " + t[1..];
    } else {
      name := MethodSound(t[1..], acc + [t[0]]);
      Assoc(acc, [t[0]], name);
      assert t == [t[0]] + t[1..];
      name := [t[0]] + name;
    }
  }

  lemma {:induction false} PathSound(t: string, acc: string) returns (path: string, mark: char)
    requires NulFree(t) && t != "" && ReadPath(t, acc).Some?
    ensures var (p, rest) := ReadPath(t, acc).value;
            p == acc + path && NulFree(path) && ' ' !in path && t == path + " " + [mark] + rest
    decreases t
  {
    if t[0] == ' ' {
      path, mark := "", t[1];
      assert acc + path == acc;
      assert t == "" + " " + [mark] + t[2..];
    } else {
      path, mark := PathSound(t[1..], acc + [t[0]]);
      Assoc(acc, [t[0]], path);
      assert t == [t[0]] + t[1..];
      path := [t[0]] + path;
    }
  }

  /** The rest of a line: up to its line end, or all there is if no line end follows. */
  lemma {:induction false} LineSound(t: string) returns (text: string, ended: bool)
    ensures NoCrlf(text)
    ensures if ended then t == text + CRLF + SkipLine(t) else t == text && SkipLine(t) == ""
  {
    if t == "" {
      text, ended := "", false;
    } else if AtCrlf(t) {
      text, ended := "", true;
      assert t == "" + CRLF + t[2..];
    } else {
      text, ended := LineSound(t[1..]);
      assert t == [t[0]] + t[1..];
      assert text != "" ==> text[0] == t[1];
      text := [t[0]] + text;
    }
  }

  function First(t: string): string {
    if t == "" then "" else [t[0]]
  }

  /** What the header loop has read of an unfinished line, and why it may go on. */
  ghost predicate PendingOk(key: string, value: string, keyRead: bool, t: string) {
    && NulFree(key) && NulFree(value)
    && if keyRead then NoSeparator(key) && !(CRLF <= key) && NoCrlf(value + First(t))
       else value == "" && NoSeparator(key + First(t)) && !(CRLF <= key + First(t))
  }

  function Pending(key: string, value: string, keyRead: bool): string {
    if keyRead then key + ": " + value else key
  }

  /** A line that was begun: its key is read, no byte of its value is. */
  function OpenBytes(open: Option<string>): string {
    if open == None then "" else open.value + ": "
  }

  ghost predicate OpenOk(open: Option<string>) {
    open.Some? ==> NulFree(open.value) && NoSeparator(open.value) && !(CRLF <= open.value)
  }

  /** What the header loop leaves behind the fields: an empty line, perhaps with a dangling
      ": " before it, or the end of the input. */
  ghost predicate EndOk(open: Option<string>, blank: bool, rest: string) {
    if blank then open == None || open == Some("") else OpenOk(open) && rest == ""
  }

  function EndBytes(open: Option<string>, blank: bool, rest: string): string {
    OpenBytes(open) + (if blank then CRLF + rest else "")
  }

  lemma {:induction false} HeadersSound(t: string, key: string, value: string, keyRead: bool, headers: seq<string>)
      returns (fs: seq<Field>, open: Option<string>)
    requires NulFree(t) && PendingOk(key, value, keyRead, t)
    requires t == "" ==> value == "" && (keyRead || key == "")
    requires ReadHeaders(t, key, value, keyRead, headers).Done?
    ensures var r := ReadHeaders(t, key, value, keyRead, headers);
            && FieldsOk(fs) && r.headers == headers + Texts(fs) && EndOk(open, r.blank, r.rest)
            && Pending(key, value, keyRead) + t == Lines(Texts(fs)) + EndBytes(open, r.blank, r.rest)
    decreases t
  {
    if t == "" || (key == "" && value == "" && AtCrlf(t)) {
      fs, open := [], if keyRead then Some(key) else None;
      assert headers + Texts(fs) == headers;
      EndSound(t, key, keyRead);
    } else if !keyRead && t[0] == ':' && t[1] == ' ' {
      KeyEnds(key, t);
      fs, open := HeadersSound(t[2..], key, value, true, headers);
    } else if !keyRead {
      KeyGrows(key, t);
      fs, open := HeadersSound(t[1..], key + [t[0]], value, false, headers);
    } else if AtCrlf(t) {
      fs, open := HeadersSound(t[2..], "", "", false, headers + [Text(Field(key, value))]);
      FieldEnds(key, value, t, fs, headers);
      fs := [Field(key, value)] + fs;
    } else {
      ValueGrows(key, value, t);
      fs, open := HeadersSound(t[1..], key, value + [t[0]], true, headers);
    }
  }

  lemma EndSound(t: string, key: string, keyRead: bool)
    requires t == "" || (key == "" && AtCrlf(t) && |t| > 1)
    requires keyRead || key == ""
    ensures Pending(key, "", keyRead) + t
            == EndBytes(if keyRead then Some(key) else None, t != "", if t == "" then "" else t[2..])
  {
    assert t != "" ==> t == CRLF + t[2..];
  }

  lemma KeyEnds(key: string, t: string)
    requires |t| > 1 && t[0] == ':' && t[1] == ' ' && NulFree(t)
    requires PendingOk(key, "", false, t)
    ensures PendingOk(key, "", true, t[2..])
    ensures Pending(key, "", true) + t[2..] == Pending(key, "", false) + t
  {
    var k := key + First(t);
    assert forall i | 0 <= i < |key| :: key[i] == k[i];
    assert t == ": " + t[2..];
    assert key + ": " + "" + t[2..] == key + (": " + t[2..]);
  }

  lemma KeyGrows(key: string, t: string)
    requires |t| > 1 && !(t[0] == ':' && t[1] == ' ') && NulFree(t)
    requires !(key == "" && AtCrlf(t))
    requires PendingOk(key, "", false, t)
    ensures PendingOk(key + [t[0]], "", false, t[1..])
    ensures Pending(key + [t[0]], "", false) + t[1..] == Pending(key, "", false) + t
  {
    var k := key + [t[0]];
    var l := k + First(t[1..]);
    assert forall i | 0 <= i < |k| :: l[i] == k[i];
    assert t[0] in t;
    assert t == [t[0]] + t[1..];
    Assoc(key, [t[0]], t[1..]);
    assert key + First(t) == k;
    StartsWithCrlf(k);
    StartsWithCrlf(l);
  }

  lemma ValueGrows(key: string, value: string, t: string)
    requires |t| > 1 && !AtCrlf(t) && NulFree(t)
    requires PendingOk(key, value, true, t)
    ensures PendingOk(key, value + [t[0]], true, t[1..])
    ensures Pending(key, value + [t[0]], true) + t[1..] == Pending(key, value, true) + t
  {
  }

  lemma FieldEnds(key: string, value: string, t: string, fs: seq<Field>, headers: seq<string>)
    requires AtCrlf(t) && |t| > 1 && NulFree(t) && PendingOk(key, value, true, t)
    requires !(key == "" && value == "") && FieldsOk(fs)
    ensures FieldsOk([Field(key, value)] + fs)
    ensures headers + [Text(Field(key, value))] + Texts(fs) == headers + Texts([Field(key, value)] + fs)
    ensures forall rest: string | t[2..] == Lines(Texts(fs)) + rest ::
              Pending(key, value, true) + t == Lines(Texts([Field(key, value)] + fs)) + rest
  {
    var f := Field(key, value);
    var v := value + First(t);
    assert forall i | 0 <= i < |value| :: v[i] == value[i];
    assert Texts([f] + fs) == [Text(f)] + Texts(fs);
    assert t == CRLF + t[2..];
    forall rest: string | t[2..] == Lines(Texts(fs)) + rest
      ensures Pending(key, value, true) + t == Lines(Texts([f] + fs)) + rest
    {
      Assoc(Text(f), CRLF, t[2..]);
      Assoc(Text(f) + CRLF, Lines(Texts(fs)), rest);
    }
  }

  // ----- the whole parser -----

  /** The request line of an accepted input, as far as it goes: only a name, only a name and
      a space, or everything up to the byte behind the second space. */
  lemma RequestLineSound(s: string) returns (name: string, path: string, mark: char, u: string)
    requires NulFree(s) && Parse(s).Accepted?
    ensures StrMethod(Parse(s).verb) == Some(name)
    ensures ReadMethod(s, "").0 == name
    ensures var v := ReadMethod(s, "").1;
            if v == "" then s == name || s == name + " "
            else
              && s == name + " " + (path + " " + [mark] + u) && v == path + " " + [mark] + u
              && NulFree(path) && ' ' !in path && NulFree(u) && ReadPath(v, "") == Some((path, u))
  {
    name := MethodSound(s, "");
    assert "" + name == name;
    MethodTables(name, StrToMethod(name));
    var afterMethod := ReadMethod(s, "").1;
    if afterMethod == "" {
      path, mark, u := "", ' ', "";
      assert name + " " + "" == name + " ";
    } else {
      path, mark := PathSound(afterMethod, "");
      assert "" + path == path;
      u := ReadPath(afterMethod, "").value.1;
      RestNulFree(name + " ", afterMethod);
      RestNulFree(path + " " + [mark], u);
    }
  }

  lemma BlankEnd(fields: seq<Field>, open: Option<string>, rest: string)
    requires open == None || open == Some("")
    ensures Lines(Texts(fields)) + EndBytes(open, true, rest) == HeaderBytes(fields, open == Some("")) + rest
  {
    Assoc(OpenBytes(open), CRLF, rest);
    Assoc(Lines(Texts(fields)), OpenBytes(open) + CRLF, rest);
  }

  /** Soundness: when the parser leaves at an empty line, the bytes it consumed are those of
      a request head with exactly the method, path and headers it returned. */
  lemma ParseIsSound(s: string) returns (w: Wire)
    requires NulFree(s)
    requires Parse(s).Accepted? && Parse(s).blank
    ensures WireOk(w) && s == HeadBytes(w) + Parse(s).rest
    ensures Parse(s) == Accepted(w.verb, w.path, Texts(w.fields), true, Parse(s).rest)
  {
    var name, path, mark, u := RequestLineSound(s);
    var version, ended := LineSound(u);
    var t, rest := SkipLine(u), Parse(s).rest;
    RestNulFree(version + CRLF, t);
    var fields, open := HeadersSound(t, "", "", false, []);
    assert [] + Texts(fields) == Texts(fields) && "" + t == t;
    w := Wire(Parse(s).verb, path, mark, version, fields, open == Some(""));
    BlankEnd(fields, open, rest);
    WireSplits(w, rest);
  }

  lemma RestNulFree(s: string, t: string)
    requires NulFree(s + t)
    ensures NulFree(t)
  {
  }

  /** The parser leaves at an empty line exactly on the inputs that begin with the bytes of
      a request head. */
  lemma ParserAcceptsExactly(s: string)
    requires NulFree(s)
    ensures Parse(s).Accepted? && Parse(s).blank <==> exists w: Wire :: WireOk(w) && HeadBytes(w) <= s
  {
    if Parse(s).Accepted? && Parse(s).blank {
      var w := ParseIsSound(s);
      assert HeadBytes(w) <= s;
    }
    if w: Wire :| WireOk(w) && HeadBytes(w) <= s {
      var u := s[|HeadBytes(w)|..];
      assert s == HeadBytes(w) + u;
      ParseInvertsWire(w, u);
    }
  }

  // ----- accepted without an empty line -----

  /** An input that ends before the empty line, where the parser does not notice: behind the
      method or its space, in the rest of the request line, or between two headers, perhaps
      behind the separator of one more. */
  datatype Cut =
    | AfterMethod(verb: Method, space: bool)
    | InRequestLine(verb: Method, path: string, mark: char, text: string)
    | InHeaders(verb: Method, path: string, mark: char, version: string, fields: seq<Field>, open: Option<string>)

  ghost predicate CutOk(c: Cut) {
    && c.verb != Invalid
    && match c
       case AfterMethod(_, _) => true
       case InRequestLine(_, path, _, text) => NulFree(path) && ' ' !in path && NoCrlf(text)
       case InHeaders(_, path, _, version, fields, open) =>
         NulFree(path) && ' ' !in path && NoCrlf(version) && FieldsOk(fields) && OpenOk(open)
  }

  function CutBytes(c: Cut): string
    requires c.verb != Invalid
  {
    var name := StrMethod(c.verb).value;
    match c
    case AfterMethod(_, space) => if space then name + " " else name
    case InRequestLine(_, path, mark, text) => name + " " + (path + " " + [mark] + text)
    case InHeaders(_, path, mark, version, fields, open) =>
      name + " " + (path + " " + [mark] + (version + CRLF + (Lines(Texts(fields)) + OpenBytes(open))))
  }

  /** The request that is made of it: what is missing is empty, and a header that was begun
      is dropped. */
  function CutRequest(c: Cut): Head {
    match c
    case AfterMethod(verb, _) => Accepted(verb, "", [], false, "")
    case InRequestLine(verb, path, _, _) => Accepted(verb, path, [], false, "")
    case InHeaders(verb, path, _, _, fields, _) => Accepted(verb, path, Texts(fields), false, "")
  }

  lemma {:induction false} NameAlone(name: string, acc: string)
    requires NulFree(name) && ' ' !in name
    ensures ReadMethod(name, acc) == (acc + name, "")
  {
    if name == "" {
      assert acc + name == acc;
    } else {
      NameAlone(name[1..], acc + [name[0]]);
      Assoc(acc, [name[0]], name[1..]);
      assert name == [name[0]] + name[1..] && name[0] in name;
    }
  }

  lemma {:induction false} LineAlone(text: string)
    requires NoCrlf(text)
    ensures SkipLine(text) == ""
  {
    if text != "" {
      LineAlone(text[1..]);
    }
  }

  lemma OpenAlone(open: Option<string>, headers: seq<string>)
    requires OpenOk(open)
    ensures ReadHeaders(OpenBytes(open), "", "", false, headers) == Done(headers, false, "")
  {
    if open.Some? {
      KeyRead(open.value, "", "", headers);
      assert open.value + ": " + "" == OpenBytes(open) && "" + open.value == open.value;
    }
  }

  lemma {:induction false} FieldsAlone(fs: seq<Field>, open: Option<string>, headers: seq<string>)
    requires FieldsOk(fs) && OpenOk(open)
    ensures ReadHeaders(Lines(Texts(fs)) + OpenBytes(open), "", "", false, headers) == Done(headers + Texts(fs), false, "")
  {
    if fs == [] {
      OpenAlone(open, headers);
      assert headers + Texts(fs) == headers && "" + OpenBytes(open) == OpenBytes(open);
    } else {
      var f := fs[0];
      var u := Lines(Texts(fs[1..])) + OpenBytes(open);
      assert Texts(fs)[1..] == Texts(fs[1..]);
      Assoc(Text(f) + CRLF, Lines(Texts(fs[1..])), OpenBytes(open));
      FieldRead(f, u, headers);
      FieldsAlone(fs[1..], open, headers + [Text(f)]);
      assert headers + [Text(f)] + Texts(fs[1..]) == headers + Texts(fs);
    }
  }

  /** Not every accepted input is a complete head: every input that is cut in one of these
      places is accepted too. */
  lemma TruncatedHeadsAreAccepted(c: Cut)
    requires CutOk(c)
    ensures Parse(CutBytes(c)) == CutRequest(c)
  {
    var name := StrMethod(c.verb).value;
    NamesArePlain(c.verb);
    assert "" + name == name;
    match c
    case AfterMethod(_, _) =>
      NameAlone(name, "");
      MethodRead(name, "", "");
      assert name + " " + "" == name + " ";
    case InRequestLine(_, path, mark, text) =>
      MethodRead(name, path + " " + [mark] + text, "");
      PathRead(path, mark, text, "");
      assert "" + path == path;
      LineAlone(text);
    case InHeaders(_, path, mark, version, fields, open) =>
      var u := Lines(Texts(fields)) + OpenBytes(open);
      MethodRead(name, path + " " + [mark] + (version + CRLF + u), "");
      PathRead(path, mark, version + CRLF + u, "");
      assert "" + path == path;
      LineSkipped(version, u);
      FieldsAlone(fields, open, []);
      assert [] + Texts(fields) == Texts(fields);
  }

  lemma CutIsSound(s: string) returns (c: Cut)
    requires NulFree(s)
    requires Parse(s).Accepted? && !Parse(s).blank
    ensures CutOk(c) && s == CutBytes(c)
  {
    var name, path, mark, u := RequestLineSound(s);
    var verb := Parse(s).verb;
    if ReadMethod(s, "").1 == "" {
      c := AfterMethod(verb, s == name + " ");
    } else {
      var version, ended := LineSound(u);
      if ended {
        var t := SkipLine(u);
        RestNulFree(version + CRLF, t);
        var fields, open := HeadersSound(t, "", "", false, []);
        assert "" + t == t && OpenBytes(open) + "" == OpenBytes(open);
        c := InHeaders(verb, path, mark, version, fields, open);
      } else {
        c := InRequestLine(verb, path, mark, version);
      }
    }
  }

  /** The parser accepts an input without having seen an empty line exactly if it is cut in
      one of these places. */
  lemma TruncatedExactly(s: string)
    requires NulFree(s)
    ensures Parse(s).Accepted? && !Parse(s).blank <==> exists c: Cut :: CutOk(c) && CutBytes(c) == s
  {
    if Parse(s).Accepted? && !Parse(s).blank {
      var c := CutIsSound(s);
    } else if c: Cut :| CutOk(c) && CutBytes(c) == s {
      TruncatedHeadsAreAccepted(c);
    }
  }

  /** So a request is bad exactly if it neither begins with a head nor is a cut one. */
  lemma ParserRejectsExactly(s: string)
    requires NulFree(s)
    ensures Parse(s).Rejected? <==>
              !(exists w: Wire :: WireOk(w) && HeadBytes(w) <= s) && !(exists c: Cut :: CutOk(c) && CutBytes(c) == s)
  {
    ParserAcceptsExactly(s);
    TruncatedExactly(s);
  }

  // ----- the methods by their names -----

  ghost predicate BeginsWithName(s: string, name: string) {
    s == name || name + " " <= s
  }

  lemma NameIsRead(s: string, name: string)
    requires NulFree(name) && ' ' !in name && BeginsWithName(s, name)
    ensures ReadMethod(s, "").0 == name
  {
    assert "" + name == name;
    if s == name {
      NameAlone(name, "");
    } else {
      var u := s[|name| + 1..];
      assert s == name + " " + u;
      MethodRead(name, u, "");
    }
  }

  lemma NameIsThere(s: string)
    requires NulFree(s) && Parse(s).Accepted?
    ensures StrMethod(Parse(s).verb).Some? && BeginsWithName(s, StrMethod(Parse(s).verb).value)
  {
    var name, path, mark, u := RequestLineSound(s);
  }

  lemma NameDecides(s: string, m: Method)
    requires NulFree(s) && Parse(s).Accepted? && m != Invalid
    ensures Parse(s).verb == m <==> BeginsWithName(s, StrMethod(m).value)
  {
    NameIsThere(s);
    NamesArePlain(m);
    if BeginsWithName(s, StrMethod(m).value) {
      NameIsRead(s, StrMethod(m).value);
    }
  }

  /** The method of an accepted request is the one that the input names, for the methods of
      section 9.3 of RFC 9110 other than HEAD, and PATCH of RFC 5789. */
  lemma MethodsByName(s: string)
    requires NulFree(s) && Parse(s).Accepted?
    ensures Parse(s).verb == Get <==> BeginsWithName(s, "GET")
    ensures Parse(s).verb == Post <==> BeginsWithName(s, "POST")
    ensures Parse(s).verb == Put <==> BeginsWithName(s, "PUT")
    ensures Parse(s).verb == Delete <==> BeginsWithName(s, "DELETE")
    ensures Parse(s).verb == Connect <==> BeginsWithName(s, "CONNECT")
    ensures Parse(s).verb == Options <==> BeginsWithName(s, "OPTIONS")
    ensures Parse(s).verb == Trace <==> BeginsWithName(s, "TRACE")
    ensures Parse(s).verb == Patch <==> BeginsWithName(s, "PATCH")
  {
    NameDecides(s, Get);
    NameDecides(s, Post);
    NameDecides(s, Put);
    NameDecides(s, Delete);
    NameDecides(s, Connect);
    NameDecides(s, Options);
    NameDecides(s, Trace);
    NameDecides(s, Patch);
  }

  // ----- bytes behind the head -----

  lemma {:induction false} MethodIgnoresTail(t: string, u: string, acc: string)
    requires ReadMethod(t, acc).1 != ""
    ensures ReadMethod(t + u, acc) == (ReadMethod(t, acc).0, ReadMethod(t, acc).1 + u)
  {
    assert (t + u)[1..] == t[1..] + u;
    if t[0] != ' ' {
      MethodIgnoresTail(t[1..], u, Cat(acc, t[0]));
    }
  }

  lemma {:induction false} PathIgnoresTail(t: string, u: string, acc: string)
    requires t != "" && ReadPath(t, acc).Some?
    ensures ReadPath(t + u, acc) == Some((ReadPath(t, acc).value.0, ReadPath(t, acc).value.1 + u))
  {
    assert (t + u)[1..] == t[1..] + u && (t + u)[2..] == t[2..] + u;
    if t[0] != ' ' {
      PathIgnoresTail(t[1..], u, Cat(acc, t[0]));
    }
  }

  lemma {:induction false} LineIgnoresTail(t: string, u: string)
    requires SkipLine(t) != ""
    ensures SkipLine(t + u) == SkipLine(t) + u
  {
    assert (t + u)[1..] == t[1..] + u;
    if AtCrlf(t) {
      assert (t + u)[2..] == t[2..] + u;
    } else {
      LineIgnoresTail(t[1..], u);
    }
  }

  lemma {:induction false} HeadersIgnoreTail(t: string, u: string, key: string, value: string, keyRead: bool, headers: seq<string>)
    requires var r := ReadHeaders(t, key, value, keyRead, headers); r.Done? && r.blank
    ensures var r := ReadHeaders(t, key, value, keyRead, headers);
            ReadHeaders(t + u, key, value, keyRead, headers) == r.(rest := r.rest + u)
    decreases t
  {
    assert (t + u)[1..] == t[1..] + u && (t + u)[2..] == t[2..] + u;
    assert AtCrlf(t + u) == AtCrlf(t);
    if key == "" && value == "" && AtCrlf(t) {
    } else if !keyRead && t[0] == ':' && t[1] == ' ' {
      HeadersIgnoreTail(t[2..], u, key, value, true, headers);
    } else if !keyRead {
      HeadersIgnoreTail(t[1..], u, Cat(key, t[0]), value, keyRead, headers);
    } else if AtCrlf(t) {
      HeadersIgnoreTail(t[2..], u, "", "", false, headers + [Text(Field(key, value))]);
    } else {
      HeadersIgnoreTail(t[1..], u, key, Cat(value, t[0]), keyRead, headers);
    }
  }

  /** Trailing bytes never matter: once the parser leaves h at an empty line, it gives the
      same request for h followed by any bytes, terminators among them included. */
  lemma TrailingBytesNeverMatter(h: string, u: string)
    requires Parse(h).Accepted? && Parse(h).blank
    ensures Parse(h + u) == Parse(h).(rest := Parse(h).rest + u)
  {
    var (name, afterMethod) := ReadMethod(h, "");
    var (path, afterPath) := ReadPath(afterMethod, "").value;
    MethodIgnoresTail(h, u, "");
    PathIgnoresTail(afterMethod, u, "");
    LineIgnoresTail(afterPath, u);
    HeadersIgnoreTail(SkipLine(afterPath), u, "", "", false, []);
  }
}
