/** `httpserv_http_request_from_raw` of src/http/request.c. */
module RequestParser {
  import opened Common
  import opened Strings
  import opened Request

  /** How parsing ends. `blank` tells an exit at an empty line from one where the input was
      used up before the header loop asked for more; `rest` is what was not read. */
  datatype Head =
    | Rejected
    | Accepted(verb: Method, path: string, headers: seq<string>, blank: bool, rest: string)

  /** The byte after the next one; behind the last byte lies the caller's terminator. */
  function Ahead(t: string): char {
    ByteAt(t, 1)
  }

  predicate AtCrlf(t: string) {
    t != "" && t[0] == '\r' && Ahead(t) == '\n'
  }

  /** The method name and what follows the space behind it. */
  function ReadMethod(t: string, acc: string): (string, string)
    decreases t
  {
    if t == "" then (acc, t)
    else if t[0] == ' ' then (acc, t[1..])
    else ReadMethod(t[1..], Cat(acc, t[0]))
  }

  /** The path and what follows the space behind it and one more byte. */
  function ReadPath(t: string, acc: string): Option<(string, string)>
    decreases t
  {
    if t == "" then Some((acc, t))
    else if |t| <= 1 then None
    else if t[0] == ' ' then Some((acc, t[2..]))
    else ReadPath(t[1..], Cat(acc, t[0]))
  }

  /** What follows the next line end. */
  function SkipLine(t: string): string
    decreases t
  {
    if t == "" then t
    else if AtCrlf(t) then (if |t| >= 2 then t[2..] else "")
    else SkipLine(t[1..])
  }

  datatype Fields = Failed | Done(headers: seq<string>, blank: bool, rest: string)

  function ReadHeaders(t: string, key: string, value: string, keyRead: bool, headers: seq<string>): Fields
    decreases t
  {
    if t == "" then Done(headers, false, t)
    else if |t| <= 1 then Failed
    else if key == "" && value == "" && AtCrlf(t) then Done(headers, true, t[2..])
    else if !keyRead && t[0] == ':' && t[1] == ' ' then ReadHeaders(t[2..], key, value, true, headers)
    else if !keyRead then ReadHeaders(t[1..], Cat(key, t[0]), value, keyRead, headers)
    else if AtCrlf(t) then ReadHeaders(t[2..], "", "", false, headers + [Text(Field(key, value))])
    else ReadHeaders(t[1..], key, Cat(value, t[0]), keyRead, headers)
  }

  function Parse(raw: string): Head {
    var (name, afterMethod) := ReadMethod(raw, "");
    var m := StrToMethod(name);
    if m == Invalid then Rejected
    else
      match ReadPath(afterMethod, "")
      case None => Rejected
      case Some((path, afterPath)) =>
        match ReadHeaders(SkipLine(afterPath), "", "", false, [])
        case Failed => Rejected
        case Done(headers, blank, rest) => Accepted(m, path, headers, blank, rest)
  }

  // ----- the four loops -----

  method MethodLoop(content: array<char>, len: nat) returns (name: string, pos: nat)
    requires len < content.Length
    ensures pos <= len && ReadMethod(content[..len], "") == (name, content[pos..len])
  {
    pos := 0;
    name := "";
    var i := pos;
    while i < len
      invariant pos == i <= len
      invariant ReadMethod(content[..len], "") == ReadMethod(content[i..len], name)
    {
      pos := pos + 1;
      assert content[i..len][1..] == content[i + 1..len];
      if content[i] == ' ' {
        break;
      }
      name := Cat(name, content[i]);
      i := i + 1;
    }
  }

  method PathLoop(content: array<char>, len: nat, start: nat) returns (path: Option<string>, pos: nat)
    requires start <= len < content.Length
    ensures pos <= len
    ensures ReadPath(content[start..len], "") == (if path.Some? then Some((path.value, content[pos..len])) else None)
  {
    pos := start;
    var acc := "";
    var i := pos;
    while i < len
      invariant start <= pos == i <= len
      invariant ReadPath(content[start..len], "") == ReadPath(content[i..len], acc)
    {
      pos := pos + 1;
      assert content[i..len][1..] == content[i + 1..len];
      if i >= len - 1 {
        return None, pos;
      }
      assert content[i..len][2..] == content[i + 2..len];
      if content[i] == ' ' {
        pos := pos + 1;
        break;
      }
      acc := Cat(acc, content[i]);
      i := i + 1;
    }
    path := Some(acc);
  }

  method LineLoop(content: array<char>, len: nat, start: nat) returns (pos: nat)
    requires start <= len < content.Length && content[len] == NUL
    ensures pos <= len && SkipLine(content[start..len]) == content[pos..len]
  {
    pos := start;
    var i := pos;
    while i < len
      invariant start <= pos == i <= len
      invariant SkipLine(content[start..len]) == SkipLine(content[i..len])
    {
      pos := pos + 1;
      assert content[i..len][1..] == content[i + 1..len];
      assert Ahead(content[i..len]) == content[i + 1];
      if content[i] == '\r' && content[i + 1] == '\n' {
        assert content[i..len][2..] == content[i + 2..len];
        pos := pos + 1;
        break;
      }
      i := i + 1;
    }
  }

  lemma Suffixes(s: string, i: nat)
    requires i < |s|
    ensures s[i..][0] == s[i] && s[i..][1..] == s[i + 1..]
    ensures i + 1 < |s| ==> s[i..][1] == s[i + 1] && s[i..][2..] == s[i + 2..]
  {
  }

  /** The header loop stores every finished field in the request. */
  method HeaderLoop(content: array<char>, len: nat, start: nat, req: HttpRequest) returns (ok: bool)
    requires start <= len < content.Length && req.headers == []
    modifies req
    ensures req.verb == old(req.verb) && req.path == old(req.path) && req.body == old(req.body)
    ensures var f := ReadHeaders(content[start..len], "", "", false, []);
            (ok <==> f.Done?) && (ok ==> req.headers == f.headers)
  {
    var key, value := "", "";
    var keyRead := false;
    var i := start;
    ghost var raw := content[..len];
    ghost var all := ReadHeaders(raw[start..], "", "", false, []);
    while i < len
      invariant start <= i <= len && content[..len] == raw
      invariant req.verb == old(req.verb) && req.path == old(req.path) && req.body == old(req.body)
      invariant all == ReadHeaders(raw[i..], key, value, keyRead, req.headers)
    {
      Suffixes(raw, i);
      if i >= len - 1 {
        return false;
      }
      assert content[i] == raw[i] && content[i + 1] == raw[i + 1];
      if key == "" && value == "" && content[i] == '\r' && content[i + 1] == '\n' {
        break;
      }
      if !keyRead && content[i] == ':' && content[i + 1] == ' ' {
        i := i + 2;
        keyRead := true;
        continue;
      } else if !keyRead {
        key := Cat(key, content[i]);
      } else if keyRead && content[i] == '\r' && content[i + 1] == '\n' {
        i := i + 1;
        keyRead := false;
        req.AddHeader(key, value);
        key, value := "", "";
      } else {
        value := Cat(value, content[i]);
      }
      i := i + 1;
    }
    ok := true;
  }

  /** `httpserv_http_request_from_raw` on len bytes followed by the caller's terminator. */
  method FromRaw(content: array<char>, len: nat) returns (req: HttpRequest?)
    requires len < content.Length && content[len] == NUL
    ensures req == null <==> Parse(content[..len]).Rejected?
    ensures req != null ==>
              var h := Parse(content[..len]);
              fresh(req) && req.verb == h.verb && req.path == h.path && req.headers == h.headers && req.body == ""
  {
    var name, pos := MethodLoop(content, len);
    var m := StrToMethod(name);
    if m == Invalid {
      return null;
    }
    var path: Option<string>;
    path, pos := PathLoop(content, len, pos);
    if path == None {
      return null;
    }
    pos := LineLoop(content, len, pos);
    req := new HttpRequest(m, path.value);
    var ok := HeaderLoop(content, len, pos, req);
    if !ok {
      req := null;
    }
  }
}
