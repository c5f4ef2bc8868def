/** The configuration reader of src/config.c. The file is a byte sequence; the tree that
    collects the settings is the list of the calls that add to it. */
module Config {
  import opened Common
  import opened Strings

  datatype Setting = Setting(name: string, value: string)

  /** What a line means. Undefined: the line has an empty label or value, on which
      `httpserv_strstriptw` reads the byte before the string. */
  datatype LineResult = Skipped | Defines(setting: Setting) | Undefined

  /** The first place of c in s, or |s|. */
  function IndexOf(s: string, c: char): (i: nat)
    ensures i <= |s| && c !in s[..i] && (i < |s| ==> s[i] == c)
  {
    if s == "" || s[0] == c then 0 else 1 + IndexOf(s[1..], c)
  }

  lemma {:induction false} IndexOfIs(s: string, c: char, i: nat)
    requires i < |s| && s[i] == c && c !in s[..i]
    ensures IndexOf(s, c) == i
  {
  }

  /** Comments and lines without '=' are skipped; otherwise the first '=' divides the line. */
  function LineMeaning(line: string): LineResult {
    if '#' in line || '=' !in line then Skipped
    else
      var k := IndexOf(line, '=');
      if AllBlank(line[..k]) || AllBlank(line[k + 1..]) then Undefined
      else Defines(Setting(Trim(line[..k]), Trim(line[k + 1..])))
  }

  predicate AllBlank(s: string)
    ensures AllBlank(s) <==> AllSpace(s)
  {
    forall i | 0 <= i < |s| :: IsSpace(s[i])
  }

  /** Strips a text in a buffer of its own; `underflow` says that stripping read the byte
      before the buffer. */
  method Strip(s: string) returns (r: string, underflow: bool)
    requires NulFree(s)
    ensures r == Trim(s) && (underflow <==> AllSpace(s))
  {
    var buf := new char[|s| + 1](i requires 0 <= i <= |s| => if i < |s| then s[i] else NUL);
    assert buf[..][..|s|] == s;
    CStringIs(buf[..], |s|);
    underflow := StripBoth(buf);
    r := CString(buf[..]);
  }

  /** `httpserv_config_process_line`. */
  method ProcessLine(line: string) returns (r: LineResult)
    requires NulFree(line)
    ensures r == LineMeaning(line)
  {
    var name, value := "", "";
    var labelRead := 1;
    var i := 0;
    ghost var k := IndexOf(line, '=');
    while i < |line|
      invariant 0 <= i <= |line|
      invariant '#' !in line[..i]
      invariant labelRead == 1 || labelRead == 0
      invariant labelRead == 1 ==> '=' !in line[..i] && i <= k && name == line[..i] && value == ""
      invariant labelRead == 0 ==> k < i && name == line[..k] && value == line[k + 1..i]
    {
      assert line[..i + 1] == line[..i] + [line[i]];
      assert line[i] in line;
      if line[i] == '#' {
        labelRead := -1;
        break;
      }
      if labelRead == 1 {
        if line[i] == '=' {
          IndexOfIs(line, '=', i);
          labelRead := 0;
        } else {
          name := Cat(name, line[i]);
        }
      } else {
        assert line[k + 1..i + 1] == line[k + 1..i] + [line[i]];
        value := Cat(value, line[i]);
      }
      i := i + 1;
    }
    if labelRead == 1 {
      assert line[..i] == line;
      assert '=' !in line;
      return Skipped;
    } else if labelRead == -1 {
      return Skipped;
    }
    assert line[..i] == line && line[k] == '=';
    var underflow;
    name, underflow := Strip(name);
    if underflow {
      return Undefined;
    }
    value, underflow := Strip(value);
    if underflow {
      return Undefined;
    }
    r := Defines(Setting(name, value));
  }

  /** What reading a file gives; nothing can be said once an undefined line was met. */
  datatype Loaded = Settings(list: seq<Setting>) | Broken

  /** What is read from the bytes t behind an unfinished line and the settings so far. A
      last line without a newline is dropped. */
  function LoadFrom(t: string, line: string, list: seq<Setting>): Loaded
    decreases t
  {
    if t == "" then Settings(list)
    else if t[0] == '\n' then
      match LineMeaning(line + "\n")
      case Skipped => LoadFrom(t[1..], "", list)
      case Defines(s) => LoadFrom(t[1..], "", list + [s])
      case Undefined => Broken
    else LoadFrom(t[1..], Cat(line, t[0]), list)
  }

  /** The loop of `httpserv_config_load`. */
  method Load(file: string) returns (r: Loaded)
    ensures r == LoadFrom(file, "", [])
  {
    var line: string, list: seq<Setting> := "", [];
    var n := 0;
    while n < |file|
      invariant 0 <= n <= |file| && NulFree(line)
      invariant LoadFrom(file, "", []) == LoadFrom(file[n..], line, list)
    {
      assert file[n..][0] == file[n] && file[n..][1..] == file[n + 1..];
      if file[n] == '\n' {
        var res := ProcessLine(line + "\n");
        match res {
          case Skipped =>
          case Defines(s) => list := list + [s];
          case Undefined => return Broken;
        }
        line := "";
      } else {
        line := Cat(line, file[n]);
      }
      n := n + 1;
    }
    r := Settings(list);
  }

  // ----- files as they are written -----

  /** A line of a configuration file: a setting with any white space around its parts, or a
      comment or other text without an assignment. */
  datatype Line =
    | Entry(setting: Setting, before: string, left: string, right: string, after: string)
    | Noise(text: string)

  ghost predicate InLine(s: string) {
    NulFree(s) && '\n' !in s
  }

  ghost predicate Plain(s: string) {
    InLine(s) && '#' !in s
  }

  ghost predicate Blank(s: string) {
    InLine(s) && AllSpace(s)
  }

  /** A setting that a line can hold. */
  ghost predicate SettingOk(s: Setting) {
    && Plain(s.name) && '=' !in s.name && Trimmed(s.name)
    && Plain(s.value) && Trimmed(s.value)
  }

  ghost predicate LineOk(l: Line) {
    match l
    case Entry(_, before, left, right, after) =>
      && SettingOk(l.setting)
      && Blank(before) && Blank(left) && Blank(right) && Blank(after)
    case Noise(text) => InLine(text) && ('#' in text || '=' !in text)
  }

  /** The line without its newline. */
  function Text(l: Line): string {
    match l
    case Entry(Setting(name, value), before, left, right, after) =>
      (before + name + left) + "=" + (right + value + after)
    case Noise(text) => text
  }

  function TextsOf(lines: seq<Line>): seq<string> {
    if lines == [] then [] else [Text(lines[0])] + TextsOf(lines[1..])
  }

  /** A file of newline-terminated lines. */
  function File(texts: seq<string>): string {
    if texts == [] then "" else texts[0] + "\n" + File(texts[1..])
  }

  function Meanings(texts: seq<string>): seq<LineResult> {
    if texts == [] then [] else [LineMeaning(texts[0] + "\n")] + Meanings(texts[1..])
  }

  /** What lines with these meanings add up to. */
  function Collect(meanings: seq<LineResult>, list: seq<Setting>): Loaded {
    if meanings == [] then Settings(list)
    else
      match meanings[0]
      case Skipped => Collect(meanings[1..], list)
      case Defines(s) => Collect(meanings[1..], list + [s])
      case Undefined => Broken
  }

  function SettingOf(l: Line): seq<Setting> {
    if l.Entry? then [l.setting] else []
  }

  function SettingsOf(lines: seq<Line>): seq<Setting> {
    if lines == [] then [] else SettingOf(lines[0]) + SettingsOf(lines[1..])
  }

  lemma BlankHasNoSigns(s: string)
    requires AllSpace(s)
    ensures '#' !in s && '=' !in s
  {
  }

  /** A trimmed text between blanks has no sign that the text does not have. */
  lemma PaddedSigns(left: string, s: string, right: string)
    requires AllSpace(left) && AllSpace(right) && Trimmed(s)
    requires '#' !in s
    ensures var t := left + s + right;
            '#' !in t && ('=' !in s ==> '=' !in t) && !AllSpace(t) && Trim(t) == s
  {
    BlankHasNoSigns(left);
    BlankHasNoSigns(right);
    TrimOfPadded(left, s, right);
    var t := left + s + right;
    assert t[|left|] == s[0];
  }

  lemma DividedMeaning(head: string, tail: string)
    requires '#' !in head && '#' !in tail && '=' !in head
    requires !AllSpace(head) && !AllSpace(tail)
    ensures LineMeaning(head + "=" + tail) == Defines(Setting(Trim(head), Trim(tail)))
  {
    var line := head + "=" + tail;
    assert line[|head|] == '=' && line[..|head|] == head && line[|head| + 1..] == tail;
    IndexOfIs(line, '=', |head|);
  }

  lemma EntryMeaning(l: Line)
    requires LineOk(l) && l.Entry?
    ensures LineMeaning(Text(l) + "\n") == Defines(l.setting)
  {
    var Entry(Setting(name, value), before, left, right, after) := l;
    var head := before + name + left;
    var tail := right + value + after;
    PaddedSigns(before, name, left);
    PaddedSigns(right, value, after + "\n");
    Assoc(right + value, after, "\n");
    DividedMeaning(head, tail + "\n");
    Assoc(head + "=", tail, "\n");
  }

  lemma NoiseMeaning(l: Line)
    requires LineOk(l) && l.Noise?
    ensures LineMeaning(Text(l) + "\n") == Skipped
  {
  }

  /** The bytes of a line are collected unchanged until its newline. */
  lemma {:induction false} LineCollected(text: string, u: string, line: string, list: seq<Setting>)
    requires InLine(text)
    ensures LoadFrom(text + u, line, list) == LoadFrom(u, line + text, list)
  {
    if text == "" {
      assert text + u == u && line + text == line;
    } else {
      LineCollected(text[1..], u, line + [text[0]], list);
      assert (text + u)[1..] == text[1..] + u;
      assert line + [text[0]] + text[1..] == line + text;
    }
  }

  /** The reader works line by line on every file: whatever the lines hold, each is read
      for itself, and an unterminated rest is dropped. */
  lemma {:induction false} LoadReadsLineByLine(texts: seq<string>, unfinished: string, list: seq<Setting>)
    requires (forall t | t in texts :: InLine(t)) && InLine(unfinished)
    ensures LoadFrom(File(texts) + unfinished, "", list) == Collect(Meanings(texts), list)
  {
    if texts == [] {
      LineCollected(unfinished, "", "", list);
      assert unfinished + "" == unfinished == File(texts) + unfinished;
    } else {
      var t, v := texts[0], File(texts[1..]) + unfinished;
      Assoc(t + "\n", File(texts[1..]), unfinished);
      Assoc(t, "\n", v);
      LineCollected(t, "\n" + v, "", list);
      assert "" + t == t && ("\n" + v)[1..] == v;
      assert Meanings(texts)[1..] == Meanings(texts[1..]);
      match LineMeaning(t + "\n")
      case Skipped => LoadReadsLineByLine(texts[1..], unfinished, list);
      case Defines(s) => LoadReadsLineByLine(texts[1..], unfinished, list + [s]);
      case Undefined =>
    }
  }

  function WithoutNul(t: string): string {
    if t == "" then "" else Cat("", t[0]) + WithoutNul(t[1..])
  }

  /** NUL bytes in a file are read over. */
  lemma {:induction false} NulsAreDropped(t: string, line: string, list: seq<Setting>)
    ensures LoadFrom(t, line, list) == LoadFrom(WithoutNul(t), line, list)
  {
    if t != "" {
      var u := WithoutNul(t[1..]);
      if t[0] == NUL {
        assert WithoutNul(t) == u;
        NulsAreDropped(t[1..], line, list);
      } else {
        assert WithoutNul(t) == [t[0]] + u && WithoutNul(t)[1..] == u;
        if t[0] != '\n' {
          NulsAreDropped(t[1..], Cat(line, t[0]), list);
        } else {
          match LineMeaning(line + "\n")
          case Skipped => NulsAreDropped(t[1..], "", list);
          case Defines(s) => NulsAreDropped(t[1..], "", list + [s]);
          case Undefined =>
        }
      }
    }
  }

  /** The setting of an entry, and nothing for any other line. */
  function MeaningOf(l: Line): LineResult {
    if l.Entry? then Defines(l.setting) else Skipped
  }

  lemma LineMeans(l: Line)
    requires LineOk(l)
    ensures LineMeaning(Text(l) + "\n") == MeaningOf(l)
  {
    if l.Entry? {
      EntryMeaning(l);
    } else {
      NoiseMeaning(l);
    }
  }

  function MeaningsOf(lines: seq<Line>): seq<LineResult> {
    if lines == [] then [] else [MeaningOf(lines[0])] + MeaningsOf(lines[1..])
  }

  lemma {:induction false} LinesMean(lines: seq<Line>)
    requires forall l | l in lines :: LineOk(l)
    ensures Meanings(TextsOf(lines)) == MeaningsOf(lines)
  {
    if lines != [] {
      assert TextsOf(lines)[1..] == TextsOf(lines[1..]);
      LineMeans(lines[0]);
      LinesMean(lines[1..]);
    }
  }

  lemma {:induction false} CollectsSettings(lines: seq<Line>, list: seq<Setting>)
    ensures Collect(MeaningsOf(lines), list) == Settings(list + SettingsOf(lines))
  {
    if lines == [] {
      assert list + SettingsOf(lines) == list;
    } else {
      var l := lines[0];
      CollectsSettings(lines[1..], list + SettingOf(l));
      assert MeaningsOf(lines)[1..] == MeaningsOf(lines[1..]);
      Assoc(list, SettingOf(l), SettingsOf(lines[1..]));
      assert l.Noise? ==> list + SettingOf(l) == list;
    }
  }

  lemma {:induction false} TextsInLine(lines: seq<Line>)
    requires forall l | l in lines :: LineOk(l)
    ensures forall t | t in TextsOf(lines) :: InLine(t)
  {
    if lines != [] {
      TextsInLine(lines[1..]);
      assert LineOk(lines[0]) && InLine(Text(lines[0]));
    }
  }

  /** Round trip: reading a written file yields its settings in order, whatever comments and
      lines without an assignment stand between them, whatever white space surrounds the
      parts, and whatever unterminated text follows the last line. */
  lemma ConfigRoundTrip(lines: seq<Line>, unfinished: string)
    requires forall l | l in lines :: LineOk(l)
    requires InLine(unfinished)
    ensures LoadFrom(File(TextsOf(lines)) + unfinished, "", []) == Settings(SettingsOf(lines))
  {
    TextsInLine(lines);
    LoadReadsLineByLine(TextsOf(lines), unfinished, []);
    LinesMean(lines);
    CollectsSettings(lines, []);
    assert [] + SettingsOf(lines) == SettingsOf(lines);
  }

  /** Lines `label = value` with the line end eol. */
  function Assignments(settings: seq<Setting>, eol: string): string {
    if settings == [] then ""
    else settings[0].name + " = " + settings[0].value + eol + Assignments(settings[1..], eol)
  }

  function Entries(settings: seq<Setting>, after: string): seq<Line> {
    if settings == [] then [] else [Entry(settings[0], "", " ", " ", after)] + Entries(settings[1..], after)
  }

  lemma EntryBytes(s: Setting, after: string)
    ensures Text(Entry(s, "", " ", " ", after)) + "\n" == s.name + " = " + s.value + (after + "\n")
  {
    EqualsSign(s.name, s.value);
    Assoc("" + s.name + " " + "=", " " + s.value, after);
    Assoc(s.name + " = " + s.value, after, "\n");
  }

  lemma EqualsSign(name: string, value: string)
    ensures "" + name + " " + "=" + (" " + value) == name + " = " + value
  {
  }

  lemma {:induction false} EntriesOk(settings: seq<Setting>, after: string)
    requires (forall s | s in settings :: SettingOk(s)) && Blank(after)
    ensures forall l | l in Entries(settings, after) :: LineOk(l)
    ensures SettingsOf(Entries(settings, after)) == settings
    ensures File(TextsOf(Entries(settings, after))) == Assignments(settings, after + "\n")
  {
    if settings != [] {
      EntriesOk(settings[1..], after);
      var entries := Entries(settings, after);
      assert SettingOk(settings[0]) && LineOk(entries[0]);
      assert entries[1..] == Entries(settings[1..], after);
      assert SettingOf(entries[0]) == [settings[0]];
      assert TextsOf(entries)[1..] == TextsOf(entries[1..]);
      EntryBytes(settings[0], after);
    }
  }

  /** The usual form: `label = value` lines are read back in order, with line ends of either
      kind: the carriage return of CRLF is white space. */
  lemma AssignmentsRoundTrip(settings: seq<Setting>, eol: string)
    requires forall s | s in settings :: SettingOk(s)
    requires eol == "\n" || eol == "\r\n"
    ensures LoadFrom(Assignments(settings, eol), "", []) == Settings(settings)
  {
    var after := if eol == "\n" then "" else "\r";
    assert after + "\n" == eol;
    EntriesOk(settings, after);
    ConfigRoundTrip(Entries(settings, after), "");
    var f := Assignments(settings, eol);
    assert f + "" == f;
  }

  /** The first '=' divides the line into these two sides, one of which is blank. */
  ghost predicate HasEmptySide(line: string, head: string, tail: string) {
    && line == head + "=" + tail && '=' !in head && '#' !in line
    && (AllSpace(head) || AllSpace(tail))
  }

  lemma EmptySideMeaning(line: string, head: string, tail: string)
    requires HasEmptySide(line, head, tail)
    ensures LineMeaning(line) == Undefined
  {
    assert line[|head|] == '=' && line[..|head|] == head && line[|head| + 1..] == tail;
    IndexOfIs(line, '=', |head|);
  }

  /** The lines on which the reader is undefined are those without a comment sign that have
      nothing but white space before or behind their first '='. */
  lemma EmptySideIsUndefined(line: string)
    ensures LineMeaning(line) == Undefined <==> exists head: string, tail: string :: HasEmptySide(line, head, tail)
  {
    if LineMeaning(line) == Undefined {
      var k := IndexOf(line, '=');
      assert HasEmptySide(line, line[..k], line[k + 1..]);
    } else if head: string, tail: string :| HasEmptySide(line, head, tail) {
      EmptySideMeaning(line, head, tail);
    }
  }

  /** A file is undefined exactly if one of its lines is. */
  lemma BrokenIff(texts: seq<string>, unfinished: string)
    requires (forall t | t in texts :: InLine(t)) && InLine(unfinished)
    ensures LoadFrom(File(texts) + unfinished, "", []) == Broken <==>
              exists t :: t in texts && LineMeaning(t + "\n") == Undefined
  {
    LoadReadsLineByLine(texts, unfinished, []);
    CollectBroken(Meanings(texts), []);
    MeaningsAre(texts);
  }

  lemma {:induction false} CollectBroken(meanings: seq<LineResult>, list: seq<Setting>)
    ensures Collect(meanings, list) == Broken <==> Undefined in meanings
  {
    if meanings != [] {
      assert meanings == [meanings[0]] + meanings[1..];
      match meanings[0]
      case Skipped => CollectBroken(meanings[1..], list);
      case Defines(s) => CollectBroken(meanings[1..], list + [s]);
      case Undefined =>
    }
  }

  lemma {:induction false} MeaningsAre(texts: seq<string>)
    ensures |Meanings(texts)| == |texts|
    ensures forall i | 0 <= i < |texts| :: Meanings(texts)[i] == LineMeaning(texts[i] + "\n")
  {
    if texts != [] {
      MeaningsAre(texts[1..]);
    }
  }
}
