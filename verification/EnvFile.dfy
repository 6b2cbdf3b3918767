/**
  The installer's `app.env` file: reading a key, and writing one while keeping the other lines
  (`_load_env_lines`, `read_env_value`, `write_env_value`, `_env_bool`).
 */
module EnvFile {
  import opened Text
  import opened TextLines
  import opened Wrappers

  /** The file's content, or None if it does not exist */
  type File = Option<string>

  /** A value that the installer writes */
  datatype EnvValue = Null | Str(text: string) | Bool(flag: bool)

  // ----- JSON strings, as section 7 of RFC 8259 defines them

  const HEX: string := "0123456789abcdef"

  /** How `json.dumps(..., ensure_ascii=False)` writes one character of a string */
  function Escape(c: char): string {
    if c == '"' then "\\\""
    else if c == '\\' then "\\\\"
    else if c == '\n' then "\\n"
    else if c == '\r' then "\\r"
    else if c == '\t' then "\\t"
    else if c == '\U{08}' then "\\b"
    else if c == '\U{0C}' then "\\f"
    else if c < ' ' then "\\u00" + [HEX[c as int / 16], HEX[c as int % 16]]
    else [c]
  }

  function EscapeAll(s: string): string {
    if s == "" then "" else Escape(s[0]) + EscapeAll(s[1..])
  }

  function JsonString(s: string): string {
    "\"" + EscapeAll(s) + "\""
  }

  function HexValue(c: char): (r: Option<nat>)
    ensures r.Some? ==> r.value < 16
  {
    if '0' <= c <= '9' then Some(c as int - '0' as int)
    else if 'a' <= c <= 'f' then Some(c as int - 'a' as int + 10)
    else if 'A' <= c <= 'F' then Some(c as int - 'A' as int + 10)
    else None
  }

  /** The code of `\uXXXX`, given what follows the `u` */
  function HexCode(s: string): (r: Option<nat>)
    ensures r.Some? ==> |s| >= 4 && r.value < 0x10000
  {
    if |s| < 4 then None
    else
      match (HexValue(s[0]), HexValue(s[1]), HexValue(s[2]), HexValue(s[3]))
      case (Some(a), Some(b), Some(c), Some(d)) =>
        Some(a * 4096 + b * 256 + c * 16 + d)
      case _ => None
  }

  function SimpleEscape(c: char): Option<char> {
    match c
    case '"' => Some('"')
    case '\\' => Some('\\')
    case '/' => Some('/')
    case 'b' => Some('\U{08}')
    case 'f' => Some('\U{0C}')
    case 'n' => Some('\n')
    case 'r' => Some('\r')
    case 't' => Some('\t')
    case _ => None
  }

  function Cons(c: char, r: Option<string>): Option<string> {
    if r.Some? then Some([c] + r.value) else None
  }

  /** The string whose text, after the opening quote, is `s`; the closing quote must end it */
  function JsonBody(s: string): Option<string>
    decreases |s|
  {
    if s == "" then None
    else if s[0] == '"' then (if |s| == 1 then Some("") else None)
    else if s[0] == '\\' then
      if |s| == 1 then None
      else if s[1] == 'u' then
        match HexCode(s[2..])
        case None => None
        case Some(high) =>
          if high < 0xD800 || 0xE000 <= high then Cons(high as char, JsonBody(s[6..]))
          else if high < 0xDC00 && |s| >= 12 && s[6] == '\\' && s[7] == 'u' then
            match HexCode(s[8..])
            case Some(low) =>
              if 0xDC00 <= low < 0xE000
              then Cons((0x10000 + (high - 0xD800) * 0x400 + (low - 0xDC00)) as char, JsonBody(s[12..])) else None
            case None => None
          else None
      else
        match SimpleEscape(s[1])
        case Some(c) => Cons(c, JsonBody(s[2..]))
        case None => None
    else if s[0] < ' ' then None
    else Cons(s[0], JsonBody(s[1..]))
  }

  /** `json.loads` of a text that starts and ends with a double quote */
  function JsonLoads(s: string): Option<string> {
    if s == "" || s[0] != '"' then None else JsonBody(s[1..])
  }

  lemma HexDigits(c: char)
    requires c < ' '
    ensures HexCode(['0', '0', HEX[c as int / 16], HEX[c as int % 16]]) == Some(c as int)
  {
    var hi, lo := c as int / 16, c as int % 16;
    assert hi == 0 || hi == 1;
    assert HexValue(HEX[hi]) == Some(hi);
    HexOfDigit(lo);
  }

  lemma HexOfDigit(d: nat)
    requires d < 16
    ensures HexValue(HEX[d]) == Some(d)
  {
    if d < 10 {
      assert HEX[d] == "0123456789"[d] == ('0' as int + d) as char;
    } else {
      assert HEX[d] == "abcdef"[d - 10] == ('a' as int + d - 10) as char;
    }
  }

  /** Decoding undoes one escape. */
  lemma EscapeDecodes(c: char, rest: string)
    ensures JsonBody(Escape(c) + rest) == Cons(c, JsonBody(rest))
  {
    EscapeLength(c);
    hide Escape, JsonBody;
    var e := Escape(c);
    if |e| == 6 {
      CodeDecodes(c, rest);
    } else if |e| == 2 {
      PairDecodes(c, rest);
    } else {
      PlainDecodes(c, rest);
    }
  }

  lemma EscapeLength(c: char)
    ensures |Escape(c)| == 6 || |Escape(c)| == 2 || (Escape(c) == [c] && c != '"' && c != '\\' && c >= ' ')
  {
  }

  lemma PlainDecodes(c: char, rest: string)
    requires c != '"' && c != '\\' && c >= ' '
    ensures JsonBody([c] + rest) == Cons(c, JsonBody(rest))
  {
    assert ([c] + rest)[0] == c && ([c] + rest)[1..] == rest;
  }

  lemma CodeDecodes(c: char, rest: string)
    requires |Escape(c)| == 6
    ensures JsonBody(Escape(c) + rest) == Cons(c, JsonBody(rest))
  {
    var s := Escape(c) + rest;
    assert s[6..] == rest;
    HexDigits(c);
    assert s[0] == '\\' && s[1] == 'u';
    assert s[2..][0] == '0' && s[2..][1] == '0' && s[2..][2] == HEX[c as int / 16] && s[2..][3] == HEX[c as int % 16];
  }

  lemma PairDecodes(c: char, rest: string)
    requires |Escape(c)| == 2
    ensures JsonBody(Escape(c) + rest) == Cons(c, JsonBody(rest))
  {
    var e := Escape(c);
    var s := e + rest;
    assert s[2..] == rest;
    assert s[0] == '\\' && s[1] == e[1] && e[1] != 'u';
    assert SimpleEscape(e[1]) == Some(c);
    hide Escape;
  }

  /** A JSON string decodes to what it was written for. */
  lemma {:induction false} JsonRoundTrip(v: string)
    ensures JsonLoads(JsonString(v)) == Some(v)
  {
    assert JsonString(v)[1..] == EscapeAll(v) + "\"";
    BodyRoundTrip(v);
  }

  lemma {:induction false} BodyRoundTrip(v: string)
    ensures JsonBody(EscapeAll(v) + "\"") == Some(v)
  {
    if v == "" {
      assert EscapeAll(v) + "\"" == "\"";
    } else {
      assert EscapeAll(v) + "\"" == Escape(v[0]) + (EscapeAll(v[1..]) + "\"");
      EscapeDecodes(v[0], EscapeAll(v[1..]) + "\"");
      BodyRoundTrip(v[1..]);
      assert [v[0]] + v[1..] == v;
    }
  }

  /** Cut anywhere before its closing quote, it decodes to nothing. */
  lemma {:induction false} CutBodyFails(v: string, p: string)
    requires p <= EscapeAll(v)
    ensures JsonBody(p) == None
  {
    hide Escape, JsonBody;
    if v == "" || p == "" {
      assert p == "";
      EmptyBodyFails();
    } else {
      var e, more := Escape(v[0]), EscapeAll(v[1..]);
      assert EscapeAll(v) == e + more;
      if |p| >= |e| {
        assert p == e + p[|e|..] && p[|e|..] <= more;
        EscapeDecodes(v[0], p[|e|..]);
        CutBodyFails(v[1..], p[|e|..]);
      } else {
        assert p == e[..|p|];
        CutEscapeFails(v[0], |p|);
      }
    }
  }

  lemma EmptyBodyFails()
    ensures JsonBody("") == None
  {
  }

  lemma CutEscapeFails(c: char, n: nat)
    requires 0 < n < |Escape(c)|
    ensures JsonBody(Escape(c)[..n]) == None
  {
    var p := Escape(c)[..n];
    assert p[0] == '\\';
    if n > 1 {
      assert p[1] == 'u' && |p[2..]| < 4;
    }
  }

  /** The only line breaks in JSON text are those of the string that are not escaped. */
  lemma {:induction false} BreaksOfEscaped(v: string, i: nat)
    requires i < |EscapeAll(v)| && IsLineBreak(EscapeAll(v)[i])
    ensures IsRawBreak(EscapeAll(v)[i]) && EscapeAll(v)[i] in v
  {
    var e := Escape(v[0]);
    if i < |e| {
      assert EscapeAll(v)[i] == e[i];
      EscapedHasNoBreak(v[0], i);
    } else {
      BreaksOfEscaped(v[1..], i - |e|);
    }
  }

  lemma EscapedHasNoBreak(c: char, i: nat)
    requires i < |Escape(c)| && IsLineBreak(Escape(c)[i])
    ensures Escape(c)[i] == c && IsRawBreak(c)
  {
  }

  lemma {:induction false} RawBreaksStay(v: string, i: nat)
    requires i < |v| && IsRawBreak(v[i])
    ensures exists j :: 0 <= j < |EscapeAll(v)| && EscapeAll(v)[j] == v[i]
  {
    if i == 0 {
      assert EscapeAll(v)[0] == v[0];
    } else {
      RawBreaksStay(v[1..], i - 1);
      var j :| 0 <= j < |EscapeAll(v[1..])| && EscapeAll(v[1..])[j] == v[1..][i - 1];
      assert EscapeAll(v)[|Escape(v[0])| + j] == v[i];
    }
  }

  // ----- settings

  /** The parts of a line that assigns a key, both stripped */
  datatype Setting = Setting(key: string, value: string)

  /** None for a blank line, a comment, or a line without `=` */
  function ParseLine(line: string): Option<Setting> {
    var stripped := Strip(line);
    var i := Find(line, "=");
    if stripped == "" || stripped[0] == '#' || i == -1 then None
    else Some(Setting(Strip(line[..i]), Strip(line[i + 1..])))
  }

  predicate Assigns(line: string, key: string) {
    ParseLine(line).Some? && ParseLine(line).value.key == key
  }

  /** `value[1:-1]` */
  function Inner(value: string): string {
    if |value| < 2 then "" else value[1..|value| - 1]
  }

  predicate Quoted(value: string, quote: char) {
    value != "" && value[0] == quote && value[|value| - 1] == quote
  }

  function DecodeValue(value: string): string {
    if Quoted(value, '"') then (if JsonLoads(value).Some? then JsonLoads(value).value else Inner(value))
    else if Quoted(value, '\'') then Inner(value)
    else value
  }

  function SerializeValue(value: EnvValue): string {
    match value
    case Null => "\"\""
    case Str(text) => JsonString(text)
    case Bool(flag) => if flag then "true" else "false"
  }

  /** `_load_env_lines` */
  function LoadLines(file: File): seq<string> {
    if file.None? then [] else SplitLines(UniversalNewlines(file.value))
  }

  /** What the first line that assigns the key says */
  function Lookup(ls: seq<string>, key: string): Option<string> {
    if ls == [] then None
    else if Assigns(ls[0], key) then Some(DecodeValue(ParseLine(ls[0]).value.value))
    else Lookup(ls[1..], key)
  }

  /** How many lines precede the first one that assigns the key */
  function LinesBefore(ls: seq<string>, key: string): (n: nat)
    ensures n <= |ls|
    ensures n < |ls| ==> Assigns(ls[n], key)
    ensures forall i :: 0 <= i < n ==> !Assigns(ls[i], key)
  {
    if ls == [] || Assigns(ls[0], key) then 0 else 1 + LinesBefore(ls[1..], key)
  }

  /** `f"{key}={...}\n"` */
  function NewLine(key: string, value: EnvValue): string {
    key + "=" + SerializeValue(value) + "\n"
  }

  method ReadEnvValue(file: File, key: string) returns (r: Option<string>)
    ensures r == Lookup(LoadLines(file), key)
  {
    hide SplitLines, ParseLine, DecodeValue;
    var lines := LoadLines(file);
    for i := 0 to |lines|
      invariant Lookup(lines, key) == Lookup(lines[i..], key)
    {
      assert lines[i..][1..] == lines[i + 1..];
      var setting := ParseLine(lines[i]);
      if setting.Some? && setting.value.key == key {
        return Some(DecodeValue(setting.value.value));
      }
    }
    return None;
  }

  /** The text of a file with these lines after the key was written */
  function Written(ls: seq<string>, key: string, value: EnvValue): string {
    var n := LinesBefore(ls, key);
    if n == |ls| then Completed(Concat(ls)) + NewLine(key, value)
    else Concat(ls[..n]) + NewLine(key, value) + Concat(ls[n + 1..])
  }

  /** Replaces the first line that assigns the key, or appends one after a completed last line. */
  method WriteEnvValue(file: File, key: string, value: EnvValue) returns (written: File)
    ensures written == Some(Written(LoadLines(file), key, value))
  {
    hide SplitLines, ParseLine, SerializeValue, Assigns, Concat, Completed, NewLine, UniversalNewlines;
    var lines := LoadLines(file);
    ghost var before := lines;
    LoadGivesLines(file);
    var newLine := NewLine(key, value);
    for i := 0 to |lines|
      invariant lines == before
      invariant forall j :: 0 <= j < i ==> !Assigns(lines[j], key)
    {
      if Assigns(lines[i], key) {
        assert LinesBefore(before, key) == i;
        ReplaceLine(lines, i, newLine);
        lines := lines[i := newLine];
        return Some(Concat(lines));
      }
    }
    assert LinesBefore(before, key) == |before|;
    if lines != [] && !EndsWith(lines[|lines| - 1], "\n") {
      CompleteLast(lines);
      lines := lines[|lines| - 1 := lines[|lines| - 1] + "\n"];
    } else {
      LastLineEnds(lines);
    }
    assert Concat(lines) == Completed(Concat(before));
    ConcatAppend(lines, newLine);
    lines := lines + [newLine];
    written := Some(Concat(lines));
  }

  lemma ReplaceLine(ls: seq<string>, i: nat, line: string)
    requires i < |ls|
    ensures Concat(ls[i := line]) == Concat(ls[..i]) + line + Concat(ls[i + 1..])
  {
    assert ls[i := line] == ls[..i] + ([line] + ls[i + 1..]);
    ConcatOfConcat(ls[..i], [line] + ls[i + 1..]);
    assert ([line] + ls[i + 1..])[1..] == ls[i + 1..];
  }

  lemma LoadGivesLines(file: File)
    ensures AreLines(LoadLines(file))
    ensures file.Some? ==> Concat(LoadLines(file)) == UniversalNewlines(file.value)
    ensures NoReturn(Concat(LoadLines(file)))
  {
    if file.Some? {
      SplitGivesLines(UniversalNewlines(file.value));
      NewlinesAreUniversal(file.value);
    }
  }

  /** A text that is not empty gets a final newline if it has none. */
  function Completed(text: string): string {
    if text == "" || text[|text| - 1] == '\n' then text else text + "\n"
  }

  lemma {:induction false} LastLineEnds(ls: seq<string>)
    requires ls == [] || EndsWith(ls[|ls| - 1], "\n")
    ensures Completed(Concat(ls)) == Concat(ls)
  {
    if ls != [] {
      assert ls == ls[..|ls| - 1] + [ls[|ls| - 1]];
      ConcatAppend(ls[..|ls| - 1], ls[|ls| - 1]);
      assert ls[|ls| - 1][|ls[|ls| - 1]| - 1..] == "\n";
    }
  }

  lemma {:induction false} CompleteLast(ls: seq<string>)
    requires ls != [] && AreLines(ls) && !EndsWith(ls[|ls| - 1], "\n")
    ensures Concat(ls[|ls| - 1 := ls[|ls| - 1] + "\n"]) == Completed(Concat(ls))
  {
    var n := |ls| - 1;
    var last := ls[n];
    assert ls == ls[..n] + [last] && ls[n := last + "\n"] == ls[..n] + [last + "\n"];
    ConcatAppend(ls[..n], last);
    ConcatAppend(ls[..n], last + "\n");
    assert Concat(ls[..n]) + last + "\n" == Concat(ls[..n]) + (last + "\n");
    assert last[|last| - 1..] == [last[|last| - 1]];
  }

  // ----- what a written line says

  /** A key that a line can assign: stripped, without `=` or line break, and not a comment */
  predicate IsKey(key: string) {
    && Strip(key) == key && !(key != "" && key[0] == '#')
    && forall k :: 0 <= k < |key| ==> key[k] != '=' && !IsLineBreak(key[k])
  }

  lemma {:induction false} TrimLeftShrinks(s: string)
    ensures |TrimLeft(s)| <= |s|
    ensures s != "" && IsSpace(s[0]) ==> |TrimLeft(s)| < |s|
    ensures TrimLeft(s) == s[|s| - |TrimLeft(s)|..]
    ensures TrimLeft(s) != "" ==> !IsSpace(TrimLeft(s)[0])
  {
    if s != "" && IsSpace(s[0]) {
      TrimLeftShrinks(s[1..]);
    }
  }

  lemma {:induction false} TrimRightIsPrefix(s: string)
    ensures TrimRight(s) <= s
    ensures s != "" && !IsSpace(s[0]) ==> TrimRight(s) != "" && TrimRight(s)[0] == s[0]
    ensures TrimRight(s) != "" ==> !IsSpace(TrimRight(s)[|TrimRight(s)| - 1])
  {
    if s != "" && IsSpace(s[|s| - 1]) {
      TrimRightIsPrefix(s[..|s| - 1]);
    }
  }

  /** A text that starts with ink keeps its start, and loses a trailing space. */
  lemma StripOfInk(s: string, c: char)
    requires s != "" && !IsSpace(s[0]) && IsSpace(c)
    ensures Strip(s + [c]) == Strip(s) == TrimRight(s)
    ensures Strip(s) <= s && Strip(s) != "" && Strip(s)[0] == s[0]
  {
    TrimRightIsPrefix(s);
    assert (s + [c])[..|s|] == s;
  }

  lemma StrippedStartsWithInk(s: string)
    requires Strip(s) == s && s != ""
    ensures !IsSpace(s[0])
  {
    TrimLeftShrinks(s);
    TrimRightIsPrefix(TrimLeft(s));
  }

  lemma EqualsSign(line: string)
    ensures
      var i := Find(line, "=");
      && (i == -1 ==> forall j :: 0 <= j < |line| ==> line[j] != '=')
      && (i != -1 ==> 0 <= i < |line| && line[i] == '=' && forall j :: 0 <= j < i ==> line[j] != '=')
  {
    var i := Find(line, "=");
    forall j | 0 <= j < |line| && (i == -1 || j < i) ensures line[j] != '=' {
      assert !("=" <= line[j..]);
    }
  }

  /** Stripping cuts out a middle part. */
  lemma StripIsSlice(s: string) returns (shift: nat)
    ensures shift + |Strip(s)| <= |s| && Strip(s) == s[shift..shift + |Strip(s)|]
  {
    TrimLeftShrinks(s);
    shift := |s| - |TrimLeft(s)|;
    TrimRightIsPrefix(TrimLeft(s));
  }

  /** No line assigns a text that is not a key, wherever its `=` or its breaks are. */
  lemma OnlyKeysAreAssigned(line: string, key: string)
    requires IsLine(line) && Assigns(line, key)
    ensures IsKey(key)
  {
    var i := Find(line, "=");
    EqualsSign(line);
    var shift := StripIsSlice(line[..i]);
    StripTwice(line[..i]);
    forall k | 0 <= k < |key| ensures key[k] != '=' && !IsLineBreak(key[k]) {
      assert key[k] == line[shift + k] == line[..|line| - 1][shift + k];
    }
    if key != "" {
      KeyStartsLine(line, i);
    }
  }

  lemma {:induction false} StripTwice(s: string)
    ensures Strip(Strip(s)) == Strip(s)
  {
    var t := TrimLeft(s);
    TrimLeftShrinks(s);
    TrimRightIsPrefix(t);
    var u := TrimRight(t);
    if u != "" {
      assert u[0] == t[0];
    }
  }

  /** The first ink of a line is that of its key, if the key has any. */
  lemma {:induction false} KeyStartsLine(line: string, i: nat)
    requires i <= |line| && Strip(line[..i]) != ""
    ensures Strip(line) != "" && Strip(line)[0] == Strip(line[..i])[0]
  {
    if i == 0 {
    } else if IsSpace(line[0]) {
      assert line[..i][1..] == line[1..][..i - 1];
      KeyStartsLine(line[1..], i - 1);
    } else {
      TrimRightIsPrefix(line);
      TrimRightIsPrefix(line[..i]);
    }
  }

  lemma EqualsSignAt(line: string, i: nat)
    requires i < |line| && line[i] == '=' && forall j :: 0 <= j < i ==> line[j] != '='
    ensures Find(line, "=") == i
  {
    EqualsSign(line);
  }

  /** A line that starts with a key and `=` assigns that key what follows. */
  lemma ParseKeyed(key: string, rest: string)
    requires IsKey(key)
    ensures ParseLine(key + "=" + rest) == Some(Setting(key, Strip(rest)))
  {
    var line := key + "=" + rest;
    EqualsSignAt(line, |key|);
    assert line[..|key|] == key && line[|key| + 1..] == rest;
    if key != "" {
      StrippedStartsWithInk(key);
    }
    assert line[0] == if key == "" then '=' else key[0];
    TrimRightIsPrefix(line);
  }

  lemma ParseIgnoresNewline(l: string)
    ensures ParseLine(l + "\n") == ParseLine(l)
  {
    var line := l + "\n";
    assert IsSpace('\n') && line == l + ['\n'];
    hide *;
    FindBeforeNewline(l);
    StripIgnoresTrailingSpace(l, '\n');
    var i := Find(l, "=");
    if i != -1 {
      EqualsSign(l);
      assert line[..i] == l[..i] && line[i + 1..] == l[i + 1..] + ['\n'];
      StripIgnoresTrailingSpace(l[i + 1..], '\n');
    }
    SameParts(line, l);
  }

  lemma SameParts(a: string, b: string)
    requires Strip(a) == Strip(b) && Find(a, "=") == Find(b, "=")
    requires var i := Find(a, "="); i != -1 ==> a[..i] == b[..i] && Strip(a[i + 1..]) == Strip(b[i + 1..])
    ensures ParseLine(a) == ParseLine(b)
  {
    hide Strip, Find, IsFirst;
  }

  lemma FindBeforeNewline(l: string)
    ensures Find(l + "\n", "=") == Find(l, "=")
  {
    hide Find, IsFirst;
    EqualsSign(l);
    EqualsSign(l + "\n");
    assert forall j :: 0 <= j < |l| ==> (l + "\n")[j] == l[j];
    if Find(l, "=") != -1 {
      EqualsSignAt(l + "\n", Find(l, "="));
    }
  }

  lemma {:induction false} LookupConcat(a: seq<string>, b: seq<string>, key: string)
    ensures Lookup(a + b, key) == if Lookup(a, key).Some? then Lookup(a, key) else Lookup(b, key)
  {
    hide Assigns, ParseLine, DecodeValue;
    if a == [] {
      assert a + b == b;
    } else {
      assert (a + b)[1..] == a[1..] + b;
      LookupConcat(a[1..], b, key);
    }
  }

  /** Completing the last line changes what no key reads. */
  lemma CompletedReadsTheSame(ls: seq<string>, key: string)
    requires AreLines(ls)
    ensures Lookup(SplitLines(Completed(Concat(ls))), key) == Lookup(ls, key)
  {
    hide SplitLines, Assigns, DecodeValue, ParseLine;
    if ls == [] || EndsWith(ls[|ls| - 1], "\n") {
      LastLineEnds(ls);
      SplitAfterLines(ls, "");
      assert Concat(ls) + "" == Concat(ls) && ls + [] == ls;
      SplitNothing();
    } else {
      var n := |ls| - 1;
      CompleteLast(ls);
      CompletedConcat(ls);
      if IsEnded(ls[n]) {
        SplitAfterLines(ls, "\n");
        SplitNewline();
        LookupConcat(ls, ["\n"], key);
        BlankAssignsNothing(key);
      } else {
        NewlineOnLastLine(ls, key);
      }
    }
  }

  lemma SplitNothing()
    ensures SplitLines("") == []
  {
  }

  lemma SplitNewline()
    ensures SplitLines("\n") == ["\n"]
  {
    SplitFirstLine("\n", "");
    assert "\n" + "" == "\n";
  }

  lemma BlankAssignsNothing(key: string)
    ensures Lookup(["\n"], key) == None
    ensures ["\n"][1..] == []
  {
    assert TrimLeft("\n") == TrimLeft("");
  }

  lemma CompletedConcat(ls: seq<string>)
    requires ls != [] && AreLines(ls) && !EndsWith(ls[|ls| - 1], "\n")
    ensures Completed(Concat(ls)) == Concat(ls) + "\n"
  {
    hide Concat;
    var n := |ls| - 1;
    assert IsLine(ls[n]);
    hide AreLines, IsLine;
    assert ls == ls[..n] + [ls[n]];
    ConcatAppend(ls[..n], ls[n]);
    assert ls[n][|ls[n]| - 1..] == [ls[n][|ls[n]| - 1]];
  }

  lemma NewlineOnLastLine(ls: seq<string>, key: string)
    requires ls != [] && AreLines(ls) && !IsEnded(ls[|ls| - 1])
    ensures Lookup(SplitLines(Concat(ls) + "\n"), key) == Lookup(ls, key)
  {
    hide SplitLines, DecodeValue, ParseLine;
    var n := |ls| - 1;
    var first, last := ls[..n], ls[n];
    assert ls == first + [last];
    ConcatAppend(first, last);
    assert Concat(ls) + "\n" == Concat(first) + (last + "\n");
    assert (last + "\n")[..|last|] == last;
    assert NoBreak(last) by {
      assert last == last[..|last| - 1] + [last[|last| - 1]];
    }
    SplitFirstLine(last + "\n", "");
    assert last + "\n" + "" == last + "\n";
    SplitNothing();
    assert SplitLines(last + "\n") == [last + "\n"];
    SplitAfterLines(first, last + "\n");
    ParseIgnoresNewline(last);
    LookupConcat(first, [last + "\n"], key);
    LookupConcat(first, [last], key);
    assert [last + "\n"][1..] == [] && [last][1..] == [];
  }

  // ----- writing, then reading

  /** A string value that `splitlines` does not break when it is written as JSON */
  predicate StaysOnOneLine(value: EnvValue) {
    value.Str? ==> forall i :: 0 <= i < |value.text| ==> !IsRawBreak(value.text[i])
  }

  lemma SerializedHasNoBreak(value: EnvValue, i: nat)
    requires StaysOnOneLine(value) && i < |SerializeValue(value)|
    ensures !IsLineBreak(SerializeValue(value)[i])
  {
    if value.Str? && 0 < i < |SerializeValue(value)| - 1 {
      assert SerializeValue(value)[i] == EscapeAll(value.text)[i - 1];
      if IsLineBreak(EscapeAll(value.text)[i - 1]) {
        BreaksOfEscaped(value.text, i - 1);
      }
    }
  }

  lemma NewLineIsLine(key: string, value: EnvValue)
    requires IsKey(key) && StaysOnOneLine(value)
    ensures IsLine(NewLine(key, value)) && IsEnded(NewLine(key, value)) && NoReturn(NewLine(key, value))
  {
    var ser := SerializeValue(value);
    var l := NewLine(key, value);
    forall i | 0 <= i < |l| - 1 ensures !IsLineBreak(l[..|l| - 1][i]) && l[i] != '\r' {
      if i > |key| {
        SerializedHasNoBreak(value, i - |key| - 1);
        assert l[i] == ser[i - |key| - 1];
      } else if i == |key| {
        assert l[i] == '=';
      } else {
        assert l[i] == key[i];
      }
    }
  }

  lemma CompletedTwice(text: string)
    ensures Completed(Completed(text)) == Completed(text)
  {
  }

  /** A text spliced into the place of one line is split where it stands. */
  lemma ReplacedLines(ls: seq<string>, n: nat, text: string)
    requires AreLines(ls) && n < |ls|
    ensures SplitLines(Concat(ls[..n]) + text + Concat(ls[n + 1..])) == ls[..n] + SplitLines(text + Concat(ls[n + 1..]))
  {
    hide SplitLines, IsLine;
    var a, b := ls[..n], ls[n + 1..];
    assert Concat(a) + text + Concat(b) == Concat(a) + (text + Concat(b));
    SplitAfterLines(a, text + Concat(b));
  }

  /** The lines of the written file */
  lemma WrittenLines(ls: seq<string>, key: string, value: EnvValue)
    requires AreLines(ls) && NoReturn(Concat(ls)) && IsKey(key) && StaysOnOneLine(value)
    ensures
      var n := LinesBefore(ls, key);
      LoadLines(Some(Written(ls, key, value))) ==
        if n == |ls| then SplitLines(Completed(Concat(ls))) + [NewLine(key, value)]
        else ls[..n] + ([NewLine(key, value)] + ls[n + 1..])
  {
    hide *;
    WrittenTextLines(ls, key, value);
    OwnLine(key, value);
  }

  lemma CompletedIsEnded(ls: seq<string>)
    requires AreLines(ls) && Completed(Concat(ls)) == Concat(ls)
    ensures ls == [] || IsEnded(ls[|ls| - 1])
  {
    if ls != [] {
      var n := |ls| - 1;
      assert ls == ls[..n] + [ls[n]];
      ConcatAppend(ls[..n], ls[n]);
      assert Concat(ls)[|Concat(ls)| - 1] == ls[n][|ls[n]| - 1];
    }
  }

  /** What a written value reads as */
  function ReadForm(value: EnvValue): string {
    match value
    case Null => ""
    case Str(text) => text
    case Bool(flag) => if flag then "true" else "false"
  }

  lemma SerializedReads(value: EnvValue)
    ensures Strip(SerializeValue(value) + "\n") == SerializeValue(value)
    ensures DecodeValue(SerializeValue(value)) == ReadForm(value)
  {
    var ser := SerializeValue(value);
    assert ser + "\n" == ser + ['\n'];
    StripOfInk(ser, '\n');
    match value
    case Null =>
      JsonRoundTrip("");
      assert ser == JsonString("");
    case Str(text) => JsonRoundTrip(text);
    case Bool(_) =>
  }

  lemma NewLineAssigns(key: string, value: EnvValue)
    requires IsKey(key)
    ensures ParseLine(NewLine(key, value)) == Some(Setting(key, SerializeValue(value)))
  {
    SerializedReads(value);
    assert NewLine(key, value) == key + "=" + (SerializeValue(value) + "\n");
    ParseKeyed(key, SerializeValue(value) + "\n");
  }

  lemma {:induction false} NothingBefore(ls: seq<string>, key: string)
    ensures Lookup(ls[..LinesBefore(ls, key)], key) == None
    ensures LinesBefore(ls, key) == |ls| ==> Lookup(ls, key) == None
  {
    hide Assigns, ParseLine, DecodeValue;
    if ls != [] && !Assigns(ls[0], key) {
      NothingBefore(ls[1..], key);
      assert ls[..LinesBefore(ls, key)][1..] == ls[1..][..LinesBefore(ls[1..], key)];
    }
  }

  /** The file after `write_env_value` */
  function AfterWrite(file: File, key: string, value: EnvValue): File {
    Some(Written(LoadLines(file), key, value))
  }

  function Read(file: File, key: string): Option<string> {
    Lookup(LoadLines(file), key)
  }

  /** Any value that stays on one line is read back, whatever the file held. */
  lemma WrittenIsReadBack(file: File, key: string, value: EnvValue)
    requires IsKey(key) && StaysOnOneLine(value)
    ensures Read(AfterWrite(file, key, value), key) == Some(ReadForm(value))
  {
    hide SplitLines, UniversalNewlines, NewLine, Completed;
    hide DecodeValue, ParseLine, SerializeValue, IsKey, StaysOnOneLine;
    var ls := LoadLines(file);
    var nl, n := NewLine(key, value), LinesBefore(ls, key);
    LoadGivesLines(file);
    WrittenLines(ls, key, value);
    NewLineAssigns(key, value);
    SerializedReads(value);
    NothingBefore(ls, key);
    if n == |ls| {
      CompletedReadsTheSame(ls, key);
      LookupConcat(SplitLines(Completed(Concat(ls))), [nl], key);
    } else {
      LookupConcat(ls[..n], [nl] + ls[n + 1..], key);
    }
  }

  /** Every other key reads as before. */
  lemma OtherKeysAreKept(file: File, key: string, value: EnvValue, other: string)
    requires IsKey(key) && StaysOnOneLine(value) && other != key
    ensures Read(AfterWrite(file, key, value), other) == Read(file, other)
  {
    hide *;
    KeptExactly(file, key, value, other);
    OneLineAssignsOneKey(key, value, other);
  }

  // ----- what any written text does to the other keys

  /** The lines that a written text has by itself */
  function OwnLines(key: string, value: EnvValue): seq<string> {
    LoadLines(Some(NewLine(key, value)))
  }

  lemma NewLineEnds(key: string, value: EnvValue)
    ensures
      var text := NewLine(key, value);
      && text != "" && text[|text| - 1] == '\n'
      && AreLines(OwnLines(key, value)) && OwnLines(key, value) != []
      && Concat(OwnLines(key, value)) == UniversalNewlines(text)
      && IsEnded(OwnLines(key, value)[|OwnLines(key, value)| - 1])
  {
    var text := NewLine(key, value);
    assert text[|text| - 1] == '\n';
    UniversalBefore(text, "");
    hide NewLine, UniversalNewlines;
    EndedLines(UniversalNewlines(text));
  }

  lemma EndedLines(text: string)
    requires text != "" && text[|text| - 1] == '\n'
    ensures
      var own := SplitLines(text);
      AreLines(own) && own != [] && Concat(own) == text && IsEnded(own[|own| - 1])
  {
    var own := SplitLines(text);
    SplitGivesLines(text);
    hide SplitLines, IsLine, IsEnded;
    assert own != [] by {
      assert Concat([]) == "";
    }
    var n := |own| - 1;
    assert IsLine(own[n]);
    hide AreLines, Concat;
    assert own == own[..n] + [own[n]];
    ConcatAppend(own[..n], own[n]);
    LastCharacter(own[n], Concat(own[..n]));
  }

  lemma LastCharacter(l: string, before: string)
    requires IsLine(l) && (before + l)[|before + l| - 1] == '\n'
    ensures IsEnded(l)
  {
    assert (before + l)[|before + l| - 1] == l[|l| - 1];
  }

  /** Whatever is written stands among the lines of the file as it would stand alone. */
  lemma WrittenTextLines(ls: seq<string>, key: string, value: EnvValue)
    requires AreLines(ls) && NoReturn(Concat(ls))
    ensures
      var n := LinesBefore(ls, key);
      LoadLines(Some(Written(ls, key, value))) ==
        if n == |ls| then SplitLines(Completed(Concat(ls))) + OwnLines(key, value)
        else ls[..n] + (OwnLines(key, value) + ls[n + 1..])
  {
    var n := LinesBefore(ls, key);
    var text, own := NewLine(key, value), OwnLines(key, value);
    NewLineEnds(key, value);
    hide NewLine, IsLine, LinesBefore, AreLines, IsEnded;
    if n == |ls| {
      AppendedText(ls, text, own);
    } else {
      ReplacedText(ls, n, text, own);
    }
  }

  lemma AppendedText(ls: seq<string>, text: string, own: seq<string>)
    requires NoReturn(Concat(ls)) && own == SplitLines(UniversalNewlines(text))
    ensures SplitLines(UniversalNewlines(Completed(Concat(ls)) + text)) == SplitLines(Completed(Concat(ls))) + own
  {
    var before := Completed(Concat(ls));
    assert NoReturn(before);
    hide SplitLines, UniversalNewlines, Completed, IsLine, IsEnded, AreLines, NoReturn, Concat;
    UniversalAfter(before, text);
    SplitGivesLines(before);
    CompletedTwice(Concat(ls));
    CompletedIsEnded(SplitLines(before));
    SplitAfterLines(SplitLines(before), UniversalNewlines(text));
  }

  lemma ReplacedText(ls: seq<string>, n: nat, text: string, own: seq<string>)
    requires AreLines(ls) && NoReturn(Concat(ls)) && n < |ls| && text != "" && text[|text| - 1] == '\n'
    requires own == SplitLines(UniversalNewlines(text)) && AreLines(own)
    requires Concat(own) == UniversalNewlines(text) && own != [] && IsEnded(own[|own| - 1])
    ensures SplitLines(UniversalNewlines(Concat(ls[..n]) + text + Concat(ls[n + 1..]))) == ls[..n] + (own + ls[n + 1..])
  {
    hide *;
    var a, b := ls[..n], ls[n + 1..];
    AroundLine(ls, n);
    assert Concat(a) + text + Concat(b) == Concat(a) + (text + Concat(b));
    UniversalAfter(Concat(a), text + Concat(b));
    UniversalBefore(text, Concat(b));
    NewlinesAreUniversal(Concat(b));
    var middle := UniversalNewlines(text);
    assert Concat(a) + (middle + Concat(b)) == Concat(a) + middle + Concat(b);
    ReplacedLines(ls, n, middle);
    SplitAfterLines(own, Concat(b));
  }

  lemma AroundLine(ls: seq<string>, n: nat)
    requires AreLines(ls) && NoReturn(Concat(ls)) && n < |ls|
    ensures NoReturn(Concat(ls[..n])) && NoReturn(Concat(ls[n + 1..])) && SplitLines(Concat(ls[n + 1..])) == ls[n + 1..]
  {
    var a, b := ls[..n], ls[n + 1..];
    assert AreLines(b);
    hide *;
    ReplaceLine(ls, n, ls[n]);
    assert ls[n := ls[n]] == ls;
    NoReturnConcat(Concat(a) + ls[n], Concat(b));
    NoReturnConcat(Concat(a), ls[n]);
    SplitAfterLines(b, "");
    SplitNothing();
    assert Concat(b) + "" == Concat(b) && b + [] == b;
  }

  /**
    Writing any value under any text keeps what another key reads exactly when the written text
    does not assign that key by itself, or an earlier line does, or both assign it the same.
   */
  lemma KeptExactly(file: File, key: string, value: EnvValue, other: string)
    requires other != key
    ensures
      var ls := LoadLines(file);
      var own := Lookup(OwnLines(key, value), other);
      Read(AfterWrite(file, key, value), other) == Read(file, other) <==>
        own == None || Lookup(ls[..LinesBefore(ls, key)], other).Some? || own == Read(file, other)
  {
    var ls := LoadLines(file);
    var n := LinesBefore(ls, key);
    LoadGivesLines(file);
    WrittenTextLines(ls, key, value);
    hide LoadLines, Written, OwnLines, SplitLines, Completed, DecodeValue, ParseLine, Concat, AreLines, NoReturn;
    if n == |ls| {
      CompletedReadsTheSame(ls, other);
      LookupConcat(SplitLines(Completed(Concat(ls))), OwnLines(key, value), other);
      assert ls[..n] == ls;
    } else {
      LookupSpliced(ls, n, OwnLines(key, value), other);
    }
  }

  lemma LookupSpliced(ls: seq<string>, n: nat, own: seq<string>, other: string)
    requires n < |ls| && !Assigns(ls[n], other)
    ensures
      var before, after := Lookup(ls[..n], other), Lookup(ls[n + 1..], other);
      && Lookup(ls, other) == (if before.Some? then before else after)
      && Lookup(ls[..n] + (own + ls[n + 1..]), other) ==
           if before.Some? then before else if Lookup(own, other).Some? then Lookup(own, other) else after
  {
    hide Assigns, DecodeValue, ParseLine;
    assert ls == ls[..n] + ([ls[n]] + ls[n + 1..]);
    LookupConcat(ls[..n], own + ls[n + 1..], other);
    LookupConcat(own, ls[n + 1..], other);
    LookupConcat(ls[..n], [ls[n]] + ls[n + 1..], other);
    assert ([ls[n]] + ls[n + 1..])[1..] == ls[n + 1..];
  }

  /** A key that a line can assign, with a value on one line, assigns no other key. */
  lemma OneLineAssignsOneKey(key: string, value: EnvValue, other: string)
    requires IsKey(key) && StaysOnOneLine(value) && other != key
    ensures Lookup(OwnLines(key, value), other) == None
  {
    hide NewLine, LoadLines, OwnLines, ParseLine, DecodeValue, IsKey, StaysOnOneLine;
    OwnLine(key, value);
    NewLineAssigns(key, value);
    assert [NewLine(key, value)][1..] == [];
  }

  lemma OwnLine(key: string, value: EnvValue)
    requires IsKey(key) && StaysOnOneLine(value)
    ensures OwnLines(key, value) == [NewLine(key, value)]
  {
    var nl := NewLine(key, value);
    NewLineIsLine(key, value);
    NewlinesAreUniversal(nl);
    hide NewLine, SplitLines, UniversalNewlines, IsLine, IsEnded, IsKey, StaysOnOneLine;
    SplitFirstLine(nl, "");
    SplitNothing();
    assert nl + "" == nl && [nl] + [] == [nl];
  }

  /** Writing under `A=B` assigns `A` instead, if nothing before does. */
  lemma ForeignKeyIsAssigned()
    ensures Read(None, "A") == None
    ensures Read(AfterWrite(None, "A=B", Str("x")), "A") == Some("B=\"x\"")
  {
    hide *;
    var text, rest := NewLine("A=B", Str("x")), "B=\"x\"\n";
    ForeignText();
    ForeignLine(text);
    ParseKeyed("A", rest);
    ForeignValue();
    WrittenFirst("A=B", Str("x"));
    OnlyLine(text, "A");
  }

  lemma ForeignText()
    ensures NewLine("A=B", Str("x")) == "A" + "=" + "B=\"x\"\n" == "A=B=\"x\"\n" && IsKey("A")
  {
    assert "x"[1..] == "" && EscapeAll("x") == "x";
    assert TrimLeft("A") == "A" && TrimRight("A") == "A";
  }

  lemma ForeignValue()
    ensures Strip("B=\"x\"\n") == "B=\"x\"" && DecodeValue("B=\"x\"") == "B=\"x\""
  {
    assert "B=\"x\"\n" == "B=\"x\"" + ['\n'];
    StripOfInk("B=\"x\"", '\n');
    assert TrimRight("B=\"x\"") == "B=\"x\"";
  }

  lemma WrittenFirst(key: string, value: EnvValue)
    ensures AfterWrite(None, key, value) == Some(NewLine(key, value))
    ensures forall other :: Read(None, other) == None
  {
    hide NewLine;
    assert "" + NewLine(key, value) == NewLine(key, value);
  }

  lemma OnlyLine(line: string, key: string)
    requires LoadLines(Some(line)) == [line] && ParseLine(line).Some? && ParseLine(line).value.key == key
    ensures Read(Some(line), key) == Some(DecodeValue(ParseLine(line).value.value))
  {
    hide LoadLines, ParseLine, DecodeValue;
  }

  lemma ForeignLine(text: string)
    requires text == "A=B=\"x\"\n"
    ensures LoadLines(Some(text)) == [text]
  {
    NewlinesAreUniversal(text);
    assert IsLine(text) && IsEnded(text);
    SplitFirstLine(text, "");
    assert text + "" == text && [text] + [] == [text];
  }

  // ----- the values and keys for which it fails

  /** A text that is not a key reads as missing from every file. */
  lemma {:induction false} OnlyKeysAreFound(ls: seq<string>, key: string)
    requires forall i :: 0 <= i < |ls| ==> IsLine(ls[i])
    ensures !IsKey(key) ==> Lookup(ls, key) == None
  {
    hide IsKey, IsLine, Assigns, DecodeValue, ParseLine;
    if ls != [] {
      if Assigns(ls[0], key) {
        OnlyKeysAreAssigned(ls[0], key);
      }
      OnlyKeysAreFound(ls[1..], key);
    }
  }

  predicate HasRawBreak(s: string) {
    exists i :: 0 <= i < |s| && IsRawBreak(s[i])
  }

  /** Where the written text of a string first breaks */
  lemma FirstLineBreak(e: string, k: nat) returns (j: nat)
    requires k < |e| && IsLineBreak(e[k])
    ensures j < |e| && IsLineBreak(e[j]) && NoBreak(e[..j])
  {
    hide IsLineBreak;
    j := 0;
    while !IsLineBreak(e[j])
      invariant j <= k && NoBreak(e[..j])
      decreases k - j
    {
      j := j + 1;
    }
  }

  lemma FirstBreak(s: string) returns (j: nat)
    requires HasRawBreak(s)
    ensures j < |EscapeAll(s)| && IsLineBreak(EscapeAll(s)[j]) && NoBreak(EscapeAll(s)[..j])
    ensures IsRawBreak(EscapeAll(s)[j])
  {
    var i :| 0 <= i < |s| && IsRawBreak(s[i]);
    RawBreaksStay(s, i);
    hide EscapeAll;
    var k :| 0 <= k < |EscapeAll(s)| && EscapeAll(s)[k] == s[i];
    j := FirstLineBreak(EscapeAll(s), k);
    BreaksOfEscaped(s, j);
  }

  lemma UnclosedReads(v: string)
    requires v != "" && v[0] == '"' && JsonLoads(v) == None && !HasRawBreak(v)
    ensures !HasRawBreak(DecodeValue(v))
  {
    hide JsonLoads;
    var d := DecodeValue(v);
    forall i | 0 <= i < |d| ensures !IsRawBreak(d[i]) {
      if d == v {
        assert !IsRawBreak(v[i]);
      } else {
        assert d[i] == v[i + 1] && !IsRawBreak(v[i + 1]);
      }
    }
  }

  /** A broken first line reads as a text without raw breaks. */
  lemma BrokenValueReads(s: string, j: nat)
    requires j < |EscapeAll(s)| && NoBreak(EscapeAll(s)[..j]) && IsSpace(EscapeAll(s)[j])
    ensures !HasRawBreak(DecodeValue(Strip("\"" + EscapeAll(s)[..j + 1])))
  {
    hide EscapeAll, DecodeValue, JsonBody, Strip, IsSpace;
    var e := EscapeAll(s);
    var x := "\"" + e[..j];
    assert "\"" + e[..j + 1] == x + [e[j]];
    assert !IsSpace('"') by { QuoteIsInk(); }
    StripOfInk(x, e[j]);
    var v := Strip(x);
    assert v[1..] <= e[..j];
    assert v[1..] <= e;
    CutBodyFails(s, v[1..]);
    forall i | 0 <= i < |v| ensures !IsRawBreak(v[i]) {
      assert v[i] == x[i];
      if i > 0 {
        assert v[i] == e[..j][i - 1];
      }
    }
    UnclosedReads(v);
  }

  lemma QuoteIsInk()
    ensures !IsSpace('"')
  {
  }

  lemma StringHasNoReturn(key: string, s: string)
    requires IsKey(key)
    ensures NoReturn(NewLine(key, Str(s)))
  {
    var nl, e := NewLine(key, Str(s)), EscapeAll(s);
    forall i | 0 <= i < |nl| ensures nl[i] != '\r' {
      if i < |key| {
        assert nl[i] == key[i];
      } else if |key| + 2 <= i < |key| + 2 + |e| {
        assert nl[i] == e[i - |key| - 2];
        if e[i - |key| - 2] == '\r' {
          BreaksOfEscaped(s, i - |key| - 2);
        }
      }
    }
  }

  lemma BrokenFirstIsLine(key: string, e: string, j: nat)
    requires IsKey(key) && j < |e| && NoBreak(e[..j]) && IsLineBreak(e[j])
    ensures IsLine(key + "=" + ("\"" + e[..j + 1])) && IsEnded(key + "=" + ("\"" + e[..j + 1]))
  {
    var first := key + "=" + ("\"" + e[..j + 1]);
    var body := first[..|first| - 1];
    assert body == key + "=\"" + e[..j];
    forall i | 0 <= i < |body| ensures !IsLineBreak(body[i]) {
      if i < |key| {
        assert body[i] == key[i];
      } else if i >= |key| + 2 {
        assert body[i] == e[..j][i - |key| - 2];
      }
    }
    assert first[|first| - 1] == e[j];
  }

  lemma Regroup(a: string, b: string, c: string, q: string, n: string)
    ensures a + (q + (b + c) + q) + n == a + (q + b) + (c + q + n)
  {
    assert q + (b + c) + q == q + b + (c + q);
    assert a + (q + b + (c + q)) + n == a + (q + b) + (c + q + n);
  }

  /** The first of the lines into which a broken assignment falls */
  lemma BrokenLine(key: string, s: string) returns (first: string, more: seq<string>)
    requires IsKey(key) && HasRawBreak(s)
    ensures OwnLines(key, Str(s)) == [first] + more
    ensures ParseLine(first).Some? && ParseLine(first).value.key == key
    ensures !HasRawBreak(DecodeValue(ParseLine(first).value.value))
  {
    hide *;
    var j := FirstBreak(s);
    var e := EscapeAll(s);
    first := key + "=" + ("\"" + e[..j + 1]);
    var tail := e[j + 1..] + "\"" + "\n";
    OwnText(key, s, j);
    BrokenFirstIsLine(key, e, j);
    SplitFirstLine(first, tail);
    more := SplitLines(tail);
    ParseKeyed(key, "\"" + e[..j + 1]);
    BreakIsSpace(e[j]);
    BrokenValueReads(s, j);
  }

  lemma BreakIsSpace(c: char)
    ensures IsRawBreak(c) ==> IsSpace(c)
  {
  }

  lemma OwnText(key: string, s: string, j: nat)
    requires IsKey(key) && j < |EscapeAll(s)|
    ensures
      var e := EscapeAll(s);
      OwnLines(key, Str(s)) == SplitLines(key + "=" + ("\"" + e[..j + 1]) + (e[j + 1..] + "\"" + "\n"))
  {
    StringHasNoReturn(key, s);
    NewlinesAreUniversal(NewLine(key, Str(s)));
    hide SplitLines, UniversalNewlines, EscapeAll, IsKey;
    var e := EscapeAll(s);
    assert e == e[..j + 1] + e[j + 1..];
    Regroup(key + "=", e[..j + 1], e[j + 1..], "\"", "\n");
  }

  lemma BrokenIsNotReadBack(file: File, key: string, s: string)
    requires IsKey(key) && HasRawBreak(s)
    ensures Read(AfterWrite(file, key, Str(s)), key) != Some(s)
  {
    hide SplitLines, Written, LoadLines, OwnLines, Completed, DecodeValue, ParseLine;
    hide IsKey, HasRawBreak, Concat, AreLines, NoReturn;
    var ls := LoadLines(file);
    var n := LinesBefore(ls, key);
    LoadGivesLines(file);
    WrittenTextLines(ls, key, Str(s));
    NothingBefore(ls, key);
    var first, more := BrokenLine(key, s);
    if n == |ls| {
      CompletedReadsTheSame(ls, key);
      LookupConcat(SplitLines(Completed(Concat(ls))), [first] + more, key);
    } else {
      LookupConcat(ls[..n], [first] + more + ls[n + 1..], key);
    }
  }

  /**
    A string value is read back exactly when the key is one that a line can assign and the
    string has no U+0085, U+2028 or U+2029, at which `splitlines` breaks the written line.
   */
  lemma RoundTripCondition(file: File, key: string, s: string)
    ensures Read(AfterWrite(file, key, Str(s)), key) == Some(s) <==> IsKey(key) && !HasRawBreak(s)
  {
    hide SplitLines, UniversalNewlines, Written, IsKey, Lookup;
    if IsKey(key) {
      if HasRawBreak(s) {
        BrokenIsNotReadBack(file, key, s);
      } else {
        WrittenIsReadBack(file, key, Str(s));
      }
    } else {
      LoadGivesLines(AfterWrite(file, key, Str(s)));
      OnlyKeysAreFound(LoadLines(AfterWrite(file, key, Str(s))), key);
    }
  }

  // ----- several values, and booleans

  /** `write_env_values`: one write after another */
  method WriteEnvValues(file: File, values: seq<(string, EnvValue)>) returns (written: File)
    requires forall i, j :: 0 <= i < j < |values| ==> values[i].0 != values[j].0
    ensures
      (forall i :: 0 <= i < |values| ==> IsKey(values[i].0) && StaysOnOneLine(values[i].1)) ==>
        && (forall i :: 0 <= i < |values| ==> Read(written, values[i].0) == Some(ReadForm(values[i].1)))
        && (forall key :: !IsAmong(key, values) ==> Read(written, key) == Read(file, key))
  {
    hide Read, IsKey, StaysOnOneLine, ReadForm, Written, LoadLines, IsAmong;
    NothingAmong();
    written := file;
    ghost var writable := forall i :: 0 <= i < |values| ==> IsKey(values[i].0) && StaysOnOneLine(values[i].1);
    for n := 0 to |values|
      invariant writable ==> forall i :: 0 <= i < n ==> Read(written, values[i].0) == Some(ReadForm(values[i].1))
      invariant writable ==> forall key :: !IsAmong(key, values[..n]) ==> Read(written, key) == Read(file, key)
    {
      ghost var before := written;
      written := WriteEnvValue(written, values[n].0, values[n].1);
      if writable {
        WriteOne(before, values[n].0, values[n].1);
        forall key | !IsAmong(key, values[..n + 1])
          ensures Read(written, key) == Read(file, key)
        {
          AmongPrefix(key, values, n);
        }
      }
    }
    assert values[..|values|] == values;
  }

  predicate IsAmong(key: string, values: seq<(string, EnvValue)>) {
    exists i :: 0 <= i < |values| && values[i].0 == key
  }

  lemma NothingAmong()
    ensures forall key :: !IsAmong(key, [])
  {
  }

  lemma AmongPrefix(key: string, values: seq<(string, EnvValue)>, n: nat)
    requires n < |values|
    ensures IsAmong(key, values[..n + 1]) <==> IsAmong(key, values[..n]) || key == values[n].0
  {
    assert values[..n + 1][n] == values[n];
    assert forall i :: 0 <= i < n ==> values[..n][i] == values[..n + 1][i];
  }

  lemma WriteOne(file: File, key: string, value: EnvValue)
    requires IsKey(key) && StaysOnOneLine(value)
    ensures Read(AfterWrite(file, key, value), key) == Some(ReadForm(value))
    ensures forall other :: other != key ==> Read(AfterWrite(file, key, value), other) == Read(file, other)
  {
    hide *;
    WrittenIsReadBack(file, key, value);
    forall other | other != key
      ensures Read(AfterWrite(file, key, value), other) == Read(file, other)
    {
      OtherKeysAreKept(file, key, value, other);
    }
  }

  /** `_env_bool` */
  function EnvBool(value: Option<string>, default: bool): bool {
    if value.None? || value.value == "" then default
    else Lower(Strip(value.value)) in ["1", "true", "yes", "y", "on"]
  }

  /** A word, in upper, lower or mixed case */
  predicate IsWord(text: string, word: string) {
    |text| == |word| && forall i :: 0 <= i < |word| ==>
      text[i] == word[i] || ('a' <= word[i] <= 'z' && text[i] as int + 32 == word[i] as int)
  }

  /** Five words are true in any case and with space around them, any other text is false; the default is for none. */
  lemma TruthsExactly(value: Option<string>, default: bool)
    ensures value.None? || value == Some("") ==> EnvBool(value, default) == default
    ensures value.Some? && value.value != "" ==>
      var text := Strip(value.value);
      EnvBool(value, default) <==>
        || IsWord(text, "1") || IsWord(text, "true") || IsWord(text, "yes") || IsWord(text, "y") || IsWord(text, "on")
  {
    if value.Some? {
      var text := Strip(value.value);
      LowerExactly(text, "1");
      LowerExactly(text, "true");
      LowerExactly(text, "yes");
      LowerExactly(text, "y");
      LowerExactly(text, "on");
      var words := ["1", "true", "yes", "y", "on"];
      assert words[0] == "1" && words[1] == "true" && words[2] == "yes" && words[3] == "y" && words[4] == "on";
      hide Lower, IsWord, Strip;
    }
  }

  lemma {:induction false} LowerExactly(text: string, word: string)
    requires forall i :: 0 <= i < |word| ==> !('A' <= word[i] <= 'Z')
    ensures Lower(text) == word <==> IsWord(text, word)
  {
    if text != "" && word != "" {
      LowerExactly(text[1..], word[1..]);
      assert Lower(text)[1..] == Lower(text[1..]);
      assert word == [word[0]] + word[1..];
      if IsWord(text[1..], word[1..]) {
        assert forall i :: 1 <= i < |word| ==> text[i] == text[1..][i - 1] && word[i] == word[1..][i - 1];
      }
      if IsWord(text, word) {
        assert forall i :: 0 <= i < |word| - 1 ==> text[1..][i] == text[i + 1] && word[1..][i] == word[i + 1];
      }
    }
  }

  /**
    What other writers leave: a value in single quotes, or in double quotes that are no JSON
    text, reads as what is between the quotes, and a bare value as itself.
   */
  lemma OtherFormsAreRead(key: string, text: string)
    requires IsKey(key)
    ensures Lookup([key + "=" + ("'" + text + "'")], key) == Some(text)
    ensures JsonLoads("\"" + text + "\"") == None ==> Lookup([key + "=" + ("\"" + text + "\"")], key) == Some(text)
    ensures Strip(text) == text && !Quoted(text, '"') && !Quoted(text, '\'') ==>
      Lookup([key + "=" + text], key) == Some(text)
  {
    hide Lookup, ParseLine, IsKey, JsonLoads;
    EnclosedReads(key, text, '\'');
    EnclosedReads(key, text, '"');
    LineReads(key, text);
    assert ['\''] + text + ['\''] == "'" + text + "'" && ['"'] + text + ['"'] == "\"" + text + "\"";
  }

  lemma LineReads(key: string, rest: string)
    requires IsKey(key)
    ensures Lookup([key + "=" + rest], key) == Some(DecodeValue(Strip(rest)))
  {
    ParseKeyed(key, rest);
    hide ParseLine, DecodeValue, IsKey, Strip;
  }

  lemma EnclosedReads(key: string, text: string, quote: char)
    requires IsKey(key) && (quote == '\'' || quote == '"')
    ensures
      var value := [quote] + text + [quote];
      quote == '\'' || JsonLoads(value) == None ==> Lookup([key + "=" + value], key) == Some(text)
  {
    hide Lookup, ParseLine, IsKey, JsonLoads;
    var value := [quote] + text + [quote];
    LineReads(key, value);
    assert TrimLeft(value) == value && TrimRight(value) == value;
    assert value[1..|value| - 1] == text;
  }

  /** A boolean that was written is read as that boolean, whatever the default. */
  lemma BooleansRoundTrip(file: File, key: string, flag: bool, default: bool)
    requires IsKey(key)
    ensures EnvBool(Read(AfterWrite(file, key, Bool(flag)), key), default) == flag
  {
    hide Read, AfterWrite, IsKey, Lower, Strip;
    WrittenIsReadBack(file, key, Bool(flag));
    LowerOfBooleans();
  }

  lemma LowerOfBooleans()
    ensures Lower(Strip("true")) == "true" && Lower(Strip("false")) == "false"
  {
    assert TrimLeft("true") == "true" && TrimRight("true") == "true";
    assert TrimLeft("false") == "false" && TrimRight("false") == "false";
    LowerUnfolds("true");
    LowerUnfolds("false");
  }

  lemma {:induction false} LowerUnfolds(s: string)
    requires forall i :: 0 <= i < |s| ==> 'a' <= s[i] <= 'z'
    ensures Lower(s) == s
  {
    if s != "" {
      LowerUnfolds(s[1..]);
      assert [s[0]] + s[1..] == s;
    }
  }
}
