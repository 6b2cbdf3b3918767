/**
  The lines of a text: universal newlines as `read_text` translates them, and `str.splitlines`
  with and without the line ends.
 */
module TextLines {
  import opened Text

  /** What `read_text` makes of the line ends `\r\n` and `\r` */
  function UniversalNewlines(raw: string): string
    decreases |raw|
  {
    if raw == "" then ""
    else if raw[0] == '\r' then "\n" + UniversalNewlines(if |raw| > 1 && raw[1] == '\n' then raw[2..] else raw[1..])
    else [raw[0]] + UniversalNewlines(raw[1..])
  }

  predicate NoReturn(s: string) {
    '\r' !in s
  }

  lemma NoReturnConcat(a: string, b: string)
    ensures NoReturn(a + b) <==> NoReturn(a) && NoReturn(b)
  {
  }

  lemma {:induction false} NewlinesAreUniversal(raw: string)
    ensures NoReturn(UniversalNewlines(raw))
    ensures NoReturn(raw) ==> UniversalNewlines(raw) == raw
    decreases |raw|
  {
    if raw != "" {
      NewlinesAreUniversal(if raw[0] == '\r' && |raw| > 1 && raw[1] == '\n' then raw[2..] else raw[1..]);
    }
  }

  /** The translation of a text without carriage returns does not depend on what follows it, */
  lemma {:induction false} UniversalAfter(a: string, b: string)
    requires NoReturn(a)
    ensures UniversalNewlines(a + b) == a + UniversalNewlines(b)
  {
    if a == "" {
      assert a + b == b && a + UniversalNewlines(b) == UniversalNewlines(b);
    } else {
      assert (a + b)[1..] == a[1..] + b;
      UniversalAfter(a[1..], b);
      assert [a[0]] + (a[1..] + UniversalNewlines(b)) == a + UniversalNewlines(b);
    }
  }

  /** The length of the line end at the front, or 1 */
  function Step(s: string): nat {
    if |s| > 1 && s[0] == '\r' && s[1] == '\n' then 2 else 1
  }

  lemma UniversalStep(s: string)
    requires s != ""
    ensures 1 <= Step(s) <= |s|
    ensures UniversalNewlines(s) == [if s[0] == '\r' then '\n' else s[0]] + UniversalNewlines(s[Step(s)..])
  {
  }

  lemma StepInside(a: string, b: string)
    requires a != "" && a[|a| - 1] == '\n'
    ensures Step(a + b) == Step(a) && (a + b)[Step(a)..] == a[Step(a)..] + b
    ensures Step(a) < |a| ==> a[Step(a)..][|a[Step(a)..]| - 1] == '\n'
    ensures Step(a) == |a| ==> a[Step(a)..] == "" && (a[0] == '\n' || a[0] == '\r')
  {
  }

  /** nor that of a text which ends in a newline on what comes after the newline. */
  lemma {:induction false} UniversalBefore(a: string, b: string)
    requires a != "" && a[|a| - 1] == '\n'
    ensures UniversalNewlines(a + b) == UniversalNewlines(a) + UniversalNewlines(b)
    ensures UniversalNewlines(a) != "" && UniversalNewlines(a)[|UniversalNewlines(a)| - 1] == '\n'
    decreases |a|
  {
    UniversalStep(a);
    UniversalStep(a + b);
    StepInside(a, b);
    assert UniversalNewlines("") == "";
    hide UniversalNewlines, Step;
    var n := Step(a);
    if n == |a| {
      assert a[n..] + b == b;
    } else {
      UniversalBefore(a[n..], b);
    }
  }

  /** The characters at which `str.splitlines` breaks */
  predicate IsLineBreak(c: char) {
    '\n' <= c <= '\r' || '\U{1C}' <= c <= '\U{1E}' || IsRawBreak(c)
  }

  /** Those that JSON text may contain unescaped */
  predicate IsRawBreak(c: char) {
    c == '\U{85}' || c == '\U{2028}' || c == '\U{2029}'
  }

  predicate NoBreak(s: string) {
    forall i :: 0 <= i < |s| ==> !IsLineBreak(s[i])
  }

  /** The length of the first line, with its line break */
  function LineLength(s: string): (n: nat)
    requires s != ""
    ensures 1 <= n <= |s|
  {
    if IsLineBreak(s[0]) || |s| == 1 then 1 else 1 + LineLength(s[1..])
  }

  /** `text.splitlines(keepends=True)`, for a text without `\r` */
  function SplitLines(s: string): seq<string>
    decreases |s|
  {
    if s == "" then [] else [s[..LineLength(s)]] + SplitLines(s[LineLength(s)..])
  }

  /** One line, ended by a break or not */
  predicate IsLine(l: string) {
    l != "" && NoBreak(l[..|l| - 1])
  }

  predicate IsEnded(l: string) {
    l != "" && IsLineBreak(l[|l| - 1])
  }

  ghost predicate AreLines(ls: seq<string>) {
    forall i :: 0 <= i < |ls| ==> IsLine(ls[i]) && (i < |ls| - 1 ==> IsEnded(ls[i]))
  }

  lemma {:induction false} FirstLine(s: string)
    requires s != ""
    ensures IsLine(s[..LineLength(s)])
    ensures LineLength(s) < |s| ==> IsEnded(s[..LineLength(s)])
    decreases |s|
  {
    if !IsLineBreak(s[0]) && |s| > 1 {
      FirstLine(s[1..]);
      LongerLine(s[0], s[1..], LineLength(s[1..]));
      assert [s[0]] + s[1..] == s;
    }
  }

  /** A character in front of a line, if it is not a break, makes the line longer. */
  lemma LongerLine(c: char, rest: string, m: nat)
    requires !IsLineBreak(c) && 1 <= m <= |rest| && IsLine(rest[..m])
    ensures
      var s := [c] + rest;
      IsLine(s[..m + 1]) && (IsEnded(rest[..m]) ==> IsEnded(s[..m + 1]))
  {
    var s := [c] + rest;
    var line, longer := rest[..m], s[..m + 1];
    assert longer == [c] + line;
    assert longer[..m] == [c] + line[..m - 1];
    hide IsLineBreak;
  }

  lemma {:induction false} LengthOfLine(l: string, rest: string)
    requires IsLine(l) && (IsEnded(l) || rest == "")
    ensures LineLength(l + rest) == |l|
    decreases |l|
  {
    if |l| == 1 {
      assert (l + rest)[0] == l[0];
    } else {
      assert l[0] == l[..|l| - 1][0];
      assert (l + rest)[1..] == l[1..] + rest;
      assert l[1..][..|l| - 2] == l[..|l| - 1][1..];
      LengthOfLine(l[1..], rest);
    }
  }

  lemma {:induction false} SplitGivesLines(s: string)
    ensures AreLines(SplitLines(s)) && Concat(SplitLines(s)) == s
    decreases |s|
  {
    hide LineLength, IsLine, IsEnded;
    if s != "" {
      var n := LineLength(s);
      FirstLine(s);
      SplitGivesLines(s[n..]);
      assert s[..n] + s[n..] == s;
    }
  }

  lemma SplitFirstLine(l: string, rest: string)
    requires IsLine(l) && (IsEnded(l) || rest == "")
    ensures SplitLines(l + rest) == [l] + SplitLines(rest)
  {
    LengthOfLine(l, rest);
    assert (l + rest)[..|l|] == l && (l + rest)[|l|..] == rest;
  }

  /** Splitting resumes after a line break. */
  lemma {:induction false} SplitAfterLines(ls: seq<string>, rest: string)
    requires AreLines(ls) && (rest == "" || ls == [] || IsEnded(ls[|ls| - 1]))
    ensures SplitLines(Concat(ls) + rest) == ls + SplitLines(rest)
    decreases |ls|
  {
    hide SplitLines, IsLine, IsEnded;
    if ls == [] {
      assert Concat(ls) + rest == rest;
    } else {
      var more := Concat(ls[1..]) + rest;
      assert Concat(ls) + rest == ls[0] + more;
      if |ls| == 1 {
        assert ls[1..] == [] && more == rest;
      }
      SplitFirstLine(ls[0], more);
      SplitAfterLines(ls[1..], rest);
      assert [ls[0]] + (ls[1..] + SplitLines(rest)) == ls + SplitLines(rest);
    }
  }

  // ----- without the line ends

  /** A line without its end */
  function Body(l: string): string {
    if IsEnded(l) then l[..|l| - 1] else l
  }

  function Bodies(ls: seq<string>): seq<string> {
    if ls == [] then [] else [Body(ls[0])] + Bodies(ls[1..])
  }

  /** `text.splitlines()`: the ends `\r` and `\r\n` break lines as `\n` does */
  function Lines(text: string): seq<string> {
    Bodies(SplitLines(UniversalNewlines(text)))
  }

  lemma {:induction false} BodiesHaveNoBreak(ls: seq<string>)
    requires AreLines(ls)
    ensures forall i :: 0 <= i < |Bodies(ls)| ==> NoBreak(Bodies(ls)[i])
  {
    hide NoBreak, IsLine, IsEnded, Body;
    if ls != [] {
      BodyHasNoBreak(ls[0]);
      BodiesHaveNoBreak(ls[1..]);
    }
  }

  lemma BodyHasNoBreak(l: string)
    requires IsLine(l)
    ensures NoBreak(Body(l))
  {
    if !IsEnded(l) {
      assert l == l[..|l| - 1] + [l[|l| - 1]];
    }
  }

  /** No line that `splitlines` gives has a break in it. */
  lemma LinesHaveNoBreak(text: string)
    ensures forall i :: 0 <= i < |Lines(text)| ==> NoBreak(Lines(text)[i])
  {
    SplitGivesLines(UniversalNewlines(text));
    BodiesHaveNoBreak(SplitLines(UniversalNewlines(text)));
  }

  /** The text that has the given lines, each with a newline */
  function Unlines(lines: seq<string>): string {
    if lines == [] then "" else lines[0] + "\n" + Unlines(lines[1..])
  }

  /** Lines without a break are read back from the text that is made of them. */
  lemma {:induction false} LinesOfUnlines(lines: seq<string>)
    requires forall i :: 0 <= i < |lines| ==> NoBreak(lines[i])
    ensures Lines(Unlines(lines)) == lines
  {
    UnlinesSplit(lines);
    NewlinesAreUniversal(Unlines(lines));
  }

  lemma {:induction false} UnlinesSplit(lines: seq<string>)
    requires forall i :: 0 <= i < |lines| ==> NoBreak(lines[i])
    ensures Bodies(SplitLines(Unlines(lines))) == lines && NoReturn(Unlines(lines))
  {
    hide SplitLines, NoBreak, IsLine, IsEnded, Body;
    if lines == [] {
      assert SplitLines("") == [] by {
        SplitEmpty();
      }
    } else {
      var l, rest := lines[0] + "\n", Unlines(lines[1..]);
      UnlinesSplit(lines[1..]);
      EndedLine(lines[0]);
      SplitFirstLine(l, rest);
      NoReturnConcat(l, rest);
      assert ([l] + SplitLines(rest))[1..] == SplitLines(rest);
      assert [lines[0]] + lines[1..] == lines;
    }
  }

  lemma SplitEmpty()
    ensures SplitLines("") == []
  {
  }

  lemma EndedLine(line: string)
    requires NoBreak(line)
    ensures IsLine(line + "\n") && IsEnded(line + "\n") && Body(line + "\n") == line && NoReturn(line + "\n")
  {
    var l := line + "\n";
    assert l[..|l| - 1] == line;
    assert forall i :: 0 <= i < |line| ==> line[i] != '\r';
  }
}
