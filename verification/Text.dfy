/**
  The parts of Python's `str` that the modelled code relies on: prefix and suffix
  tests, `find`, `strip`, and concatenation of a list of fragments.
 */
module Text {

  /** `s.endswith(suffix)` */
  predicate EndsWith(s: string, suffix: string) {
    |suffix| <= |s| && s[|s| - |suffix|..] == suffix
  }

  /** `pattern in s`, as an occurrence at some position */
  predicate Contains(s: string, pattern: string) {
    exists i :: 0 <= i <= |s| && pattern <= s[i..]
  }

  /** `r` is the position of the first occurrence, or -1 */
  predicate IsFirst(s: string, pattern: string, r: int) {
    if r == -1 then !Contains(s, pattern)
    else 0 <= r <= |s| && pattern <= s[r..] && forall j :: 0 <= j < r ==> !(pattern <= s[j..])
  }

  /** `s.find(pattern)` */
  function Find(s: string, pattern: string): (r: int)
    ensures IsFirst(s, pattern, r) && -1 <= r && (r != -1 ==> r + |pattern| <= |s|)
  {
    if pattern <= s then assert s[0..] == s; 0
    else if s == "" then -1
    else
      var rest := Find(s[1..], pattern);
      FirstShifts(s, pattern, rest);
      if rest == -1 then -1 else rest + 1
  }

  lemma FirstShifts(s: string, pattern: string, rest: int)
    requires s != "" && !(pattern <= s) && -1 <= rest && IsFirst(s[1..], pattern, rest)
    ensures IsFirst(s, pattern, if rest == -1 then -1 else rest + 1)
  {
    assert s[0..] == s;
    forall j | 1 <= j <= |s| ensures s[1..][j - 1..] == s[j..] {
    }
    if rest != -1 {
      assert s[1..][rest..] == s[rest + 1..];
    }
  }

  /** `"".join(parts)` */
  function Concat(parts: seq<string>): string {
    if parts == [] then "" else parts[0] + Concat(parts[1..])
  }

  lemma {:induction false} ConcatAppend(parts: seq<string>, last: string)
    ensures Concat(parts + [last]) == Concat(parts) + last
  {
    if parts == [] {
      assert parts + [last] == [last] + [];
    } else {
      assert (parts + [last])[1..] == parts[1..] + [last];
      ConcatAppend(parts[1..], last);
    }
  }

  lemma {:induction false} ConcatOfConcat(left: seq<string>, right: seq<string>)
    ensures Concat(left + right) == Concat(left) + Concat(right)
  {
    if left == [] {
      assert left + right == right;
    } else {
      assert (left + right)[1..] == left[1..] + right;
      ConcatOfConcat(left[1..], right);
    }
  }

  /** The characters for which `str.isspace()` holds, hence those that `strip()` removes */
  predicate IsSpace(c: char) {
    || '\t' <= c <= '\r'
    || '\U{1C}' <= c <= ' '
    || c == '\U{85}' || c == '\U{A0}' || c == '\U{1680}'
    || '\U{2000}' <= c <= '\U{200A}'
    || c == '\U{2028}' || c == '\U{2029}' || c == '\U{202F}' || c == '\U{205F}' || c == '\U{3000}'
  }

  function TrimLeft(s: string): string {
    if s != "" && IsSpace(s[0]) then TrimLeft(s[1..]) else s
  }

  function TrimRight(s: string): string {
    if s != "" && IsSpace(s[|s| - 1]) then TrimRight(s[..|s| - 1]) else s
  }

  /** `s.strip()` */
  function Strip(s: string): string {
    TrimRight(TrimLeft(s))
  }

  /** `s.lower()`, for the ASCII letters */
  function Lower(s: string): string {
    if s == "" then ""
    else [if 'A' <= s[0] <= 'Z' then (s[0] as int + 32) as char else s[0]] + Lower(s[1..])
  }

  /** The number of characters that are not whitespace */
  function InkCount(s: string): nat {
    if s == "" then 0 else (if IsSpace(s[0]) then 0 else 1) + InkCount(s[1..])
  }

  lemma {:induction false} InkCountConcat(a: string, b: string)
    ensures InkCount(a + b) == InkCount(a) + InkCount(b)
  {
    if a == "" {
      assert a + b == b;
    } else {
      assert (a + b)[1..] == a[1..] + b;
      InkCountConcat(a[1..], b);
    }
  }

  /** Stripping whitespace never removes ink. */
  lemma {:induction false} StripKeepsInk(s: string)
    ensures InkCount(Strip(s)) == InkCount(s)
  {
    TrimLeftKeepsInk(s);
    TrimRightKeepsInk(TrimLeft(s));
  }

  lemma TrimLeftKeepsInk(s: string)
    ensures InkCount(TrimLeft(s)) == InkCount(s)
  {
  }

  lemma {:induction false} TrimRightKeepsInk(s: string)
    ensures InkCount(TrimRight(s)) == InkCount(s)
  {
    if s != "" && IsSpace(s[|s| - 1]) {
      TrimRightKeepsInk(s[..|s| - 1]);
      assert s == s[..|s| - 1] + [s[|s| - 1]];
      InkCountConcat(s[..|s| - 1], [s[|s| - 1]]);
    }
  }

  lemma {:induction false} TrimLeftBeforeSpace(s: string, c: char)
    requires IsSpace(c)
    ensures TrimRight(TrimLeft(s + [c])) == TrimRight(TrimLeft(s))
  {
    if s == "" {
      assert s + [c] == [c];
      assert [c][1..] == "";
      assert TrimLeft([c]) == TrimLeft("");
    } else if IsSpace(s[0]) {
      assert (s + [c])[1..] == s[1..] + [c];
      TrimLeftBeforeSpace(s[1..], c);
    } else {
      assert (s + [c])[..|s|] == s;
    }
  }

  /** A trailing whitespace character does not change the stripped text. */
  lemma StripIgnoresTrailingSpace(s: string, c: char)
    requires IsSpace(c)
    ensures Strip(s + [c]) == Strip(s)
  {
    TrimLeftBeforeSpace(s, c);
  }
}
