/**
  The streaming filter that removes thinking blocks and orphan end tags from a token
  stream (`_ThinkTagStripper`), and the regular-expression filter used without streaming.

  `Scan` is the reference: a character-by-character scanner over the whole text. It knows
  neither buffers, `find`, nor partial-tag lengths.
 */
module ThinkTags {
  import opened Text

  /** The two tags of a thinking block */
  datatype Tags = Tags(start: string, end: string) {

    /**
      All that the filter needs of its tags: both start with the same character, which occurs
      nowhere else in them, they differ in the second one, and every character is a printable
      ASCII character other than the space.
     */
    predicate WellFormed() {
      && |start| >= 2 && |end| >= 2
      && start[0] == end[0] && start[1] != end[1]
      && (forall k :: 0 < k < |start| ==> start[k] != start[0])
      && (forall k :: 0 < k < |end| ==> end[k] != end[0])
      && (forall k :: 0 <= k < |start| ==> '!' <= start[k] <= '~')
      && (forall k :: 0 <= k < |end| ==> '!' <= end[k] <= '~')
    }

    predicate MayStartAt(s: string) {
      start <= s || end <= s || s < start || s < end
    }

    /** A suffix that may be held between two chunks */
    predicate Holds(inside: bool, held: string) {
      held < end || (!inside && held < start)
    }

    predicate Free(s: string) {
      !Contains(s, start) && !Contains(s, end)
    }
  }

  const THINK := Tags("<think>", "</think>")

  lemma ThinkIsWellFormed()
    ensures THINK.WellFormed() && |THINK.start| == 7 && |THINK.end| == 8
  {
  }

  /** What a scanner has produced: visible text, its mode, and an undecided suffix */
  datatype Scanned = Scanned(output: string, inside: bool, held: string) {
    function Prepend(text: string): Scanned {
      this.(output := text + output)
    }
  }

  function Scan(t: Tags, inside: bool, s: string): Scanned
    requires t.WellFormed()
    decreases |s|
  {
    if s == "" then Scanned("", inside, "")
    else if t.end <= s then Scan(t, false, s[|t.end|..])
    else if inside then
      if s < t.end then Scanned("", true, s) else Scan(t, true, s[1..])
    else if t.start <= s then Scan(t, true, s[|t.start|..])
    else if s < t.start || s < t.end then Scanned("", false, s)
    else Scan(t, false, s[1..]).Prepend([s[0]])
  }

  // ----- string-matching facts about the two tags

  /** A tag cannot begin before an opening character and run across it. */
  lemma NoTagAcross(t: Tags, s: string, i: nat, j: nat)
    requires t.WellFormed() && j < i < |s| && s[i] == t.start[0]
    ensures !(s[j..] < t.start) && !(s[j..] < t.end)
  {
    assert s[j..][i - j] == s[i];
  }

  /** Once a text and a tag disagree they disagree for every continuation. */
  lemma Disagree(a: string, b: string, tag: string)
    requires !(tag <= a) && !(a < tag)
    ensures !(tag <= a + b) && !(a + b < tag)
  {
    var n := if |a| < |tag| then |a| else |tag|;
    assert a[..n] != tag[..n];
    assert (a + b)[..n] == a[..n];
  }

  // ----- the scanner over longer steps

  lemma {:induction false} ScanHolds(t: Tags, inside: bool, s: string)
    requires t.WellFormed()
    ensures t.Holds(Scan(t, inside, s).inside, Scan(t, inside, s).held)
    decreases |s|
  {
    if s == "" {
    } else if t.end <= s {
      ScanHolds(t, false, s[|t.end|..]);
    } else if !inside && t.start <= s {
      ScanHolds(t, true, s[|t.start|..]);
    } else {
      ScanHolds(t, inside, s[1..]);
    }
  }

  lemma ScanText(t: Tags, s: string)
    requires t.WellFormed() && s != "" && !t.MayStartAt(s)
    ensures Scan(t, false, s) == Scan(t, false, s[1..]).Prepend([s[0]])
  {
  }

  lemma {:induction false} ScanSkipsOutside(t: Tags, s: string, i: nat)
    requires t.WellFormed() && i <= |s|
    requires forall j :: 0 <= j < i ==> !t.MayStartAt(s[j..])
    ensures Scan(t, false, s) == Scan(t, false, s[i..]).Prepend(s[..i])
    decreases i
  {
    hide Scan, Tags.MayStartAt, Tags.WellFormed, Scanned.Prepend;
    if i == 0 {
      assert s[0..] == s;
      PrependNothing(Scan(t, false, s));
    } else {
      assert !t.MayStartAt(s[0..]) && s[0..] == s;
      ScanText(t, s);
      forall j | 0 <= j < i - 1 ensures !t.MayStartAt(s[1..][j..]) {
        assert s[1..][j..] == s[j + 1..];
      }
      ScanSkipsOutside(t, s[1..], i - 1);
      assert s[1..][i - 1..] == s[i..];
      assert [s[0]] + s[1..][..i - 1] == s[..i];
      PrependTwice(Scan(t, false, s[i..]), [s[0]], s[1..][..i - 1]);
    }
  }

  lemma {:induction false} ScanSkipsInside(t: Tags, s: string, i: nat)
    requires t.WellFormed() && i <= |s|
    requires forall j :: 0 <= j < i ==> !(t.end <= s[j..]) && !(s[j..] < t.end)
    ensures Scan(t, true, s) == Scan(t, true, s[i..])
    decreases i
  {
    if i > 0 {
      assert s[0..] == s;
      forall j | 0 <= j < i - 1 ensures !(t.end <= s[1..][j..]) && !(s[1..][j..] < t.end) {
        assert s[1..][j..] == s[j + 1..];
      }
      ScanSkipsInside(t, s[1..], i - 1);
      assert s[1..][i - 1..] == s[i..];
    }
  }

  /** Scanning can stop anywhere and resume from the held suffix. */
  lemma {:induction false} ScanResumes(t: Tags, inside: bool, a: string, b: string)
    requires t.WellFormed()
    ensures Scan(t, inside, a + b) == Resume(t, Scan(t, inside, a), b)
    decreases |a|
  {
    var first := Scan(t, inside, a);
    if a == "" || (!(t.end <= a) && if inside then a < t.end else !(t.start <= a) && (a < t.start || a < t.end)) {
      assert first == Scanned("", inside, a);
      PrependNothing(Scan(t, inside, a + b));
    } else if t.end <= a {
      assert (a + b)[|t.end|..] == a[|t.end|..] + b;
      ScanResumes(t, false, a[|t.end|..], b);
    } else if inside {
      Disagree(a, b, t.end);
      assert (a + b)[1..] == a[1..] + b;
      ScanResumes(t, true, a[1..], b);
    } else if t.start <= a {
      assert (a + b)[|t.start|..] == a[|t.start|..] + b;
      assert (a + b)[1] == t.start[1];
      ScanResumes(t, true, a[|t.start|..], b);
    } else {
      ScanResumesAfterText(t, a, b);
    }
  }

  function Resume(t: Tags, first: Scanned, b: string): Scanned
    requires t.WellFormed()
  {
    Scan(t, first.inside, first.held + b).Prepend(first.output)
  }

  lemma PrependNothing(r: Scanned)
    ensures r.Prepend("") == r
  {
    assert "" + r.output == r.output;
  }

  lemma PrependTwice(r: Scanned, a: string, b: string)
    ensures r.Prepend(b).Prepend(a) == r.Prepend(a + b)
  {
    assert a + (b + r.output) == a + b + r.output;
  }

  lemma {:induction false} ScanResumesAfterText(t: Tags, a: string, b: string)
    requires t.WellFormed() && a != "" && !t.MayStartAt(a)
    ensures Scan(t, false, a + b) == Resume(t, Scan(t, false, a), b)
    decreases |a|, 0
  {
    Disagree(a, b, t.start);
    Disagree(a, b, t.end);
    assert (a + b)[1..] == a[1..] + b;
    var rest := Scan(t, false, a[1..]);
    ScanResumes(t, false, a[1..], b);
    PrependTwice(Scan(t, rest.inside, rest.held + b), [a[0]], rest.output);
  }

  lemma HeldIsStable(t: Tags, inside: bool, held: string)
    requires t.WellFormed() && t.Holds(inside, held)
    ensures Scan(t, inside, held) == Scanned("", inside, held)
  {
    if |held| >= 2 {
      assert held[1] == if held < t.end then t.end[1] else t.start[1];
    }
  }

  /** Feeds the chunks one after another, each time from the suffix held before. */
  function Feed(t: Tags, inside: bool, held: string, chunks: seq<string>): Scanned
    requires t.WellFormed()
    decreases |chunks|
  {
    if chunks == [] then Scanned("", inside, held)
    else
      var first := Scan(t, inside, held + chunks[0]);
      Feed(t, first.inside, first.held, chunks[1..]).Prepend(first.output)
  }

  /** Every way of cutting a text into chunks gives what scanning the whole text gives. */
  lemma {:induction false} CuttingIsIrrelevant(t: Tags, inside: bool, held: string, chunks: seq<string>)
    requires t.WellFormed() && t.Holds(inside, held)
    ensures Feed(t, inside, held, chunks) == Scan(t, inside, held + Concat(chunks))
    decreases |chunks|
  {
    hide Scan, Tags.Holds, Tags.WellFormed;
    if chunks == [] {
      HeldIsStable(t, inside, held);
      assert held + Concat(chunks) == held;
    } else {
      var first := Scan(t, inside, held + chunks[0]);
      ScanHolds(t, inside, held + chunks[0]);
      CuttingIsIrrelevant(t, first.inside, first.held, chunks[1..]);
      ScanResumes(t, inside, held + chunks[0], Concat(chunks[1..]));
      assert held + Concat(chunks) == held + chunks[0] + Concat(chunks[1..]);
    }
  }

  // ----- what the scanner lets through

  /** `part` can be obtained from `whole` by deleting characters. */
  predicate IsSubsequence(part: string, whole: string) {
    part == "" ||
    (whole != "" && (IsSubsequence(part, whole[1..]) || (part[0] == whole[0] && IsSubsequence(part[1..], whole[1..]))))
  }

  lemma {:induction false} SubsequenceAfter(part: string, whole: string, n: nat)
    requires n <= |whole| && IsSubsequence(part, whole[n..])
    ensures IsSubsequence(part, whole)
    decreases n
  {
    if n > 0 {
      assert whole[1..][n - 1..] == whole[n..];
      SubsequenceAfter(part, whole[1..], n - 1);
    }
  }

  /**
    Tag-freedom holds for each emitted fragment only: two fragments separated by a removed
    tag may spell a tag once they are put together.
   */
  lemma FragmentsMaySpellATag(t: Tags, n: nat)
    requires t.WellFormed() && 0 < n < |t.start|
    ensures Scan(t, false, t.start[..n] + t.end + t.start[n..]) == Scanned(t.start, false, "")
  {
    var tail := t.start[n..];
    var rest := t.end + tail;
    var s := t.start[..n] + rest;
    assert t.start[..n] + t.end + t.start[n..] == s;
    assert s[n..] == rest && s[n] == t.start[0];
    forall j | 0 <= j < n ensures !t.MayStartAt(s[j..]) {
      CutStart(t, rest, n, j);
    }
    ScanSkipsOutside(t, s, n);
    assert rest[|t.end|..] == tail;
    ScanEndOfStart(t, n);
    assert Scan(t, false, rest) == Scan(t, false, tail);
    hide Scan;
    assert s[..n] + tail == t.start;
  }

  lemma ScanEndOfStart(t: Tags, n: nat)
    requires t.WellFormed() && 0 < n < |t.start|
    ensures Scan(t, false, t.start[n..]) == Scanned(t.start[n..], false, "")
  {
    var tail := t.start[n..];
    forall j | 0 <= j < |tail| ensures !t.MayStartAt(tail[j..]) {
      assert tail[j..][0] == t.start[n + j];
    }
    ScanSkipsOutside(t, tail, |tail|);
    assert tail[|tail|..] == "" && tail[..|tail|] + "" == tail;
  }

  lemma CutStart(t: Tags, rest: string, n: nat, j: nat)
    requires t.WellFormed() && j < n < |t.start| && t.end <= rest
    ensures !t.MayStartAt((t.start[..n] + rest)[j..])
  {
    var s := t.start[..n] + rest;
    assert s[n] == t.start[0];
    NoTagAcross(t, s, n, j);
    assert s[j..][n - j] == t.start[0];
    if j > 0 {
      assert s[j..][0] == t.start[j];
    } else {
      assert s[j..] == s;
      assert s[1] == if n > 1 then t.start[1] else t.start[0];
    }
  }

  // ----- when the whole output is free of tags

  /** The visible text, cut where tags were removed */
  function Pieces(t: Tags, inside: bool, s: string): (ps: seq<string>)
    requires t.WellFormed()
    ensures ps != []
    decreases |s|
  {
    if s == "" then [""]
    else if t.end <= s then [""] + Pieces(t, false, s[|t.end|..])
    else if inside then
      if s < t.end then [""] else Pieces(t, true, s[1..])
    else if t.start <= s then [""] + Pieces(t, true, s[|t.start|..])
    else if s < t.start || s < t.end then [""]
    else
      var rest := Pieces(t, false, s[1..]);
      [[s[0]] + rest[0]] + rest[1..]
  }

  lemma {:induction false} PiecesAreOutput(t: Tags, inside: bool, s: string)
    requires t.WellFormed()
    ensures Concat(Pieces(t, inside, s)) == Scan(t, inside, s).output
    decreases |s|
  {
    if s == "" {
    } else if t.end <= s {
      PiecesAreOutput(t, false, s[|t.end|..]);
      CutConcat(Pieces(t, false, s[|t.end|..]));
    } else if inside {
      PiecesAreOutput(t, true, s[1..]);
    } else if t.start <= s {
      PiecesAreOutput(t, true, s[|t.start|..]);
      CutConcat(Pieces(t, true, s[|t.start|..]));
    } else if !(s < t.start) && !(s < t.end) {
      PiecesAreOutput(t, false, s[1..]);
      var rest := Pieces(t, false, s[1..]);
      assert [[s[0]] + rest[0]] + rest[1..] == [[s[0]] + rest[0]] + rest[1..];
      assert ([[s[0]] + rest[0]] + rest[1..])[1..] == rest[1..];
      assert [s[0]] + rest[0] + Concat(rest[1..]) == [s[0]] + (rest[0] + Concat(rest[1..]));
    }
  }

  lemma CutConcat(ps: seq<string>)
    ensures Concat([""] + ps) == Concat(ps)
  {
    assert ([""] + ps)[1..] == ps;
  }

  /** The first piece is what precedes the first tag, and no tag begins in it. */
  lemma {:induction false} FirstPiece(t: Tags, inside: bool, s: string)
    requires t.WellFormed()
    ensures
      var p := Pieces(t, inside, s)[0];
      p <= s && forall j :: 0 <= j < |p| ==> !(t.start <= s[j..]) && !(t.end <= s[j..])
    decreases |s|
  {
    if s == "" || t.end <= s {
    } else if inside {
      InsideIsHidden(t, s);
    } else if !t.MayStartAt(s) {
      FirstPiece(t, false, s[1..]);
      var p := Pieces(t, false, s)[0];
      forall j | 0 <= j < |p| ensures !(t.start <= s[j..]) && !(t.end <= s[j..]) {
        assert if j == 0 then s[j..] == s else s[j..] == s[1..][j - 1..];
      }
    }
  }

  lemma {:induction false} InsideIsHidden(t: Tags, s: string)
    requires t.WellFormed()
    ensures Pieces(t, true, s)[0] == ""
    decreases |s|
  {
    if s != "" && !(t.end <= s) && !(s < t.end) {
      InsideIsHidden(t, s[1..]);
    }
  }

  lemma {:induction false} PiecesAreFree(t: Tags, inside: bool, s: string)
    requires t.WellFormed()
    ensures forall p :: p in Pieces(t, inside, s) ==> t.Free(p)
    decreases |s|
  {
    hide Tags.Free;
    NothingIsFree(t);
    if s == "" {
    } else if t.end <= s {
      PiecesAreFree(t, false, s[|t.end|..]);
    } else if inside {
      if !(s < t.end) {
        PiecesAreFree(t, true, s[1..]);
      }
    } else if t.start <= s {
      PiecesAreFree(t, true, s[|t.start|..]);
    } else if !(s < t.start) && !(s < t.end) {
      PiecesAreFree(t, false, s[1..]);
      FirstPiece(t, false, s);
      var p := Pieces(t, false, s)[0];
      PrefixIsTagFree(t, s, |p|);
      assert s[..|p|] == p;
    }
  }

  lemma NothingIsFree(t: Tags)
    requires t.WellFormed()
    ensures t.Free("")
  {
  }

  /** The visible text before a removed tag ends in the beginning of a tag. */
  ghost predicate OpensTag(tag: string, before: string, n: nat) {
    0 < n < |tag| && EndsWith(before, tag[..n])
  }

  /** The text before a removed tag and the text after it spell a tag together. */
  ghost predicate Spells(tag: string, before: string, after: string) {
    exists n: nat :: OpensTag(tag, before, n) && tag[n..] <= after
  }

  /** The pieces spell a tag across the tag that was removed before piece `k`. */
  ghost predicate SpelledAt(tag: string, ps: seq<string>, k: int) {
    0 < k < |ps| && Spells(tag, Concat(ps[..k]), Concat(ps[k..]))
  }

  /** At no removed tag does the visible text spell a tag. */
  ghost predicate SpellsNothing(t: Tags, ps: seq<string>) {
    forall k :: !SpelledAt(t.start, ps, k) && !SpelledAt(t.end, ps, k)
  }

  /** At no removed tag does the visible text so far end in the beginning of a tag. */
  ghost predicate OpensNothing(t: Tags, ps: seq<string>) {
    forall k, n: nat :: 0 < k < |ps| ==>
      !OpensTag(t.start, Concat(ps[..k]), n) && !OpensTag(t.end, Concat(ps[..k]), n)
  }

  lemma SpelledIsContained(tag: string, before: string, after: string)
    requires Spells(tag, before, after)
    ensures Contains(before + after, tag)
  {
    var n: nat :| OpensTag(tag, before, n) && tag[n..] <= after;
    var whole, i := before + after, |before| - n;
    assert before[i..] == tag[..n];
    assert whole[i..] == tag[..n] + after;
    assert tag == tag[..n] + tag[n..] <= whole[i..];
  }

  lemma ContainedIsSomewhere(tag: string, before: string, after: string)
    requires Contains(before + after, tag)
    ensures Contains(before, tag) || Contains(after, tag) || Spells(tag, before, after)
  {
    var whole := before + after;
    var i :| 0 <= i <= |whole| && tag <= whole[i..];
    if i >= |before| {
      assert whole[i..] == after[i - |before|..];
    } else if i + |tag| <= |before| {
      assert tag <= before[i..] by {
        assert whole[i..][..|tag|] == before[i..][..|tag|];
      }
    } else {
      var n := |before| - i;
      assert whole[i..] == before[i..] + after;
      assert before[i..] == tag[..n];
      assert whole[i..][n..] == after && whole[i..][..|tag|] == tag;
      assert tag[n..] == whole[i..][n..|tag|] == after[..|tag| - n];
      assert OpensTag(tag, before, n);
    }
  }

  lemma SpellsMore(tag: string, before: string, after: string, more: string)
    requires Spells(tag, before, after)
    ensures Spells(tag, before, after + more)
  {
    var n: nat :| OpensTag(tag, before, n) && tag[n..] <= after;
    assert after <= after + more;
  }

  lemma ContainsMore(s: string, more: string, tag: string)
    requires Contains(s, tag)
    ensures Contains(s + more, tag)
  {
    var i :| 0 <= i <= |s| && tag <= s[i..];
    assert (s + more)[i..] == s[i..] + more;
  }

  lemma SpelledAtIsContained(tag: string, ps: seq<string>, k: int)
    requires SpelledAt(tag, ps, k)
    ensures Contains(Concat(ps), tag)
  {
    hide Contains, Spells, Concat;
    SpelledIsContained(tag, Concat(ps[..k]), Concat(ps[k..]));
    ConcatOfConcat(ps[..k], ps[k..]);
    assert ps[..k] + ps[k..] == ps;
  }

  lemma SpelledAtStays(tag: string, ps: seq<string>, last: string, k: int)
    requires SpelledAt(tag, ps, k)
    ensures SpelledAt(tag, ps + [last], k)
  {
    hide Spells, Concat;
    assert (ps + [last])[..k] == ps[..k] && (ps + [last])[k..] == ps[k..] + [last];
    ConcatAppend(ps[k..], last);
    SpellsMore(tag, Concat(ps[..k]), Concat(ps[k..]), last);
  }

  /** Pieces that are free of a tag contain it together only by spelling it at a cut. */
  lemma {:induction false} ContainedIsSpelled(tag: string, ps: seq<string>) returns (k: int)
    requires tag != "" && (forall p :: p in ps ==> !Contains(p, tag)) && Contains(Concat(ps), tag)
    ensures SpelledAt(tag, ps, k)
    decreases |ps|
  {
    assert ps != [] by {
      NotInNothing(tag);
    }
    hide Contains, Spells, Concat, SpelledAt;
    var n := |ps| - 1;
    var qs, p := ps[..n], ps[n];
    assert ps == qs + [p];
    ConcatAppend(qs, p);
    ContainedIsSomewhere(tag, Concat(qs), p);
    if Contains(Concat(qs), tag) {
      k := ContainedIsSpelled(tag, qs);
      SpelledAtStays(tag, qs, p, k);
    } else {
      k := n;
      SpelledAtLast(tag, qs, p);
    }
  }

  lemma SpelledAtLast(tag: string, qs: seq<string>, p: string)
    requires Spells(tag, Concat(qs), p)
    ensures SpelledAt(tag, qs + [p], |qs|)
  {
    assert (qs + [p])[..|qs|] == qs && (qs + [p])[|qs|..] == [p] && [p][1..] == [];
    assert Concat([p]) == p;
    if qs == [] {
      OpensNothingBefore(tag, p);
      assert false;
    }
  }

  lemma NotInNothing(tag: string)
    requires tag != ""
    ensures !Contains("", tag)
  {
  }

  lemma OpensNothingBefore(tag: string, after: string)
    ensures !Spells(tag, "", after)
  {
  }

  /** What `flush` releases is the beginning of a tag, which neither is one nor completes one. */
  lemma HeldSpellsNothing(t: Tags, before: string, held: string)
    requires t.WellFormed() && t.Free(before) && t.Holds(false, held)
    ensures t.Free(before + held)
  {
    HeldIsTagFree(t, held);
    HeldCompletesNothing(t, t.start, before, held);
    HeldCompletesNothing(t, t.end, before, held);
    hide Contains, Spells, Tags.Holds;
    if Contains(before + held, t.start) {
      ContainedIsSomewhere(t.start, before, held);
    }
    if Contains(before + held, t.end) {
      ContainedIsSomewhere(t.end, before, held);
    }
  }

  lemma HeldCompletesNothing(t: Tags, tag: string, before: string, held: string)
    requires t.WellFormed() && (tag == t.start || tag == t.end) && t.Holds(false, held)
    ensures !Spells(tag, before, held)
  {
    forall n: nat | OpensTag(tag, before, n)
      ensures !(tag[n..] <= held)
    {
      assert tag[n..][0] == tag[n] != t.start[0];
    }
  }

  /**
    The whole streamed text, with what `flush` releases, is free of tags exactly when at no
    removed tag the visible text before it and the visible text after it spell a tag.
   */
  lemma TagFreeExactly(t: Tags, inside: bool, s: string)
    requires t.WellFormed()
    ensures t.Free(Scan(t, inside, s).output) <==> SpellsNothing(t, Pieces(t, inside, s))
    ensures t.Free(StreamText(t, inside, s)) <==> SpellsNothing(t, Pieces(t, inside, s))
  {
    var ps, r := Pieces(t, inside, s), Scan(t, inside, s);
    PiecesAreOutput(t, inside, s);
    PiecesAreFree(t, inside, s);
    hide Scan, Pieces, Contains, SpelledAt;
    if !t.Free(r.output) {
      var _ := ContainedIsSpelled(if Contains(r.output, t.start) then t.start else t.end, ps);
    }
    forall k | SpelledAt(t.start, ps, k) || SpelledAt(t.end, ps, k)
      ensures !t.Free(r.output)
    {
      SpelledAtIsContained(if SpelledAt(t.start, ps, k) then t.start else t.end, ps, k);
    }
    ScanHolds(t, inside, s);
    if t.Free(r.output) {
      if FlushTail(t, r) == "" {
        assert r.output + "" == r.output;
      } else {
        HeldSpellsNothing(t, r.output, r.held);
      }
    } else {
      if Contains(r.output, t.start) {
        ContainsMore(r.output, FlushTail(t, r), t.start);
      } else {
        ContainsMore(r.output, FlushTail(t, r), t.end);
      }
    }
  }

  /** It is enough that at no removed tag the visible text so far ends in the beginning of a tag. */
  lemma TagFreeUnlessOpened(t: Tags, inside: bool, s: string)
    requires t.WellFormed() && OpensNothing(t, Pieces(t, inside, s))
    ensures t.Free(StreamText(t, inside, s))
  {
    TagFreeExactly(t, inside, s);
    hide Pieces, OpensTag, StreamText;
  }

  // ----- the streaming filter

  /** The text that `flush` still releases in a final state */
  function FlushTail(t: Tags, end: Scanned): string {
    if end.inside || (end.held < t.end && |end.held| >= 2) then "" else end.held
  }

  /** The visible text of a stream that starts in the given mode and ends with `flush` */
  function StreamText(t: Tags, inside: bool, s: string): string
    requires t.WellFormed()
  {
    Scan(t, inside, s).output + FlushTail(t, Scan(t, inside, s))
  }

  /** The filter only deletes: it neither invents nor reorders characters, before the flush and with it. */
  lemma OutputIsSubsequence(t: Tags, inside: bool, s: string)
    requires t.WellFormed()
    ensures IsSubsequence(Scan(t, inside, s).output, s) && IsSubsequence(StreamText(t, inside, s), s)
  {
    StreamIsSubsequence(t, inside, s);
    hide Scan, FlushTail, IsSubsequence;
    PrefixOfSubsequence(Scan(t, inside, s).output, FlushTail(t, Scan(t, inside, s)), s);
  }

  lemma {:induction false} StreamIsSubsequence(t: Tags, inside: bool, s: string)
    requires t.WellFormed()
    ensures IsSubsequence(StreamText(t, inside, s), s)
    decreases |s|
  {
    if s == "" {
    } else if t.end <= s {
      StreamIsSubsequence(t, false, s[|t.end|..]);
      SubsequenceAfter(StreamText(t, inside, s), s, |t.end|);
    } else if inside {
      StreamIsSubsequence(t, true, s[1..]);
    } else if t.start <= s {
      StreamIsSubsequence(t, true, s[|t.start|..]);
      SubsequenceAfter(StreamText(t, inside, s), s, |t.start|);
    } else if t.MayStartAt(s) {
      assert StreamText(t, false, s) == FlushTail(t, Scan(t, inside, s));
      IsSubsequenceOfItself(s);
    } else {
      StreamIsSubsequence(t, false, s[1..]);
      assert StreamText(t, false, s)[1..] == StreamText(t, false, s[1..]);
    }
  }

  lemma {:induction false} PrefixOfSubsequence(part: string, more: string, whole: string)
    requires IsSubsequence(part + more, whole)
    ensures IsSubsequence(part, whole)
    decreases |whole|
  {
    if part != "" {
      assert (part + more)[1..] == part[1..] + more;
      if IsSubsequence(part + more, whole[1..]) {
        PrefixOfSubsequence(part, more, whole[1..]);
      } else {
        PrefixOfSubsequence(part[1..], more, whole[1..]);
      }
    }
  }

  lemma {:induction false} IsSubsequenceOfItself(s: string)
    ensures IsSubsequence(s, s)
  {
    if s != "" {
      IsSubsequenceOfItself(s[1..]);
    }
  }

  ghost predicate IsLongestPartial(text: string, tag: string, length: nat) {
    && length < |tag| && EndsWith(text, tag[..length])
    && forall n :: length < n < |tag| ==> !EndsWith(text, tag[..n])
  }

  method FindPartialTagLength(text: string, tag: string) returns (length: nat)
    requires tag != ""
    ensures IsLongestPartial(text, tag, length)
  {
    for n := |tag| downto 1
      invariant forall m :: n <= m < |tag| ==> !EndsWith(text, tag[..m])
    {
      if EndsWith(text, tag[..n]) {
        return n;
      }
    }
    return 0;
  }

  class ThinkTagStripper {
    const tags: Tags
    var buffer: string
    var inThinkTag: bool

    ghost predicate Valid()
      reads this
    {
      tags.WellFormed() && tags.Holds(inThinkTag, buffer)
    }

    constructor ()
      ensures Valid() && tags == THINK && buffer == "" && !inThinkTag
    {
      ThinkIsWellFormed();
      tags, buffer, inThinkTag := THINK, "", false;
    }

    method Reset()
      requires Valid()
      modifies this
      ensures Valid() && buffer == "" && !inThinkTag
    {
      buffer, inThinkTag := "", false;
    }

    /**
      `fragments` are the arguments of the successive `on_output` calls. Together with the
      new state they are what the scanner makes of everything received so far.
     */
    method Process(text: string) returns (emitted: bool, fragments: seq<string>)
      requires Valid()
      modifies this
      ensures Valid()
      ensures Scanned(Concat(fragments), inThinkTag, buffer) == Scan(tags, old(inThinkTag), old(buffer) + text)
      ensures |buffer| < |tags.end| || |buffer| < |tags.start|
      ensures emitted <==> fragments != []
      ensures AllClean(tags, fragments)
    {
      hide Scan, Concat, Tags.WellFormed, Tags.Free, Scanned.Prepend, AllClean;
      buffer := buffer + text;
      emitted, fragments := false, [];
      ghost var whole := Scan(tags, inThinkTag, buffer);
      NothingEmitted(tags, whole);
      while buffer != ""
        invariant tags.WellFormed() && "" < tags.end
        invariant whole == Scan(tags, inThinkTag, buffer).Prepend(Concat(fragments))
        invariant emitted <==> fragments != []
        invariant AllClean(tags, fragments)
        decreases |buffer|
      {
        ghost var inside, before := inThinkTag, buffer;
        var stop, fragment := Advance();
        EmitStep(tags, fragments, fragment, Scan(tags, inThinkTag, buffer));
        if fragment != "" {
          fragments, emitted := fragments + [fragment], true;
        }
        if stop {
          break;
        }
      }
      HeldIsStable(tags, inThinkTag, buffer);
      AllEmitted(fragments, inThinkTag, buffer);
    }

    /** One pass of the loop in `process`: the text handed on, if any, and whether the loop ends there */
    method Advance() returns (stop: bool, fragment: string)
      requires tags.WellFormed() && buffer != ""
      modifies this
      ensures Scan(tags, old(inThinkTag), old(buffer)) == Scan(tags, inThinkTag, buffer).Prepend(fragment)
      ensures tags.Free(fragment)
      ensures stop ==> tags.Holds(inThinkTag, buffer)
      ensures !stop ==> |buffer| < |old(buffer)|
    {
      hide Scan, Find, Contains, IsFirst, EndsWith, IsLongestPartial, Scanned.Prepend, Tags.Free;
      stop, fragment := false, "";
      PrependNothing(Scan(tags, inThinkTag, buffer));
      HeldIsTagFree(tags, "");
      if !inThinkTag {
        var startIdx := Find(buffer, tags.start);
        var endIdx := Find(buffer, tags.end);
        if endIdx != -1 && (startIdx == -1 || endIdx < startIdx) {
          VisibleBeforeEnd(tags, buffer, startIdx, endIdx);
          fragment := buffer[..endIdx];
          buffer := buffer[endIdx + |tags.end|..];
        } else if startIdx != -1 {
          VisibleBeforeStart(tags, buffer, startIdx, endIdx);
          fragment := buffer[..startIdx];
          inThinkTag := true;
          buffer := buffer[startIdx + |tags.start|..];
        } else {
          var startPartial := FindPartialTagLength(buffer, tags.start);
          var endPartial := FindPartialTagLength(buffer, tags.end);
          var partialLength := if startPartial >= endPartial then startPartial else endPartial;
          HoldsLongestPartial(tags, buffer, startPartial, endPartial);
          fragment := buffer[..|buffer| - partialLength];
          if partialLength != 0 {
            buffer := buffer[|buffer| - partialLength..];
            HeldIsStable(tags, false, buffer);
            stop := true;
          } else {
            buffer := "";
            HeldIsStable(tags, false, buffer);
          }
        }
      } else {
        var endIdx := Find(buffer, tags.end);
        if endIdx != -1 {
          HiddenBeforeEnd(tags, buffer, endIdx);
          inThinkTag := false;
          buffer := buffer[endIdx + |tags.end|..];
        } else {
          var partialLength := FindPartialTagLength(buffer, tags.end);
          HidesLongestPartial(tags, buffer, partialLength);
          buffer := if partialLength != 0 then buffer[|buffer| - partialLength..] else "";
          stop := true;
        }
        PrependNothing(Scan(tags, inThinkTag, buffer));
      }
    }

    /** Ends a stream: releases a held suffix unless it is hidden or the beginning of an end tag. */
    method Flush() returns (fragments: seq<string>)
      requires Valid()
      modifies this`buffer
      ensures Valid() && inThinkTag == old(inThinkTag)
      ensures buffer == if inThinkTag then old(buffer) else ""
      ensures Concat(fragments) == FlushTail(tags, Scanned("", inThinkTag, old(buffer)))
      ensures AllClean(tags, fragments)
    {
      fragments := [];
      if buffer != "" && !inThinkTag {
        var partialLength := FindPartialTagLength(buffer, tags.end);
        PartialOfHeld(tags, buffer, partialLength);
        if partialLength >= 2 {
          buffer := "";
          return;
        }
        HeldIsTagFree(tags, buffer);
        fragments := [buffer];
        assert fragments[1..] == [];
        buffer := "";
      }
    }
  }

  /** A whole stream: every chunk through `Process`, then `Flush`. */
  method FilterStream(chunks: seq<string>) returns (output: string)
    ensures THINK.WellFormed()
    ensures output == StreamText(THINK, false, Concat(chunks))
  {
    hide Scan, Concat;
    ThinkIsWellFormed();
    var stripper := new ThinkTagStripper();
    output := "";
    assert "" + Concat(chunks) == Concat(chunks);
    assert THINK.Holds(false, "");
    CuttingIsIrrelevant(THINK, false, "", chunks);
    ghost var whole := Feed(THINK, false, "", chunks);
    PrependNothing(whole);
    for i := 0 to |chunks|
      invariant stripper.Valid() && fresh(stripper) && stripper.tags == THINK
      invariant
        var rest := if i == 0 then chunks else chunks[i..];
        whole == Feed(THINK, stripper.inThinkTag, stripper.buffer, rest).Prepend(output)
    {
      ghost var inside, held := stripper.inThinkTag, stripper.buffer;
      var _, fragments := stripper.Process(chunks[i]);
      assert chunks[i..][1..] == chunks[i + 1..];
      assert chunks[0..] == chunks;
      PrependTwice(Feed(THINK, stripper.inThinkTag, stripper.buffer, chunks[i + 1..]), output, Concat(fragments));
      output := output + Concat(fragments);
    }
    assert whole == Scanned(output, stripper.inThinkTag, stripper.buffer) by {
      assert output + "" == output;
    }
    var tail := stripper.Flush();
    output := output + Concat(tail);
  }

  // ----- lemmas for the branches of `Process`

  lemma PrefixIsTagFree(t: Tags, s: string, n: nat)
    requires t.WellFormed() && n <= |s|
    requires forall j :: 0 <= j < n ==> !(t.start <= s[j..]) && !(t.end <= s[j..])
    ensures t.Free(s[..n])
  {
    forall i | 0 <= i <= n ensures !(t.start <= s[..n][i..]) && !(t.end <= s[..n][i..]) {
      if i < n {
        assert s[..n][i..] <= s[i..];
      }
    }
  }

  /** No fragment handed to the callback is empty or contains a tag. */
  predicate AllClean(t: Tags, fragments: seq<string>) {
    forall f :: f in fragments ==> f != "" && t.Free(f)
  }

  /** Handing a fragment on moves the same text from the scanner's result to the output. */
  lemma EmitStep(t: Tags, fragments: seq<string>, fragment: string, rest: Scanned)
    ensures rest.Prepend(fragment).Prepend(Concat(fragments)) == rest.Prepend(Concat(fragments + [fragment]))
    ensures fragment == "" ==> rest.Prepend(fragment) == rest
    ensures AllClean(t, fragments) && fragment != "" && t.Free(fragment) ==> AllClean(t, fragments + [fragment])
  {
    ConcatAppend(fragments, fragment);
    PrependTwice(rest, Concat(fragments), fragment);
    PrependNothing(rest);
  }

  lemma NothingEmitted(t: Tags, rest: Scanned)
    requires t.WellFormed()
    ensures rest.Prepend(Concat([])) == rest && AllClean(t, []) && "" < t.end
  {
    PrependNothing(rest);
  }

  lemma AllEmitted(fragments: seq<string>, inside: bool, held: string)
    ensures Scanned("", inside, held).Prepend(Concat(fragments)) == Scanned(Concat(fragments), inside, held)
  {
    assert Concat(fragments) + "" == Concat(fragments);
  }

  lemma VisibleBefore(t: Tags, s: string, i: nat)
    requires t.WellFormed() && i < |s| && s[i] == t.start[0]
    requires forall j :: 0 <= j < i ==> !(t.start <= s[j..]) && !(t.end <= s[j..])
    ensures Scan(t, false, s) == Scan(t, false, s[i..]).Prepend(s[..i])
    ensures t.Free(s[..i])
  {
    forall j | 0 <= j < i ensures !t.MayStartAt(s[j..]) {
      NoTagAcross(t, s, i, j);
    }
    ScanSkipsOutside(t, s, i);
    PrefixIsTagFree(t, s, i);
  }

  lemma VisibleBeforeEnd(t: Tags, s: string, startIdx: int, endIdx: int)
    requires t.WellFormed() && IsFirst(s, t.start, startIdx) && IsFirst(s, t.end, endIdx)
    requires endIdx != -1 && (startIdx == -1 || endIdx < startIdx)
    ensures endIdx + |t.end| <= |s| && t.Free(s[..endIdx])
    ensures Scan(t, false, s) == Scan(t, false, s[endIdx + |t.end|..]).Prepend(s[..endIdx])
  {
    assert s[endIdx] == s[endIdx..][0];
    VisibleBefore(t, s, endIdx);
    assert s[endIdx..][|t.end|..] == s[endIdx + |t.end|..];
  }

  lemma VisibleBeforeStart(t: Tags, s: string, startIdx: int, endIdx: int)
    requires t.WellFormed() && IsFirst(s, t.start, startIdx) && IsFirst(s, t.end, endIdx)
    requires startIdx != -1 && (endIdx == -1 || startIdx <= endIdx)
    ensures startIdx + |t.start| <= |s| && t.Free(s[..startIdx])
    ensures Scan(t, false, s) == Scan(t, true, s[startIdx + |t.start|..]).Prepend(s[..startIdx])
  {
    assert s[startIdx] == s[startIdx..][0] && s[startIdx..][1] == t.start[1];
    VisibleBefore(t, s, startIdx);
    assert s[startIdx..][|t.start|..] == s[startIdx + |t.start|..];
  }

  lemma HiddenBeforeEnd(t: Tags, s: string, endIdx: int)
    requires t.WellFormed() && IsFirst(s, t.end, endIdx) && endIdx != -1
    ensures endIdx + |t.end| <= |s|
    ensures Scan(t, true, s) == Scan(t, false, s[endIdx + |t.end|..])
  {
    assert s[endIdx] == s[endIdx..][0];
    forall j | 0 <= j < endIdx ensures !(s[j..] < t.end) {
      NoTagAcross(t, s, endIdx, j);
    }
    ScanSkipsInside(t, s, endIdx);
    assert s[endIdx..][|t.end|..] == s[endIdx + |t.end|..];
  }

  lemma LongerThanPartial(s: string, tag: string, partial: nat, j: nat)
    requires j < |s| - partial && IsLongestPartial(s, tag, partial)
    ensures !(s[j..] < tag)
  {
    var n := |s| - j;
    if n < |tag| {
      assert !EndsWith(s, tag[..n]);
      assert s[|s| - n..] == s[j..];
    }
  }

  lemma NoOccurrence(s: string, tag: string, j: nat)
    requires !Contains(s, tag) && j <= |s|
    ensures !(tag <= s[j..])
  {
  }

  lemma HoldsLongestPartial(t: Tags, s: string, startPartial: nat, endPartial: nat)
    requires t.WellFormed() && IsFirst(s, t.start, -1) && IsFirst(s, t.end, -1)
    requires IsLongestPartial(s, t.start, startPartial) && IsLongestPartial(s, t.end, endPartial)
    ensures
      var p := |s| - if startPartial >= endPartial then startPartial else endPartial;
      && 0 <= p <= |s|
      && t.Holds(false, s[p..]) && t.Free(s[..p])
      && Scan(t, false, s) == Scanned("", false, s[p..]).Prepend(s[..p])
  {
    var p := |s| - if startPartial >= endPartial then startPartial else endPartial;
    forall j | 0 <= j < p ensures !t.MayStartAt(s[j..]) {
      LongerThanPartial(s, t.start, startPartial, j);
      LongerThanPartial(s, t.end, endPartial, j);
      NoOccurrence(s, t.start, j);
      NoOccurrence(s, t.end, j);
    }
    ScanSkipsOutside(t, s, p);
    HeldIsStable(t, false, s[p..]);
    PrefixIsTagFree(t, s, p);
  }

  lemma HidesLongestPartial(t: Tags, s: string, partial: nat)
    requires t.WellFormed() && IsFirst(s, t.end, -1) && IsLongestPartial(s, t.end, partial)
    ensures partial <= |s| && t.Holds(true, s[|s| - partial..])
    ensures Scan(t, true, s) == Scan(t, true, s[|s| - partial..])
  {
    forall j | 0 <= j < |s| - partial ensures !(t.end <= s[j..]) && !(s[j..] < t.end) {
      LongerThanPartial(s, t.end, partial, j);
      NoOccurrence(s, t.end, j);
    }
    ScanSkipsInside(t, s, |s| - partial);
  }

  lemma HeldIsTagFree(t: Tags, held: string)
    requires t.WellFormed() && t.Holds(false, held)
    ensures t.Free(held)
  {
    forall i | 0 <= i <= |held| ensures !(t.start <= held[i..]) && !(t.end <= held[i..]) {
      if 0 < i < |held| {
        assert held[i..][0] == held[i] != t.start[0];
      } else if i == 0 {
        assert held[0..] == held;
        if |held| >= 2 {
          assert held[1] == if held < t.end then t.end[1] else t.start[1];
        }
      }
    }
  }

  /** In a held suffix the only partial end tag of two or more characters is the suffix itself. */
  lemma PartialOfHeld(t: Tags, held: string, partial: nat)
    requires t.WellFormed() && held != "" && t.Holds(false, held) && IsLongestPartial(held, t.end, partial)
    ensures partial >= 2 <==> held < t.end && |held| >= 2
  {
    if held < t.end {
      assert held == t.end[..|held|];
      assert EndsWith(held, t.end[..|held|]);
    }
    if partial >= 2 {
      var i := |held| - partial;
      assert held[i..][0] == t.end[0];
      assert i == 0;
      assert held[0..] == held == t.end[..partial];
    }
  }

  // ----- the filter used without streaming

  /** What follows the shortest match of `.*?(?:</think>|$)`; `$` also matches before a final newline */
  function DropThought(t: Tags, s: string): (r: string)
    ensures |r| <= |s|
  {
    if t.end <= s then s[|t.end|..]
    else if s == "" || s == "\n" then s
    else DropThought(t, s[1..])
  }

  /** `re.sub(r"<think>.*?(?:</think>|$)", "", text, flags=re.DOTALL)` */
  function RegexStrip(t: Tags, s: string): string
    requires t.WellFormed()
    decreases |s|
  {
    if s == "" then ""
    else if t.start <= s then RegexStrip(t, DropThought(t, s[|t.start|..]))
    else [s[0]] + RegexStrip(t, s[1..])
  }

  /** The regular-expression filter, resumed inside or outside a thinking block */
  function RegexText(t: Tags, inside: bool, s: string): string
    requires t.WellFormed()
  {
    RegexStrip(t, if inside then DropThought(t, s) else s)
  }

  /** How many characters belong to end tags that occur while no thinking block is open */
  function OrphanLength(t: Tags, inside: bool, s: string): nat
    requires t.WellFormed()
    decreases |s|
  {
    if s == "" then 0
    else if t.end <= s then (if inside then 0 else |t.end|) + OrphanLength(t, false, s[|t.end|..])
    else if !inside && t.start <= s then OrphanLength(t, true, s[|t.start|..])
    else OrphanLength(t, inside, s[1..])
  }

  /** How many characters `flush` discards in a final state outside a thinking block */
  function Discarded(t: Tags, end: Scanned): nat {
    if !end.inside && end.held < t.end && |end.held| >= 2 then |end.held| else 0
  }

  /** The regular expression leaves a held suffix alone. */
  lemma {:induction false} RegexKeepsHeld(t: Tags, s: string, i: nat)
    requires t.WellFormed() && t.Holds(false, s) && i <= |s|
    ensures RegexStrip(t, s[i..]) == s[i..] && OrphanLength(t, false, s[i..]) == 0
    decreases |s| - i
  {
    if i < |s| {
      assert s[i..][1..] == s[i + 1..];
      RegexKeepsHeld(t, s, i + 1);
      NoTagInHeld(t, s, i);
    }
  }

  lemma NoTagInHeld(t: Tags, s: string, i: nat)
    requires t.WellFormed() && t.Holds(false, s) && i < |s|
    ensures !(t.start <= s[i..]) && !(t.end <= s[i..])
  {
    HeldIsTagFree(t, s);
    NoOccurrence(s, t.start, i);
    NoOccurrence(s, t.end, i);
  }

  lemma {:induction false} HeldInsideIsDropped(t: Tags, s: string, i: nat)
    requires t.WellFormed() && s < t.end && i <= |s|
    ensures DropThought(t, s[i..]) == "" && OrphanLength(t, true, s[i..]) == 0
    decreases |s| - i
  {
    if i < |s| {
      assert s[i..][0] == t.end[i] != '\n';
      assert s[i..][1..] == s[i + 1..];
      NoTagInHeld(t, s, i);
      HeldInsideIsDropped(t, s, i + 1);
    }
  }

  /** The regular expression keeps an orphan end tag in full. */
  lemma RegexKeeps(t: Tags, s: string)
    requires t.WellFormed() && s != "" && !(t.start <= s)
    ensures RegexStrip(t, s) == [s[0]] + RegexStrip(t, s[1..])
  {
  }

  lemma {:induction false} RegexKeepsEndTag(t: Tags, s: string, i: nat)
    requires t.WellFormed() && t.end <= s && i <= |t.end|
    ensures RegexStrip(t, s[i..]) == t.end[i..] + RegexStrip(t, s[|t.end|..])
    decreases |t.end| - i
  {
    hide RegexStrip;
    if i < |t.end| {
      assert s[i..][0] == t.end[i];
      assert i == 0 ==> s[i..][1] == t.end[1];
      assert s[i..][1..] == s[i + 1..];
      RegexKeeps(t, s[i..]);
      RegexKeepsEndTag(t, s, i + 1);
      assert [t.end[i]] + t.end[i + 1..] == t.end[i..];
    }
  }

  lemma {:induction false} PrintableIsInk(s: string)
    requires forall k :: 0 <= k < |s| ==> '!' <= s[k] <= '~'
    ensures InkCount(s) == |s|
  {
    if s != "" {
      PrintableIsInk(s[1..]);
    }
  }

  /** The two filters differ in ink by exactly the orphan end tags and the tail dropped at the end. */
  lemma {:induction false} InkDifference(t: Tags, inside: bool, s: string)
    requires t.WellFormed()
    ensures InkCount(RegexText(t, inside, s))
         == InkCount(StreamText(t, inside, s)) + OrphanLength(t, inside, s) + Discarded(t, Scan(t, inside, s))
    decreases |s|
  {
    if s == "" {
    } else if t.end <= s {
      InkDifference(t, false, s[|t.end|..]);
      if !inside {
        EndTagIsInk(t, s);
      }
    } else if inside {
      InkDifferenceInside(t, s);
    } else if t.start <= s {
      InkDifference(t, true, s[|t.start|..]);
    } else if s < t.start || s < t.end {
      InkDifferenceHeld(t, s);
    } else {
      InkDifference(t, false, s[1..]);
      TextStep(t, s);
    }
  }

  lemma {:induction false} InkDifferenceInside(t: Tags, s: string)
    requires t.WellFormed() && s != "" && !(t.end <= s)
    ensures InkCount(RegexText(t, true, s))
         == InkCount(StreamText(t, true, s)) + OrphanLength(t, true, s) + Discarded(t, Scan(t, true, s))
    decreases |s|, 0
  {
    if s < t.end {
      HeldInsideIsDropped(t, s, 0);
    } else {
      InkDifference(t, true, s[1..]);
    }
  }

  lemma InkDifferenceHeld(t: Tags, s: string)
    requires t.WellFormed() && t.Holds(false, s)
    ensures InkCount(RegexText(t, false, s))
         == InkCount(StreamText(t, false, s)) + OrphanLength(t, false, s) + Discarded(t, Scan(t, false, s))
  {
    HeldTexts(t, s);
    hide *;
    PrintableIsInk(s);
    PrintableIsInk("");
  }

  /** A held suffix is kept by the regular expression, and released or dropped whole by the stream. */
  lemma HeldTexts(t: Tags, s: string)
    requires t.WellFormed() && t.Holds(false, s)
    ensures RegexText(t, false, s) == s && OrphanLength(t, false, s) == 0
    ensures var dropped := Discarded(t, Scan(t, false, s));
            StreamText(t, false, s) == (if dropped == 0 then s else "") && (dropped == 0 || dropped == |s|)
    ensures forall k :: 0 <= k < |s| ==> '!' <= s[k] <= '~'
  {
    hide RegexStrip, Scan, OrphanLength;
    RegexKeepsHeld(t, s, 0);
    HeldIsStable(t, false, s);
    assert s[0..] == s && "" + s == s && "" + "" == "";
  }

  lemma EndTagIsInk(t: Tags, s: string)
    requires t.WellFormed() && t.end <= s
    ensures InkCount(RegexStrip(t, s)) == |t.end| + InkCount(RegexStrip(t, s[|t.end|..]))
  {
    RegexKeepsEndTag(t, s, 0);
    InkCountConcat(t.end, RegexStrip(t, s[|t.end|..]));
    PrintableIsInk(t.end);
  }

  /** Ordinary text passes both filters. */
  lemma TextStep(t: Tags, s: string)
    requires t.WellFormed() && s != "" && !t.MayStartAt(s)
    ensures StreamText(t, false, s) == [s[0]] + StreamText(t, false, s[1..])
    ensures RegexStrip(t, s) == [s[0]] + RegexStrip(t, s[1..])
    ensures OrphanLength(t, false, s) == OrphanLength(t, false, s[1..])
    ensures Discarded(t, Scan(t, false, s)) == Discarded(t, Scan(t, false, s[1..]))
  {
  }

  lemma {:induction false} SameUpToNewline(t: Tags, inside: bool, s: string)
    requires t.WellFormed()
    requires OrphanLength(t, inside, s) == 0 && Discarded(t, Scan(t, inside, s)) == 0
    ensures
      || RegexText(t, inside, s) == StreamText(t, inside, s)
      || RegexText(t, inside, s) == StreamText(t, inside, s) + "\n"
    decreases |s|
  {
    if s == "" {
    } else if t.end <= s {
      SameUpToNewline(t, false, s[|t.end|..]);
    } else if inside {
      if s < t.end {
        HeldInsideIsDropped(t, s, 0);
      } else if s != "\n" {
        SameUpToNewline(t, true, s[1..]);
      }
    } else if t.start <= s {
      SameUpToNewline(t, true, s[|t.start|..]);
    } else if s < t.start || s < t.end {
      RegexKeepsHeld(t, s, 0);
    } else {
      SameUpToNewline(t, false, s[1..]);
      TextStep(t, s);
    }
  }

  /**
    The streamed reply and the reply filtered by the regular expression agree up to
    surrounding whitespace exactly when no end tag is orphaned and `flush` drops nothing.
   */
  lemma StreamingAgreesWithRegex(t: Tags, s: string)
    requires t.WellFormed()
    ensures Strip(RegexStrip(t, s)) == Strip(StreamText(t, false, s))
       <==> OrphanLength(t, false, s) == 0 && Discarded(t, Scan(t, false, s)) == 0
  {
    hide Strip, Scan, StreamText, RegexStrip, InkCount, OrphanLength, Tags.WellFormed, Discarded;
    if OrphanLength(t, false, s) == 0 && Discarded(t, Scan(t, false, s)) == 0 {
      SameUpToNewline(t, false, s);
      StripIgnoresTrailingSpace(StreamText(t, false, s), '\n');
    }
    if Strip(RegexStrip(t, s)) == Strip(StreamText(t, false, s)) {
      InkDifference(t, false, s);
      StripKeepsInk(RegexStrip(t, s));
      StripKeepsInk(StreamText(t, false, s));
    }
  }
}
