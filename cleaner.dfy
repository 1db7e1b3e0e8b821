/**
 * The extension's diff cleaner (`cleanGitDiff`): seven global, multi-line regular
 * expression substitutions applied one after the other to the whole text, then `trim`.
 *
 * Under the `m` flag `^` and `$` match at every line boundary and `.` stops at a line
 * terminator, so each of the five line-anchored patterns that precede the newline
 * collapse rewrites every line on its own and never touches a terminator; the model
 * therefore hand-codes each pattern as a function on one line (`ApplyPass`) and lifts
 * it to the text with `MapLines`. The newline collapse works across lines and is
 * modelled on the whole text.
 */
module DiffCleaner {
  import opened Text
  import DiffFilter

  /** The line-by-line passes, in the order `cleanGitDiff` applies them; the newline
      collapse runs between `Markers` and `Edges`. */
  datatype Pass = Headers | Hunks | Banners | Metadata | Markers | Edges

  /** The alternatives of the header pattern. */
  const HeaderPrefixes: seq<string> := ["diff --git ", "index ", "--- ", "+++ "]

  /** The alternatives of the file-metadata pattern. */
  const MetadataPrefixes: seq<string> :=
    ["new file mode", "deleted file mode", "similarity index", "rename from", "rename to",
     "copy from", "copy to"]

  /** The literal text of the truncation pattern before and after its `\d+`. */
  const BannerHead: string := "... (truncated "
  const BannerTail: string := " lines)"

  // ---------------------------------------------------------------------------
  // The patterns, one line at a time
  // ---------------------------------------------------------------------------

  /** The line starts with one of the alternatives. */
  predicate StartsWithAny(line: string, prefixes: seq<string>)
    decreases |prefixes|
  {
    |prefixes| > 0 && (StartsWith(line, prefixes[0]) || StartsWithAny(line, prefixes[1..]))
  }

  lemma {:induction false} StartsWithAnyIff(line: string, prefixes: seq<string>)
    ensures StartsWithAny(line, prefixes) <==> exists k :: 0 <= k < |prefixes| && StartsWith(line, prefixes[k])
    decreases |prefixes|
  {
    if |prefixes| > 0 {
      StartsWithAnyIff(line, prefixes[1..]);
      if StartsWithAny(line, prefixes[1..]) {
        var k :| 0 <= k < |prefixes| - 1 && StartsWith(line, prefixes[1..][k]);
        assert StartsWith(line, prefixes[k + 1]);
      }
      forall k | 1 <= k < |prefixes| && StartsWith(line, prefixes[k])
        ensures StartsWithAny(line, prefixes[1..])
      {
        assert prefixes[1..][k - 1] == prefixes[k];
      }
    }
  }

  /** `^@@.*@@.*$` matches a line with no terminator in it: it opens with "@@" and a
      second "@@" starts at index 2 or later. */
  predicate IsHunkLine(line: string) {
    StartsWith(line, "@@") && Contains(line[2..], "@@")
  }

  /** The same pattern, read as "there are positions where the two `@@` sit". */
  lemma {:induction false} HunkLineIff(line: string)
    ensures IsHunkLine(line) <==> StartsWith(line, "@@") && exists j :: 2 <= j && OccursAt(line, "@@", j)
  {
    if StartsWith(line, "@@") {
      var rest := line[2..];
      ContainsIff(rest, "@@");
      if Contains(rest, "@@") {
        var p :| OccursAt(rest, "@@", p);
        assert line[p + 2..p + 4] == rest[p..p + 2];
        assert OccursAt(line, "@@", p + 2);
      }
      forall j | 2 <= j && OccursAt(line, "@@", j) ensures Contains(rest, "@@") {
        assert rest[j - 2..j] == line[j..j + 2];
        assert OccursAt(rest, "@@", j - 2);
      }
    }
  }

  /** The number of leading decimal digits of `s` (the greedy `\d+`). */
  function DigitRun(s: string): (n: nat)
    ensures n <= |s| && (forall k :: 0 <= k < n ==> IsDigit(s[k])) && (n < |s| ==> !IsDigit(s[n]))
    decreases |s|
  {
    if |s| > 0 && IsDigit(s[0]) then 1 + DigitRun(s[1..]) else 0
  }

  /** `^\.\.\. \(truncated \d+ lines\).*$` matches the line, with the digits taken
      greedily: since " lines)" does not start with a digit, only the full run can work. */
  predicate IsBannerLine(line: string) {
    StartsWith(line, BannerHead)
    && var rest := line[|BannerHead|..];
       var n := DigitRun(rest);
       n >= 1 && StartsWith(rest[n..], BannerTail)
  }

  /** The `d` characters after the head are digits and the tail follows them. */
  predicate DigitsThenTail(line: string, d: int) {
    1 <= d <= |line| - |BannerHead|
    && (forall k :: |BannerHead| <= k < |BannerHead| + d ==> IsDigit(line[k]))
    && StartsWith(line[|BannerHead| + d..], BannerTail)
  }

  /** The pattern read with its `\d+` free to stop anywhere: some non-empty digit block
      right after the head is followed by the tail. Only the greedy choice can succeed. */
  lemma {:induction false} BannerLineIff(line: string)
    ensures IsBannerLine(line) <==> StartsWith(line, BannerHead) && exists d :: DigitsThenTail(line, d)
  {
    var h := |BannerHead|;
    if StartsWith(line, BannerHead) {
      var rest := line[h..];
      var n := DigitRun(rest);
      if IsBannerLine(line) {
        assert line[h + n..] == rest[n..];
        forall k | h <= k < h + n ensures IsDigit(line[k]) {
          assert line[k] == rest[k - h];
        }
        assert DigitsThenTail(line, n);
      }
      forall d | DigitsThenTail(line, d)
        ensures IsBannerLine(line)
      {
        // the tail starts with ' ', so the digit block ends exactly where the run does
        assert line[h + d] == ' ' && rest[d] == line[h + d];
        assert forall k :: 0 <= k < d ==> rest[k] == line[h + k];
        assert d == n;
        assert line[h + d..] == rest[n..];
      }
    }
  }

  predicate IsBlank(c: char) {
    c == ' ' || c == '\t'
  }

  /** Drops the leading run of spaces and tabs (`^[ \t]+`). */
  function StripLeadingBlanks(s: string): (r: string)
    ensures |r| <= |s| && r == s[|s| - |r|..]
    ensures forall k :: 0 <= k < |s| - |r| ==> IsBlank(s[k])
    ensures |r| > 0 ==> !IsBlank(r[0])
    decreases |s|
  {
    if |s| > 0 && IsBlank(s[0]) then StripLeadingBlanks(s[1..]) else s
  }

  /** Drops the trailing run of spaces and tabs (`[ \t]+$`). */
  function StripTrailingBlanks(s: string): (r: string)
    ensures |r| <= |s| && r == s[..|r|]
    ensures forall k :: |r| <= k < |s| ==> IsBlank(s[k])
    ensures |r| > 0 ==> !IsBlank(r[|r| - 1])
    decreases |s|
  {
    if |s| > 0 && IsBlank(s[|s| - 1]) then StripTrailingBlanks(s[..|s| - 1]) else s
  }

  /** `^[ \t]+|[ \t]+$` on one line: a line of blanks only is consumed by the first
      alternative, any other line loses its leading and its trailing blanks. */
  function StripEdges(line: string): string {
    StripTrailingBlanks(StripLeadingBlanks(line))
  }

  /** One pass on one line free of terminators. */
  function ApplyPass(p: Pass, line: string): string {
    match p
    case Headers => if StartsWithAny(line, HeaderPrefixes) then "" else line
    case Hunks => if IsHunkLine(line) then "" else line
    case Banners => if IsBannerLine(line) then "" else line
    case Metadata => if StartsWithAny(line, MetadataPrefixes) then "" else line
    case Markers => if |line| > 0 && (line[0] == '+' || line[0] == '-') then line[1..] else line
    case Edges => StripEdges(line)
  }

  predicate NoTerminator(s: string) {
    forall k :: 0 <= k < |s| ==> !IsLineTerminator(s[k])
  }

  /** A pass only ever keeps a piece of the line, so it never introduces a terminator. */
  lemma {:induction false} ApplyPassNoTerminator(p: Pass, line: string)
    requires NoTerminator(line)
    ensures NoTerminator(ApplyPass(p, line))
  {
    var r := ApplyPass(p, line);
    if p == Edges {
      var a := StripLeadingBlanks(line);
      forall k | 0 <= k < |r| ensures !IsLineTerminator(r[k]) {
        assert r[k] == a[k] == line[|line| - |a| + k];
      }
    } else if p == Markers && r != line {
      forall k | 0 <= k < |r| ensures !IsLineTerminator(r[k]) {
        assert r[k] == line[k + 1];
      }
    }
  }

  // ---------------------------------------------------------------------------
  // Lifting a pass to the whole text
  // ---------------------------------------------------------------------------

  /** The global multi-line replace of a line pattern: the first line is rewritten, its
      terminator is kept, and the rest of the text is treated the same way. */
  function MapLines(p: Pass, s: string): string
    decreases |s|
  {
    var e := LineEnd(s, 0);
    if e == |s| then ApplyPass(p, s)
    else ApplyPass(p, s[..e]) + [s[e]] + MapLines(p, s[e + 1..])
  }

  /** The lines of `s`, cut at every line terminator (the terminators themselves are
      `Breaks(s)`). */
  function Lines(s: string): (r: seq<string>)
    ensures |r| >= 1
    decreases |s|
  {
    var e := LineEnd(s, 0);
    if e == |s| then [s] else [s[..e]] + Lines(s[e + 1..])
  }

  /** The terminators of `s`, in order. */
  function Breaks(s: string): (r: seq<char>)
    ensures |r| == |Lines(s)| - 1 && forall k :: 0 <= k < |r| ==> IsLineTerminator(r[k])
    decreases |s|
  {
    var e := LineEnd(s, 0);
    if e == |s| then [] else [s[e]] + Breaks(s[e + 1..])
  }

  /** Lines with the terminators between them put back. */
  function Unlines(lines: seq<string>, breaks: seq<char>): string
    requires |lines| == |breaks| + 1
    decreases |breaks|
  {
    if |breaks| == 0 then lines[0] else lines[0] + [breaks[0]] + Unlines(lines[1..], breaks[1..])
  }

  /** Cutting a text into lines and terminators loses nothing. */
  lemma {:induction false} UnlinesLines(s: string)
    ensures Unlines(Lines(s), Breaks(s)) == s
    decreases |s|
  {
    var e := LineEnd(s, 0);
    if e < |s| {
      var t := s[e + 1..];
      LinesStep(s);
      UnlinesCons(s[..e], s[e], Lines(t), Breaks(t));
      UnlinesLines(t);
      CutAt(s, e);
    }
  }

  /** A text is the part before position `e`, the character at `e`, and the part after. */
  lemma {:induction false} CutAt(s: string, e: nat)
    requires e < |s|
    ensures s == s[..e] + [s[e]] + s[e + 1..]
  {
  }

  /** The first line and terminator of a text that has one, then those of the rest. */
  lemma {:induction false} LinesStep(s: string)
    requires LineEnd(s, 0) < |s|
    ensures var e := LineEnd(s, 0);
      Lines(s) == [s[..e]] + Lines(s[e + 1..]) && Breaks(s) == [s[e]] + Breaks(s[e + 1..])
  {
  }

  /** Unlines of a line and terminator in front. */
  lemma {:induction false} UnlinesCons(line: string, b: char, lines: seq<string>, breaks: seq<char>)
    requires |lines| == |breaks| + 1
    ensures Unlines([line] + lines, [b] + breaks) == line + [b] + Unlines(lines, breaks)
  {
    assert ([line] + lines)[1..] == lines;
    assert ([b] + breaks)[1..] == breaks;
  }

  /** The lines of a text are free of terminators. */
  lemma {:induction false} LinesNoTerminator(s: string)
    ensures forall k :: 0 <= k < |Lines(s)| ==> NoTerminator(Lines(s)[k])
    decreases |s|
  {
    var e := LineEnd(s, 0);
    if e < |s| {
      LinesNoTerminator(s[e + 1..]);
      assert forall k :: 1 <= k < |Lines(s)| ==> Lines(s)[k] == Lines(s[e + 1..])[k - 1];
    }
  }

  /** The pass applied to each line of a list. */
  function ApplyAll(p: Pass, lines: seq<string>): (r: seq<string>)
    ensures |r| == |lines| && forall k :: 0 <= k < |lines| ==> r[k] == ApplyPass(p, lines[k])
    decreases |lines|
  {
    if |lines| == 0 then [] else [ApplyPass(p, lines[0])] + ApplyAll(p, lines[1..])
  }

  /** A text made of a first line, a terminator and a rest. */
  lemma {:induction false} LinesCons(a: string, t: char, b: string)
    requires NoTerminator(a) && IsLineTerminator(t)
    ensures Lines(a + [t] + b) == [a] + Lines(b)
    ensures Breaks(a + [t] + b) == [t] + Breaks(b)
  {
    var s := a + [t] + b;
    assert forall k :: 0 <= k < |a| ==> s[k] == a[k];
    assert s[|a|] == t;
    assert LineEnd(s, 0) == |a|;
    assert s[..|a|] == a;
    assert s[|a| + 1..] == b;
  }

  /** A text without terminators is a single line. */
  lemma {:induction false} LinesSingle(a: string)
    requires NoTerminator(a)
    ensures LineEnd(a, 0) == |a| && Lines(a) == [a] && Breaks(a) == []
  {
  }

  /** The first line of a text has no terminator in it. */
  lemma {:induction false} FirstLineNoTerminator(s: string)
    ensures NoTerminator(s[..LineEnd(s, 0)])
  {
    var e := LineEnd(s, 0);
    assert forall k :: 0 <= k < e ==> s[..e][k] == s[k];
  }

  /** A line pass rewrites every line on its own and leaves the terminators, and so the
      number of lines, exactly as they were: the line structure of the text survives. */
  lemma {:induction false} MapLinesShape(p: Pass, s: string)
    ensures Lines(MapLines(p, s)) == ApplyAll(p, Lines(s))
    ensures Breaks(MapLines(p, s)) == Breaks(s)
    decreases |s|
  {
    var e := LineEnd(s, 0);
    var first := ApplyPass(p, s[..e]);
    if e == |s| {
      assert s[..e] == s;
      ApplyPassNoTerminator(p, s);
      LinesSingle(first);
      assert ApplyAll(p, [s]) == [first];
    } else {
      FirstLineNoTerminator(s);
      ApplyPassNoTerminator(p, s[..e]);
      var rest := MapLines(p, s[e + 1..]);
      MapLinesShape(p, s[e + 1..]);
      LinesCons(first, s[e], rest);
      var ls := [s[..e]] + Lines(s[e + 1..]);
      assert ls[1..] == Lines(s[e + 1..]);
    }
  }

  /** A text without terminators is one line, and the pass is applied to it alone. */
  lemma {:induction false} MapLinesSingle(p: Pass, s: string)
    requires NoTerminator(s)
    ensures MapLines(p, s) == ApplyPass(p, s)
  {
    LinesSingle(s);
  }

  // ---------------------------------------------------------------------------
  // The newline collapse (`\n{3,}` replaced by two newlines)
  // ---------------------------------------------------------------------------

  /** The number of leading '\n' (the greedy `\n{3,}` takes the whole run). */
  function NewlineRun(s: string): (n: nat)
    ensures n <= |s| && (forall k :: 0 <= k < n ==> s[k] == '\n') && (n < |s| ==> s[n] != '\n')
    decreases |s|
  {
    if |s| > 0 && s[0] == '\n' then 1 + NewlineRun(s[1..]) else 0
  }

  /** Every maximal run of three or more '\n' becomes exactly two. */
  function CollapseNewlines(s: string): (r: string)
    ensures |s| > 0 ==> |r| > 0 && r[0] == s[0]
    decreases |s|
  {
    if |s| == 0 then ""
    else if s[0] == '\n' then
      var n := NewlineRun(s);
      (if n >= 3 then "\n\n" else s[..n]) + CollapseNewlines(s[n..])
    else [s[0]] + CollapseNewlines(s[1..])
  }

  /** No three '\n' in a row: the collapse pattern has nothing left to match. */
  predicate NoTripleNewline(s: string) {
    forall k :: 0 <= k < |s| - 2 ==> !(s[k] == '\n' && s[k + 1] == '\n' && s[k + 2] == '\n')
  }

  /** The text with every '\n' taken out. */
  function WithoutNewlines(s: string): (r: string)
    decreases |s|
  {
    if |s| == 0 then "" else (if s[0] == '\n' then "" else [s[0]]) + WithoutNewlines(s[1..])
  }

  lemma {:induction false} WithoutNewlinesAppend(a: string, b: string)
    ensures WithoutNewlines(a + b) == WithoutNewlines(a) + WithoutNewlines(b)
    decreases |a|
  {
    if |a| > 0 {
      var x := if a[0] == '\n' then "" else [a[0]];
      assert (a + b)[0] == a[0];
      assert (a + b)[1..] == a[1..] + b;
      WithoutNewlinesAppend(a[1..], b);
      assert WithoutNewlines(a + b) == x + WithoutNewlines(a[1..] + b);
      assert WithoutNewlines(a) == x + WithoutNewlines(a[1..]);
    } else {
      assert a + b == b;
    }
  }

  lemma {:induction false} WithoutNewlinesOfNewlines(s: string)
    requires forall k :: 0 <= k < |s| ==> s[k] == '\n'
    ensures WithoutNewlines(s) == ""
    decreases |s|
  {
    if |s| > 0 {
      WithoutNewlinesOfNewlines(s[1..]);
    }
  }

  /** A run of at most two '\n' in front of a text starting with something else. */
  lemma {:induction false} NoTripleAfterShortRun(n: nat, rest: string)
    requires n <= 2 && NoTripleNewline(rest) && (|rest| > 0 ==> rest[0] != '\n')
    ensures NoTripleNewline(seq(n, _ => '\n') + rest)
  {
  }

  /** After the collapse no three newlines are adjacent any more. */
  lemma {:induction false} CollapseNoTriple(s: string)
    ensures NoTripleNewline(CollapseNewlines(s))
    decreases |s|
  {
    if |s| > 0 {
      if s[0] == '\n' {
        var n := NewlineRun(s);
        var rest := CollapseNewlines(s[n..]);
        CollapseNoTriple(s[n..]);
        var m := if n >= 3 then 2 else n;
        assert (if n >= 3 then "\n\n" else s[..n]) == seq(m, _ => '\n');
        NoTripleAfterShortRun(m, rest);
      } else {
        CollapseNoTriple(s[1..]);
        var rest := CollapseNewlines(s[1..]);
        assert CollapseNewlines(s) == [s[0]] + rest;
      }
    }
  }

  /** The collapse removes newlines and nothing else: every other character survives, in
      order. */
  lemma {:induction false} CollapseKeepsText(s: string)
    ensures WithoutNewlines(CollapseNewlines(s)) == WithoutNewlines(s)
    decreases |s|
  {
    if |s| > 0 {
      if s[0] == '\n' {
        var n := NewlineRun(s);
        var run := if n >= 3 then "\n\n" else s[..n];
        CollapseKeepsText(s[n..]);
        WithoutNewlinesAppend(run, CollapseNewlines(s[n..]));
        WithoutNewlinesOfNewlines(run);
        assert s == s[..n] + s[n..];
        WithoutNewlinesAppend(s[..n], s[n..]);
        WithoutNewlinesOfNewlines(s[..n]);
      } else {
        CollapseKeepsText(s[1..]);
        WithoutNewlinesAppend([s[0]], CollapseNewlines(s[1..]));
      }
    }
  }

  /** The collapse changes a text exactly when the text has three newlines in a row. */
  lemma {:induction false} CollapseFixedIff(s: string)
    ensures CollapseNewlines(s) == s <==> NoTripleNewline(s)
    decreases |s|
  {
    CollapseNoTriple(s);
    if NoTripleNewline(s) {
      CollapseIdentity(s);
    }
  }

  lemma {:induction false} CollapseIdentity(s: string)
    requires NoTripleNewline(s)
    ensures CollapseNewlines(s) == s
    decreases |s|
  {
    if |s| > 0 {
      if s[0] == '\n' {
        var n := NewlineRun(s);
        assert |s| < 3 || !(s[0] == '\n' && s[1] == '\n' && s[2] == '\n');
        NoTripleDrop(s, n);
        CollapseIdentity(s[n..]);
        assert s == s[..n] + s[n..];
      } else {
        NoTripleDrop(s, 1);
        CollapseIdentity(s[1..]);
        assert s == [s[0]] + s[1..];
      }
    }
  }

  lemma {:induction false} NoTripleDrop(s: string, n: nat)
    requires NoTripleNewline(s) && n <= |s|
    ensures NoTripleNewline(s[n..])
  {
    forall k | 0 <= k < |s[n..]| - 2
      ensures !(s[n..][k] == '\n' && s[n..][k + 1] == '\n' && s[n..][k + 2] == '\n')
    {
      assert s[n..][k] == s[n + k] && s[n..][k + 1] == s[n + k + 1] && s[n..][k + 2] == s[n + k + 2];
    }
  }

  // ---------------------------------------------------------------------------
  // The whole cleaner
  // ---------------------------------------------------------------------------

  /** The five line passes that run before the collapse, composed on one line. */
  function LinePasses(line: string): string {
    ApplyPass(Markers, ApplyPass(Metadata, ApplyPass(Banners, ApplyPass(Hunks, ApplyPass(Headers, line)))))
  }

  /** The text after the first five substitutions. */
  function BeforeCollapse(text: string): string {
    MapLines(Markers, MapLines(Metadata, MapLines(Banners, MapLines(Hunks, MapLines(Headers, text)))))
  }

  /** `cleanGitDiff`. */
  function Clean(text: string): string {
    Trim(MapLines(Edges, CollapseNewlines(BeforeCollapse(text))))
  }

  /** The first five substitutions act line by line: the text keeps its terminators,
      and each of its lines goes through the five passes in order. */
  lemma {:induction false} BeforeCollapseShape(text: string)
    ensures |Lines(BeforeCollapse(text))| == |Lines(text)|
    ensures Breaks(BeforeCollapse(text)) == Breaks(text)
    ensures forall k :: 0 <= k < |Lines(text)| ==> Lines(BeforeCollapse(text))[k] == LinePasses(Lines(text)[k])
  {
    var s1 := MapLines(Headers, text);
    var s2 := MapLines(Hunks, s1);
    var s3 := MapLines(Banners, s2);
    var s4 := MapLines(Metadata, s3);
    var s5 := MapLines(Markers, s4);
    MapLinesShape(Headers, text);
    MapLinesShape(Hunks, s1);
    MapLinesShape(Banners, s2);
    MapLinesShape(Metadata, s3);
    MapLinesShape(Markers, s4);
  }

  /** A header line, including "+++ b/…", is blanked whole before the marker pass could
      take only its first '+'. */
  lemma {:induction false} HeaderLineBlanked(line: string)
    requires StartsWithAny(line, HeaderPrefixes)
    ensures LinePasses(line) == ""
  {
  }

  lemma {:induction false} PlusPlusPlusBlanked(rest: string)
    ensures LinePasses("+++ " + rest) == ""
  {
    assert StartsWith("+++ " + rest, HeaderPrefixes[3]);
  }

  /** Hunk, banner and metadata lines that are not headers are blanked too; the newline
      after them stays. */
  lemma {:induction false} NoiseLineBlanked(line: string)
    requires IsHunkLine(line) || IsBannerLine(line) || StartsWithAny(line, MetadataPrefixes)
    ensures LinePasses(line) == ""
  {
  }

  /** A line no earlier pattern matched loses exactly one leading '+' or '-' and keeps
      the rest: a second marker character survives. */
  lemma {:induction false} MarkerStripsOne(c: char, rest: string)
    requires c == '+' || c == '-'
    requires var line := [c] + rest;
      !StartsWithAny(line, HeaderPrefixes) && !IsHunkLine(line) && !IsBannerLine(line)
      && !StartsWithAny(line, MetadataPrefixes)
    ensures LinePasses([c] + rest) == rest
  {
    assert ([c] + rest)[1..] == rest;
  }

  /** Every banner that the filter writes is a match of the truncation pattern, whatever
      text the same line goes on with. */
  lemma {:induction false} FilterBannerMatches(dropped: nat, tail: string)
    ensures IsBannerLine(DiffFilter.Banner(dropped) + tail)
  {
    var d := NatToString(dropped);
    var line := DiffFilter.Banner(dropped) + tail;
    var h := |BannerHead|;
    assert line == BannerHead + d + BannerTail + tail;
    assert line[..h] == BannerHead;
    var rest := line[h..];
    assert rest == d + (BannerTail + tail);
    DigitRunOf(d, BannerTail + tail);
    assert rest[|d|..] == BannerTail + tail;
  }

  lemma {:induction false} DigitRunOf(d: string, t: string)
    requires forall k :: 0 <= k < |d| ==> IsDigit(d[k])
    requires |t| > 0 && !IsDigit(t[0])
    ensures DigitRun(d + t) == |d|
    decreases |d|
  {
    if |d| > 0 {
      assert (d + t)[1..] == d[1..] + t;
      DigitRunOf(d[1..], t);
    }
  }

  /** So a line that opens with a filter banner reaches the collapse blank: nothing before
      the banner pass touches it, and the banner pass removes it whole. */
  lemma {:induction false} FilterBannerLineBlanked(dropped: nat, tail: string)
    ensures LinePasses(DiffFilter.Banner(dropped) + tail) == ""
  {
    var line := DiffFilter.Banner(dropped) + tail;
    assert line[0] == '.';
    assert ApplyPass(Headers, line) == line by {
      NotStartsWithAny(line, HeaderPrefixes);
    }
    assert ApplyPass(Hunks, line) == line by {
      assert line[..2][0] == '.';
    }
    assert ApplyPass(Banners, line) == "" by {
      FilterBannerMatches(dropped, tail);
    }
    assert ApplyPass(Metadata, "") == "";
  }

  /** In a whole text, every line that opens with a filter banner is blank after the
      first five substitutions. */
  lemma {:induction false} BannerLinesBlanked(text: string)
    ensures |Lines(BeforeCollapse(text))| == |Lines(text)|
    ensures var lines := Lines(text);
      forall k, dropped: nat, tail :: 0 <= k < |lines| && lines[k] == DiffFilter.Banner(dropped) + tail
        ==> Lines(BeforeCollapse(text))[k] == ""
  {
    BeforeCollapseShape(text);
    var lines := Lines(text);
    forall k, dropped: nat, tail | 0 <= k < |lines| && lines[k] == DiffFilter.Banner(dropped) + tail
      ensures Lines(BeforeCollapse(text))[k] == ""
    {
      FilterBannerLineBlanked(dropped, tail);
    }
  }

  // ---------------------------------------------------------------------------
  // Whitespace at the edges of the result and of its lines
  // ---------------------------------------------------------------------------

  /** No line of `s` begins or ends with a space or a tab: every blank has a character
      on both sides and neither of them is a terminator. */
  predicate EdgeFree(s: string) {
    forall k :: 0 <= k < |s| && IsBlank(s[k]) ==>
      0 < k < |s| - 1 && !IsLineTerminator(s[k - 1]) && !IsLineTerminator(s[k + 1])
  }

  lemma {:induction false} StripEdgesEdgeFree(line: string)
    requires NoTerminator(line)
    ensures NoTerminator(StripEdges(line)) && EdgeFree(StripEdges(line))
  {
    ApplyPassNoTerminator(Edges, line);
  }

  lemma {:induction false} EdgeFreeConcat(a: string, t: char, b: string)
    requires EdgeFree(a) && EdgeFree(b) && !IsBlank(t)
    ensures EdgeFree(a + [t] + b)
  {
    var s := a + [t] + b;
    forall k | 0 <= k < |s| && IsBlank(s[k])
      ensures 0 < k < |s| - 1 && !IsLineTerminator(s[k - 1]) && !IsLineTerminator(s[k + 1])
    {
      if k < |a| {
        assert s[k] == a[k] && s[k - 1] == a[k - 1] && s[k + 1] == a[k + 1];
      } else {
        var j := k - |a| - 1;
        assert s[k] == b[j] && s[k - 1] == b[j - 1] && s[k + 1] == b[j + 1];
      }
    }
  }

  /** After the whitespace pass no line begins or ends with a blank. */
  lemma {:induction false} EdgesPassEdgeFree(s: string)
    ensures EdgeFree(MapLines(Edges, s))
    decreases |s|
  {
    var e := LineEnd(s, 0);
    StripEdgesEdgeFree(s[..e]);
    if e < |s| {
      EdgesPassEdgeFree(s[e + 1..]);
      EdgeFreeConcat(StripEdges(s[..e]), s[e], MapLines(Edges, s[e + 1..]));
    } else {
      assert s[..e] == s;
    }
  }

  /** Trimming keeps a text edge-free: the result starts and ends with a non-space. */
  lemma {:induction false} TrimEdgeFree(s: string)
    requires EdgeFree(s)
    ensures EdgeFree(Trim(s))
  {
    var r := Trim(s);
    TrimSpan(s);
    var i := |s| - |TrimStart(s)|;
    forall k | 0 <= k < |r| && IsBlank(r[k])
      ensures 0 < k < |r| - 1 && !IsLineTerminator(r[k - 1]) && !IsLineTerminator(r[k + 1])
    {
      assert r[k] == s[i + k];
      assert k != 0 && k != |r| - 1;
      assert r[k - 1] == s[i + k - 1] && r[k + 1] == s[i + k + 1];
    }
  }

  /** The cleaned diff has no whitespace at either end, and none of its lines begins or
      ends with a space or a tab. */
  lemma {:induction false} CleanEdges(text: string)
    ensures var r := Clean(text);
      |r| > 0 ==> !IsJsSpace(r[0]) && !IsJsSpace(r[|r| - 1])
    ensures EdgeFree(Clean(text))
  {
    var s := MapLines(Edges, CollapseNewlines(BeforeCollapse(text)));
    TrimSpan(s);
    EdgesPassEdgeFree(CollapseNewlines(BeforeCollapse(text)));
    TrimEdgeFree(s);
  }

  // ---------------------------------------------------------------------------
  // Concrete behaviour
  // ---------------------------------------------------------------------------

  /** On a text of one line the first five substitutions are the line passes. */
  lemma {:induction false} BeforeCollapseSingle(line: string)
    requires NoTerminator(line)
    ensures BeforeCollapse(line) == LinePasses(line) && NoTerminator(LinePasses(line))
  {
    var l1 := ApplyPass(Headers, line);
    var l2 := ApplyPass(Hunks, l1);
    var l3 := ApplyPass(Banners, l2);
    var l4 := ApplyPass(Metadata, l3);
    MapLinesSingle(Headers, line);
    ApplyPassNoTerminator(Headers, line);
    MapLinesSingle(Hunks, l1);
    ApplyPassNoTerminator(Hunks, l1);
    MapLinesSingle(Banners, l2);
    ApplyPassNoTerminator(Banners, l2);
    MapLinesSingle(Metadata, l3);
    ApplyPassNoTerminator(Metadata, l3);
    MapLinesSingle(Markers, l4);
    ApplyPassNoTerminator(Markers, l4);
  }

  /** A text of one line is cleaned by the line passes, the edge strip and `trim`. */
  lemma {:induction false} CleanOneLine(line: string)
    requires NoTerminator(line)
    ensures Clean(line) == Trim(StripEdges(LinePasses(line)))
  {
    var m := LinePasses(line);
    BeforeCollapseSingle(line);
    assert NoTripleNewline(m);
    CollapseIdentity(m);
    MapLinesSingle(Edges, m);
  }

  /** A placeholder standing on a line of its own matches none of the patterns and comes
      out of the cleaner unchanged. The filter, though, writes every placeholder but the
      first chunk's right after the file separator, on a header line that the cleaner
      erases (`SeparatedPlaceholderErased`). */
  lemma {:induction false} PlaceholderSurvives(name: string)
    requires NoTerminator(name)
    ensures Clean(DiffFilter.Placeholder(name)) == DiffFilter.Placeholder(name)
  {
    var s := DiffFilter.Placeholder(name);
    assert s[0] == '(' && s[|s| - 1] == ')';
    PlaceholderNoTerminator(name);
    ParenLineUntouched(s);
    EdgesAndTrimKeep(s);
    CleanOneLine(s);
  }

  lemma {:induction false} PlaceholderNoTerminator(name: string)
    requires NoTerminator(name)
    ensures NoTerminator(DiffFilter.Placeholder(name))
  {
    var s := DiffFilter.Placeholder(name);
    assert s == "(Skipped " + name + ")";
    forall k | 0 <= k < |s| ensures !IsLineTerminator(s[k]) {
      if 9 <= k < |s| - 1 {
        assert s[k] == name[k - 9];
      }
    }
  }

  /** A line that opens with '(' is left alone by the five line passes. */
  lemma {:induction false} ParenLineUntouched(s: string)
    requires |s| > 0 && s[0] == '('
    ensures LinePasses(s) == s
  {
    NotStartsWithAny(s, HeaderPrefixes);
    NotStartsWithAny(s, MetadataPrefixes);
    assert !IsHunkLine(s) by {
      if |s| >= 2 {
        assert s[..2][0] == '(';
      }
    }
    assert !IsBannerLine(s) by {
      if |s| >= |BannerHead| {
        assert s[..|BannerHead|][0] == '(';
      }
    }
  }

  /** A text that starts and ends with a non-space is left alone by the edge strip and
      by `trim`. */
  lemma {:induction false} EdgesAndTrimKeep(s: string)
    requires |s| > 0 && !IsJsSpace(s[0]) && !IsJsSpace(s[|s| - 1])
    ensures Trim(StripEdges(s)) == s
  {
    assert StripLeadingBlanks(s) == s;
    assert StripTrailingBlanks(s) == s;
    assert TrimStart(s) == s;
    assert TrimEnd(s) == s;
  }

  /** A line that each alternative is too long for or starts differently from matches
      none of them. */
  lemma {:induction false} NotStartsWithAny(line: string, prefixes: seq<string>)
    requires |line| > 0
    requires forall k :: 0 <= k < |prefixes| ==>
      |prefixes[k]| > 0 && (prefixes[k][0] != line[0] || |prefixes[k]| > |line|)
    ensures !StartsWithAny(line, prefixes)
    decreases |prefixes|
  {
    if |prefixes| > 0 {
      if |prefixes[0]| <= |line| {
        assert line[..|prefixes[0]|][0] == line[0];
      }
      NotStartsWithAny(line, prefixes[1..]);
    }
  }

  /** A marked line that no removal pattern matches loses its marker and nothing else,
      when what follows the marker has no whitespace at its ends. */
  lemma {:induction false} CleanMarkedLine(line: string)
    requires |line| >= 2 && (line[0] == '+' || line[0] == '-') && NoTerminator(line)
    requires !IsJsSpace(line[1]) && !IsJsSpace(line[|line| - 1])
    requires !StartsWithAny(line, HeaderPrefixes) && !IsHunkLine(line) && !IsBannerLine(line)
      && !StartsWithAny(line, MetadataPrefixes)
    ensures Clean(line) == line[1..]
  {
    var rest := line[1..];
    assert LinePasses(line) == rest by {
      assert line == [line[0]] + rest;
      MarkerStripsOne(line[0], rest);
    }
    assert Trim(StripEdges(rest)) == rest by {
      assert rest[0] == line[1] && rest[|rest| - 1] == line[|line| - 1];
      EdgesAndTrimKeep(rest);
    }
    CleanOneLine(line);
  }

  /** "++a" and "+a" match none of the removal patterns. */
  lemma {:induction false} PlusLinesPatternFree(s: string)
    requires s == "++a" || s == "+a"
    ensures !StartsWithAny(s, HeaderPrefixes) && !IsHunkLine(s) && !IsBannerLine(s)
      && !StartsWithAny(s, MetadataPrefixes)
  {
    NotStartsWithAny(s, HeaderPrefixes);
    NotStartsWithAny(s, MetadataPrefixes);
    assert s[0] == '+';
    assert !IsHunkLine(s) by {
      if |s| >= 2 {
        assert s[..2][0] == '+';
      }
    }
    assert !IsBannerLine(s);
  }

  /** Cleaning is not idempotent: a line with two leading markers loses one per run. */
  lemma {:induction false} CleanNotIdempotent()
    ensures Clean("++a") == "+a" && Clean("+a") == "a"
    ensures Clean(Clean("++a")) != Clean("++a")
  {
    CleanDoubleMarker("++a");
    CleanSingleMarker("+a");
  }

  lemma {:induction false} CleanDoubleMarker(s: string)
    requires s == "++a"
    ensures Clean(s) == s[1..]
  {
    PlusLinesPatternFree(s);
    assert NoTerminator(s) && !IsJsSpace(s[1]) && !IsJsSpace(s[2]);
    CleanMarkedLine(s);
  }

  lemma {:induction false} CleanSingleMarker(s: string)
    requires s == "+a"
    ensures Clean(s) == s[1..]
  {
    PlusLinesPatternFree(s);
    assert NoTerminator(s) && !IsJsSpace(s[1]);
    CleanMarkedLine(s);
  }

  // ---------------------------------------------------------------------------
  // The filter's output as the cleaner sees it
  // ---------------------------------------------------------------------------

  /** The first terminator is fixed by where it is and by the terminator-free run before it. */
  /** A terminator splits the lines of a text: those before it, then those after it. */
  lemma {:induction false} LinesAppend(p: string, t: char, b: string)
    requires IsLineTerminator(t)
    ensures Lines(p + [t] + b) == Lines(p) + Lines(b)
    decreases |p|
  {
    var e := LineEnd(p, 0);
    if e == |p| {
      LinesSingle(p);
      LinesCons(p, t, b);
    } else {
      var a, c, q := p[..e], p[e], p[e + 1..];
      FirstLineNoTerminator(p);
      CutAt(p, e);
      LinesAppend(q, t, b);
      LinesAppendCut(a, c, q, t, b);
    }
  }

  lemma {:induction false} Regroup(w: string, x: string, y: string, z: string)
    ensures w + x + y + z == w + (x + y + z)
  {
  }

  /** The step of `LinesAppend`: a first line and its terminator stay in front. */
  lemma {:induction false} LinesAppendCut(a: string, c: char, q: string, t: char, b: string)
    requires NoTerminator(a) && IsLineTerminator(c)
    requires Lines(q + [t] + b) == Lines(q) + Lines(b)
    ensures Lines(a + [c] + q + [t] + b) == Lines(a + [c] + q) + Lines(b)
  {
    Regroup(a + [c], q, [t], b);
    LinesCons(a, c, q + [t] + b);
    LinesCons(a, c, q);
    LinesRegroup([a], Lines(q), Lines(b));
  }

  lemma {:induction false} LinesRegroup(x: seq<string>, y: seq<string>, z: seq<string>)
    ensures x + (y + z) == x + y + z
  {
  }

  /** The first line of a text begins with any terminator-free prefix of it. */
  lemma {:induction false} FirstLineStarts(a: string, c: string)
    requires NoTerminator(a)
    ensures StartsWith(Lines(a + c)[0], a)
  {
    var s := a + c;
    assert forall k :: 0 <= k < |a| ==> s[k] == a[k];
    var e := LineEnd(s, 0);
    assert e >= |a|;
    assert Lines(s)[0] == s[..e];
    assert s[..e][..|a|] == a;
  }

  lemma {:induction false} BannerNoTerminator(dropped: nat)
    ensures NoTerminator(DiffFilter.Banner(dropped))
  {
    var d := NatToString(dropped);
    var s := DiffFilter.Banner(dropped);
    assert s == BannerHead + d + BannerTail;
    forall k | 0 <= k < |s| ensures !IsLineTerminator(s[k]) {
      if |BannerHead| <= k < |BannerHead| + |d| {
        assert s[k] == d[k - |BannerHead|];
      }
    }
  }

  /** A banner right after a newline opens a line of its own. */
  lemma {:induction false} BannerOpensLine(x: string, y: string, dropped: nat, post: string)
    requires |x| > 0 && x[|x| - 1] == '\n' && y == DiffFilter.Banner(dropped)
    ensures var i := |Lines(x[..|x| - 1])|;
      i < |Lines(x + y + post)| && StartsWith(Lines(x + y + post)[i], y)
  {
    var q := x[..|x| - 1];
    assert x + y + post == q + ['\n'] + (y + post);
    LinesAppend(q, '\n', y + post);
    BannerNoTerminator(dropped);
    FirstLineStarts(y, post);
  }

  /** A chunk of more than 50 lines is cut to its head, a newline and the banner. */
  lemma {:induction false} CapLinesShape(chunk: string) returns (x: string, y: string)
    requires |Split(chunk, DiffFilter.Newline)| > DiffFilter.MaxLinesPerFile
    ensures DiffFilter.CapLines(chunk) == x + y
    ensures y == DiffFilter.Banner(|Split(chunk, DiffFilter.Newline)| - DiffFilter.MaxLinesPerFile)
    ensures |x| > 0 && x[|x| - 1] == '\n'
  {
    var lines := Split(chunk, DiffFilter.Newline);
    x := Join(lines[..DiffFilter.MaxLinesPerFile], DiffFilter.Newline) + DiffFilter.Newline;
    y := DiffFilter.Banner(|lines| - DiffFilter.MaxLinesPerFile);
    assert DiffFilter.CapLines(chunk) == DiffFilter.Truncated(lines);
    assert x[|x| - 1] == DiffFilter.Newline[0];
  }

  /** A kept chunk of more than 50 lines becomes its head, a newline and the banner. */
  lemma {:induction false} TruncatedChunkShape(chunk: string) returns (x: string, y: string)
    requires Trim(chunk) != "" && !DiffFilter.IsIgnored(DiffFilter.FilenameOf(chunk))
      && |Split(chunk, DiffFilter.Newline)| > DiffFilter.MaxLinesPerFile
    ensures DiffFilter.ProcessChunk(chunk) == x + y
    ensures y == DiffFilter.Banner(|Split(chunk, DiffFilter.Newline)| - DiffFilter.MaxLinesPerFile)
    ensures |x| > 0 && x[|x| - 1] == '\n'
  {
    assert DiffFilter.ProcessChunk(chunk) == DiffFilter.CapLines(chunk);
    x, y := CapLinesShape(chunk);
  }

  /** A part of a join, cut in two, sits with the two halves next to each other. */
  lemma {:induction false} JoinPartSplit(parts: seq<string>, k: nat, sep: string, x: string, y: string)
    returns (pre: string, post: string)
    requires k < |parts| && parts[k] == x + y
    ensures Join(parts, sep) == pre + x + y + post
  {
    pre := if k == 0 then "" else Join(parts[..k], sep) + sep;
    post := if k + 1 == |parts| then "" else sep + Join(parts[k + 1..], sep);
    JoinAround(parts, k, sep);
  }

  /** A line that opens with a banner is blanked by the banner pattern. */
  lemma {:induction false} BannerLineBlankedAt(text: string, i: nat, dropped: nat)
    requires i < |Lines(text)| && StartsWith(Lines(text)[i], DiffFilter.Banner(dropped))
    ensures |Lines(BeforeCollapse(text))| == |Lines(text)| && Lines(BeforeCollapse(text))[i] == ""
  {
    var banner := DiffFilter.Banner(dropped);
    var line := Lines(text)[i];
    assert line == banner + line[|banner|..];
    BannerLinesBlanked(text);
  }

  /** A banner standing right after a newline somewhere in `text` opens a line of it, and
      the banner pattern blanks that line. */
  lemma {:induction false} BannerInText(text: string, pre: string, x: string, y: string,
                                        post: string, dropped: nat)
    requires text == pre + x + y + post && |x| > 0 && x[|x| - 1] == '\n'
    requires y == DiffFilter.Banner(dropped)
    ensures |Lines(BeforeCollapse(text))| == |Lines(text)| && BlankedBanner(text, dropped)
  {
    var p := pre + x;
    assert p[|p| - 1] == x[|x| - 1];
    BannerOpensLine(p, y, dropped, post);
    var i := |Lines(p[..|p| - 1])|;
    BannerLineBlankedAt(text, i, dropped);
    assert BlanksBannerAt(text, i, dropped);
  }

  /** Some line of `text` opens with the banner for `dropped` lines, and the first five
      substitutions turn that line into an empty one. */
  predicate BlankedBanner(text: string, dropped: nat)
  {
    exists i :: 0 <= i < |Lines(text)| && BlanksBannerAt(text, i, dropped)
  }

  /** Line `i` of `text` opens with the banner for `dropped` lines and comes out of the
      first five substitutions empty. */
  predicate BlanksBannerAt(text: string, i: nat, dropped: nat)
  {
    i < |Lines(text)| && i < |Lines(BeforeCollapse(text))|
    && StartsWith(Lines(text)[i], DiffFilter.Banner(dropped)) && Lines(BeforeCollapse(text))[i] == ""
  }

  /** The banner of every chunk the filter truncates opens a line of the filtered text,
      and the banner pattern blanks that line. */
  lemma {:induction false} TruncationBannerBlanked(diff: string, k: nat)
    requires var chunks := Split(diff, DiffFilter.FileSeparator);
      k < |chunks| && Trim(chunks[k]) != "" && !DiffFilter.IsIgnored(DiffFilter.FilenameOf(chunks[k]))
      && |Split(chunks[k], DiffFilter.Newline)| > DiffFilter.MaxLinesPerFile
    ensures |Lines(BeforeCollapse(DiffFilter.FilterDiff(diff)))| == |Lines(DiffFilter.FilterDiff(diff))|
    ensures BlankedBanner(DiffFilter.FilterDiff(diff),
      |Split(Split(diff, DiffFilter.FileSeparator)[k], DiffFilter.Newline)| - DiffFilter.MaxLinesPerFile)
  {
    var chunks := Split(diff, DiffFilter.FileSeparator);
    var x, y := TruncatedChunkShape(chunks[k]);
    assert DiffFilter.ProcessAll(chunks)[k] == x + y;
    BannerInJoin(DiffFilter.ProcessAll(chunks), k, DiffFilter.FileSeparator, x, y,
      |Split(chunks[k], DiffFilter.Newline)| - DiffFilter.MaxLinesPerFile);
  }

  /** A part of a joined text that ends in a newline and then a banner puts that banner
      on a line of its own, which the banner pattern blanks. */
  lemma {:induction false} BannerInJoin(parts: seq<string>, k: nat, sep: string, x: string,
                                        y: string, dropped: nat)
    requires k < |parts| && parts[k] == x + y && |x| > 0 && x[|x| - 1] == '\n'
    requires y == DiffFilter.Banner(dropped)
    ensures |Lines(BeforeCollapse(Join(parts, sep)))| == |Lines(Join(parts, sep))|
    ensures BlankedBanner(Join(parts, sep), dropped)
  {
    var pre, post := JoinPartSplit(parts, k, sep, x, y);
    BannerInText(Join(parts, sep), pre, x, y, post, dropped);
  }

  /** The placeholder after a file separator is on a header line, and is erased. */
  lemma {:induction false} SeparatedPlaceholderErased(name: string)
    requires NoTerminator(name)
    ensures Clean(DiffFilter.FileSeparator + DiffFilter.Placeholder(name)) == ""
  {
    var line := DiffFilter.FileSeparator + DiffFilter.Placeholder(name);
    assert NoTerminator(line) by {
      PlaceholderNoTerminator(name);
      assert forall k :: 11 <= k < |line| ==> line[k] == DiffFilter.Placeholder(name)[k - 11];
    }
    assert StartsWith(line, HeaderPrefixes[0]);
    HeaderLineBlanked(line);
    CleanOneLine(line);
    assert StripEdges("") == "";
  }

  /** A diff of one ignored file, opening with its header as diffs do, cleans to nothing:
      its placeholder never reaches the prompt. */
  lemma {:induction false} LoneIgnoredFileErased(diff: string)
    requires var chunks := Split(diff, DiffFilter.FileSeparator);
      |chunks| == 2 && chunks[0] == "" && Trim(chunks[1]) != ""
      && DiffFilter.IsIgnored(DiffFilter.FilenameOf(chunks[1]))
      && NoTerminator(DiffFilter.FilenameOf(chunks[1]))
    ensures Clean(DiffFilter.FilterDiff(diff)) == ""
  {
    var chunks := Split(diff, DiffFilter.FileSeparator);
    var name := DiffFilter.FilenameOf(chunks[1]);
    var out := DiffFilter.ProcessAll(chunks);
    assert Trim("") == "";
    assert out == ["", DiffFilter.Placeholder(name)];
    assert out[1..] == [DiffFilter.Placeholder(name)];
    assert Join(out, DiffFilter.FileSeparator)
      == "" + DiffFilter.FileSeparator + Join(out[1..], DiffFilter.FileSeparator);
    assert DiffFilter.FilterDiff(diff) == DiffFilter.FileSeparator + DiffFilter.Placeholder(name);
    SeparatedPlaceholderErased(name);
  }

  /** No alternative matches when each differs from the line in its first two
      characters. */
  lemma {:induction false} NotStartsWithAnyPair(line: string, prefixes: seq<string>)
    requires |line| >= 2
    requires forall k :: 0 <= k < |prefixes| ==>
      |prefixes[k]| >= 2 && (prefixes[k][0] != line[0] || prefixes[k][1] != line[1])
    ensures !StartsWithAny(line, prefixes)
    decreases |prefixes|
  {
    if |prefixes| > 0 {
      if |prefixes[0]| <= |line| {
        assert line[..|prefixes[0]|][0] == line[0] && line[..|prefixes[0]|][1] == line[1];
      }
      NotStartsWithAnyPair(line, prefixes[1..]);
    }
  }

  /** A content line that reads as an added banner is a banner once the marker pass has
      run, which is after the banner pass, so it survives cleaning. */
  lemma {:induction false} MarkedBannerSurvives(dropped: nat)
    ensures Clean("+" + DiffFilter.Banner(dropped)) == DiffFilter.Banner(dropped)
  {
    var line := MarkedBannerShape(dropped);
    MarkedLineNoPattern(line);
    CleanMarkedLine(line);
  }

  /** The added-line form of a banner: a '+', the banner's '.' and ')' at its edges, no terminator. */
  lemma {:induction false} MarkedBannerShape(dropped: nat) returns (line: string)
    ensures line == "+" + DiffFilter.Banner(dropped) && line[1..] == DiffFilter.Banner(dropped)
    ensures |line| >= 2 && line[0] == '+' && line[1] == '.' && line[|line| - 1] == ')'
    ensures NoTerminator(line)
  {
    var banner := DiffFilter.Banner(dropped);
    line := "+" + banner;
    assert line[1..] == banner;
    assert line[1] == '.' && line[|line| - 1] == ')';
    assert NoTerminator(line) by {
      BannerNoTerminator(dropped);
      assert forall k :: 1 <= k < |line| ==> line[k] == banner[k - 1];
    }
  }

  /** A line opening with "+." is neither a header, a hunk, a banner nor metadata. */
  lemma {:induction false} MarkedLineNoPattern(line: string)
    requires |line| >= 2 && line[0] == '+' && line[1] == '.'
    ensures !StartsWithAny(line, HeaderPrefixes) && !IsHunkLine(line) && !IsBannerLine(line)
      && !StartsWithAny(line, MetadataPrefixes)
  {
    NotStartsWithAnyPair(line, HeaderPrefixes);
    NotStartsWithAnyPair(line, MetadataPrefixes);
    assert !IsHunkLine(line) by {
      assert line[..2][0] == '+';
    }
    assert !IsBannerLine(line) by {
      if |BannerHead| <= |line| {
        assert line[..|BannerHead|][0] == '+';
      }
    }
  }
}
