/**
 * The extension's diff filter (`filterDiff`): the raw unified diff is cut at every
 * "diff --git " boundary, each file chunk is blanked, replaced by a placeholder when
 * its file is on the ignore list, or cut to 50 lines with a truncation banner, and
 * the chunks are glued back together in their original order.
 */
module DiffFilter {
  import opened Wrappers
  import opened Text

  /** The literal file boundary the diff is split and rejoined on. */
  const FileSeparator: string := "diff --git "

  /** Files whose name contains one of these never reach the model. */
  const IgnoredFiles: seq<string> := ["package-lock.json", "yarn.lock", "pnpm-lock.yaml", ".env"]

  const MaxLinesPerFile: nat := 50

  const Newline: string := "\n"

  // ---------------------------------------------------------------------------
  // Filename extraction: the regex /a\/(.*) b\// applied to the first line
  // ---------------------------------------------------------------------------

  /** " b/" starts at index `j` of `s`. */
  predicate MarkerAt(s: string, j: int) {
    0 <= j && j + 3 <= |s| && s[j..j + 3] == " b/"
  }

  /** The regex matches `s` from index `i` with its group `(.*)` spanning `s[i + 2..j]`:
      "a/" at `i`, " b/" at `j`, and no line terminator in between (`.` stops at one). */
  ghost predicate CaptureAt(s: string, i: int, j: int) {
    0 <= i && i + 2 <= j && MarkerAt(s, j) && s[i..i + 2] == "a/"
    && forall k :: i + 2 <= k < j ==> !IsLineTerminator(s[k])
  }

  /** The greatest index in [lo, hi] where " b/" starts, if any. */
  function LastMarker(s: string, lo: nat, hi: int): (r: Option<nat>)
    ensures r.Some? ==> lo <= r.value <= hi && MarkerAt(s, r.value)
    ensures forall j :: (if r.Some? then r.value < j else lo <= j) && j <= hi ==> !MarkerAt(s, j)
    decreases hi - lo + 1
  {
    if hi < lo then None
    else if MarkerAt(s, hi) then Some(hi)
    else LastMarker(s, lo, hi - 1)
  }

  /** The match the regex engine reports when it starts looking at `from`: the leftmost
      start that can match at all, and for that start the longest group (`.*` is greedy). */
  function FindCapture(s: string, from: nat): (r: Option<(nat, nat)>)
    ensures r.Some? ==> from <= r.value.0 && CaptureAt(s, r.value.0, r.value.1)
    ensures r.Some? ==> forall i, j :: from <= i < r.value.0 ==> !CaptureAt(s, i, j)
    ensures r.Some? ==> forall j :: r.value.1 < j ==> !CaptureAt(s, r.value.0, j)
    ensures r.None? ==> forall i, j :: from <= i ==> !CaptureAt(s, i, j)
    decreases |s| - from
  {
    if from + 2 > |s| then None
    else
      var e := LineEnd(s, from + 2);
      var m := if s[from..from + 2] == "a/" then LastMarker(s, from + 2, e) else None;
      // a group ending past `e` would have to span the line terminator at `e`
      assert forall j :: e < j ==> !CaptureAt(s, from, j);
      if m.Some? then Some((from, m.value)) else FindCapture(s, from + 1)
  }

  /** The chunk's first line: everything before its first "\n". */
  function FirstLine(chunk: string): string {
    Split(chunk, Newline)[0]
  }

  /** The regex group on a line, or "unknown" when the regex does not match it. */
  function LineFilename(line: string): string {
    match FindCapture(line, 0)
    case Some((i, j)) => line[i + 2..j]
    case None => "unknown"
  }

  /** The heuristic filename of a chunk, read off its first line. */
  function FilenameOf(chunk: string): string {
    LineFilename(FirstLine(chunk))
  }

  /** The filename is "unknown" when the line admits no capture, and otherwise the
      group of the leftmost capture, taken as long as it can be (greedy `.*`). */
  lemma {:induction false} FilenameIsRegexGroup(line: string)
    ensures (forall i, j :: !CaptureAt(line, i, j)) ==> LineFilename(line) == "unknown"
    ensures forall i, j ::
      && CaptureAt(line, i, j)
      && (forall i', j' :: 0 <= i' < i ==> !CaptureAt(line, i', j'))
      && (forall j' :: j < j' ==> !CaptureAt(line, i, j'))
      ==> LineFilename(line) == line[i + 2..j]
  {
    var m := FindCapture(line, 0);
    if m.Some? {
      assert CaptureAt(line, m.value.0, m.value.1);
    }
    forall i, j |
      && CaptureAt(line, i, j)
      && (forall i', j' :: 0 <= i' < i ==> !CaptureAt(line, i', j'))
      && (forall j' :: j < j' ==> !CaptureAt(line, i, j'))
      ensures LineFilename(line) == line[i + 2..j]
    {
      assert m.Some?;
      var i0, j0 := m.value.0, m.value.1;
      assert i0 == i by {
        assert !(i0 < i);
        assert !(i < i0);
      }
      assert j0 == j by {
        assert !(j0 < j);
        assert !(j < j0);
      }
    }
    assert m.None? ==> LineFilename(line) == "unknown";
    assert m.Some? ==> LineFilename(line) == line[m.value.0 + 2..m.value.1];
  }

  /** `IGNORED_FILES.some(ignored => filename.includes(ignored))`. */
  predicate IsIgnored(name: string) {
    exists k :: 0 <= k < |IgnoredFiles| && Contains(name, IgnoredFiles[k])
  }

  // ---------------------------------------------------------------------------
  // Chunk processing and the whole filter
  // ---------------------------------------------------------------------------

  /** The line appended after a cut chunk, naming how many lines were dropped. */
  function Banner(dropped: nat): string {
    "... (truncated " + NatToString(dropped) + " lines)"
  }

  /** What an ignored file's chunk is replaced by. */
  function Placeholder(name: string): string {
    "(Skipped " + name + ")"
  }

  /** The first 50 lines of a long chunk, then the banner on a line of its own. */
  function Truncated(lines: seq<string>): string
    requires |lines| > MaxLinesPerFile
  {
    Join(lines[..MaxLinesPerFile], Newline) + Newline + Banner(|lines| - MaxLinesPerFile)
  }

  /** The line cap applied to a chunk that is kept. */
  function CapLines(chunk: string): string {
    var lines := Split(chunk, Newline);
    if |lines| > MaxLinesPerFile then Truncated(lines) else chunk
  }

  /** One chunk of the split diff, as the `map` callback treats it. */
  function ProcessChunk(chunk: string): string {
    if Trim(chunk) == "" then ""
    else if IsIgnored(FilenameOf(chunk)) then Placeholder(FilenameOf(chunk))
    else CapLines(chunk)
  }

  function ProcessAll(chunks: seq<string>): (r: seq<string>)
    ensures |r| == |chunks| && forall k :: 0 <= k < |chunks| ==> r[k] == ProcessChunk(chunks[k])
  {
    seq(|chunks|, k requires 0 <= k < |chunks| => ProcessChunk(chunks[k]))
  }

  /** `filterDiff`. */
  function FilterDiff(diff: string): string {
    Join(ProcessAll(Split(diff, FileSeparator)), FileSeparator)
  }

  // ---------------------------------------------------------------------------
  // Properties
  // ---------------------------------------------------------------------------

  /** A chunk becomes the empty string exactly when it is whitespace only. */
  lemma {:induction false} BlankChunkIff(chunk: string)
    ensures ProcessChunk(chunk) == "" <==> forall k :: 0 <= k < |chunk| ==> IsJsSpace(chunk[k])
  {
    TrimEmptyIff(chunk);
    var lines := Split(chunk, Newline);
    if Trim(chunk) != "" && !IsIgnored(FilenameOf(chunk)) && |lines| > MaxLinesPerFile {
      assert |ProcessChunk(chunk)| >= |Newline|;
    }
  }

  /** An ignored file's chunk is replaced by the placeholder alone: the output depends
      on nothing but the filename, so none of the file's changes survive. */
  lemma {:induction false} IgnoredChunkPlaceholder(chunk: string, other: string)
    requires Trim(chunk) != "" && IsIgnored(FilenameOf(chunk))
    requires Trim(other) != "" && FilenameOf(other) == FilenameOf(chunk)
    ensures ProcessChunk(chunk) == "(Skipped " + FilenameOf(chunk) + ")"
    ensures ProcessChunk(other) == ProcessChunk(chunk)
  {
  }

  /** A kept chunk of at most 50 lines comes out unchanged. */
  lemma {:induction false} ShortChunkUnchanged(chunk: string)
    requires Trim(chunk) != "" && !IsIgnored(FilenameOf(chunk))
    requires |Split(chunk, Newline)| <= MaxLinesPerFile
    ensures ProcessChunk(chunk) == chunk
  {
  }

  lemma {:induction false} NoNewlineInBanner(dropped: nat)
    ensures '\n' !in Banner(dropped) && 'g' !in Banner(dropped)
  {
    var d := NatToString(dropped);
    assert '\n' !in d && 'g' !in d by {
      forall k | 0 <= k < |d| ensures d[k] != '\n' && d[k] != 'g' {
        assert IsDigit(d[k]);
      }
    }
  }

  /** A kept chunk of n > 50 lines becomes its first 50 lines followed by exactly one
      banner line that states n - 50. */
  lemma {:induction false} LongChunkTruncated(chunk: string)
    requires Trim(chunk) != "" && !IsIgnored(FilenameOf(chunk))
    requires |Split(chunk, Newline)| > MaxLinesPerFile
    ensures var lines := Split(chunk, Newline);
      Split(ProcessChunk(chunk), Newline) == lines[..MaxLinesPerFile] + [Banner(|lines| - MaxLinesPerFile)]
  {
    assert ProcessChunk(chunk) == CapLines(chunk);
    CapLinesLong(chunk);
  }

  lemma {:induction false} CapLinesLong(chunk: string)
    requires |Split(chunk, Newline)| > MaxLinesPerFile
    ensures var lines := Split(chunk, Newline);
      Split(CapLines(chunk), Newline) == lines[..MaxLinesPerFile] + [Banner(|lines| - MaxLinesPerFile)]
  {
    var lines := Split(chunk, Newline);
    assert CapLines(chunk) == Truncated(lines);
    assert forall k :: 0 <= k < |lines| ==> !Contains(lines[k], Newline) by {
      SplitPiecesAvoidSep(chunk, Newline);
    }
    TruncatedLines(lines);
  }

  lemma {:induction false} TruncatedLines(lines: seq<string>)
    requires |lines| > MaxLinesPerFile
    requires forall k :: 0 <= k < |lines| ==> !Contains(lines[k], Newline)
    ensures Split(Truncated(lines), Newline) == lines[..MaxLinesPerFile] + [Banner(|lines| - MaxLinesPerFile)]
  {
    var banner := Banner(|lines| - MaxLinesPerFile);
    var parts := lines[..MaxLinesPerFile] + [banner];
    NoNewlineInBanner(|lines| - MaxLinesPerFile);
    JoinSnoc(lines[..MaxLinesPerFile], banner, Newline);
    ContainsSingle(banner, '\n');
    assert forall k :: 0 <= k < |parts| ==> !Contains(parts[k], Newline) by {
      forall k | 0 <= k < |parts| ensures !Contains(parts[k], Newline) {
        if k < MaxLinesPerFile {
          assert parts[k] == lines[k];
        }
      }
    }
    SingleCharBorderFree('\n');
    SplitJoin(parts, Newline);
  }

  lemma {:induction false} FirstLineFacts(chunk: string)
    ensures FirstLine(chunk) == chunk[..|FirstLine(chunk)|] && '\n' !in FirstLine(chunk)
  {
    SplitPiecesAvoidSep(chunk, Newline);
    ContainsSingle(Split(chunk, Newline)[0], '\n');
  }

  /** Whatever the first line avoids, the filename avoids too (it is a slice of the
      first line or the word "unknown"). */
  lemma {:induction false} FilenameAvoids(chunk: string, t: string)
    requires !Contains(FirstLine(chunk), t) && !Contains("unknown", t)
    ensures !Contains(FilenameOf(chunk), t)
  {
    var firstLine := FirstLine(chunk);
    match FindCapture(firstLine, 0)
    case Some((i, j)) =>
      NotContainsSlice(firstLine, t, i + 2, j);
    case None =>
  }

  /** The placeholder and every kept chunk fit on at most 51 lines. */
  lemma {:induction false} ChunkLineBound(chunk: string)
    ensures |Split(ProcessChunk(chunk), Newline)| <= MaxLinesPerFile + 1
  {
    if Trim(chunk) == "" {
      SplitSingle("", Newline);
    } else if IsIgnored(FilenameOf(chunk)) {
      assert ProcessChunk(chunk) == Placeholder(FilenameOf(chunk));
      PlaceholderOneLine(chunk);
    } else {
      assert ProcessChunk(chunk) == CapLines(chunk);
      if |Split(chunk, Newline)| > MaxLinesPerFile {
        CapLinesLong(chunk);
      }
    }
  }

  /** A placeholder is a single line: the filename comes from the first line. */
  lemma {:induction false} PlaceholderOneLine(chunk: string)
    ensures Split(Placeholder(FilenameOf(chunk)), Newline) == [Placeholder(FilenameOf(chunk))]
  {
    var r := Placeholder(FilenameOf(chunk));
    assert '\n' !in FilenameOf(chunk) by {
      FirstLineFacts(chunk);
      ContainsSingle(FirstLine(chunk), '\n');
      ContainsSingle("unknown", '\n');
      FilenameAvoids(chunk, Newline);
      ContainsSingle(FilenameOf(chunk), '\n');
    }
    assert '\n' !in r;
    ContainsSingle(r, '\n');
    SplitSingle(r, Newline);
  }

  /** The file separator cannot overlap itself: only its first character is 'd'. */
  lemma {:induction false} SeparatorBorderFree()
    ensures BorderFree(FileSeparator)
  {
    var n := |FileSeparator|;
    assert 'd' !in FileSeparator[1..];
    forall k | 0 < k < n ensures FileSeparator[..k] != FileSeparator[n - k..] {
      assert FileSeparator[..k][0] == 'd';
      assert FileSeparator[n - k..][0] == FileSeparator[n - k] == FileSeparator[1..][n - k - 1];
    }
  }

  lemma {:induction false} NotContainsSkipped(name: string)
    requires !Contains(name, FileSeparator)
    ensures !Contains("(Skipped " + name + ")", FileSeparator)
  {
    var s := "d " + name;
    assert s[1..] == " " + name;
    assert (" " + name)[1..] == name;
    assert !StartsWith(" " + name, FileSeparator) by { assert (" " + name)[0] == ' '; }
    assert !StartsWith(s, FileSeparator) by { assert s[1] == ' '; }
    MissingCharNotContains("(Skipp", FileSeparator, 'g');
    NotContainsAround("(Skipp", 'e', s, FileSeparator);
    assert "(Skipp" + ['e'] + s == "(Skipped " + name;
    assert !Contains("", FileSeparator);
    NotContainsAround("(Skipped " + name, ')', "", FileSeparator);
    assert "(Skipped " + name + [')'] + "" == "(Skipped " + name + ")";
  }

  /** A chunk free of the file separator stays free of it after processing. */
  lemma {:induction false} ProcessedAvoidsSeparator(chunk: string)
    requires !Contains(chunk, FileSeparator)
    ensures !Contains(ProcessChunk(chunk), FileSeparator)
  {
    if Trim(chunk) == "" {
      assert !Contains("", FileSeparator);
    } else if IsIgnored(FilenameOf(chunk)) {
      assert !Contains(FilenameOf(chunk), FileSeparator) by {
        var firstLine := FirstLine(chunk);
        FirstLineFacts(chunk);
        NotContainsTake(chunk, FileSeparator, |firstLine|);
        MissingCharNotContains("unknown", FileSeparator, 'g');
        FilenameAvoids(chunk, FileSeparator);
      }
      NotContainsSkipped(FilenameOf(chunk));
    } else {
      CapLinesAvoidsSeparator(chunk);
    }
  }

  lemma {:induction false} CapLinesAvoidsSeparator(chunk: string)
    requires !Contains(chunk, FileSeparator)
    ensures !Contains(CapLines(chunk), FileSeparator)
  {
    var lines := Split(chunk, Newline);
    if |lines| > MaxLinesPerFile {
      assert CapLines(chunk) == Truncated(lines);
      var head := Join(lines[..MaxLinesPerFile], Newline);
      var banner := Banner(|lines| - MaxLinesPerFile);
      assert !Contains(head, FileSeparator) by {
        JoinSplitPrefix(chunk, Newline, MaxLinesPerFile);
        NotContainsTake(chunk, FileSeparator, |head|);
      }
      assert !Contains(banner, FileSeparator) by {
        NoNewlineInBanner(|lines| - MaxLinesPerFile);
        assert FileSeparator[7] == 'g';
        MissingCharNotContains(banner, FileSeparator, 'g');
      }
      assert !Contains(head + ['\n'] + banner, FileSeparator) by {
        assert '\n' !in FileSeparator;
        NotContainsAround(head, '\n', banner, FileSeparator);
      }
      assert head + ['\n'] + banner == Truncated(lines);
    }
  }

  /** The filter emits exactly one processed chunk per file chunk, in the original order:
      splitting its output on the separator gives back the processed chunks. */
  lemma {:induction false} FilterDiffChunks(diff: string)
    ensures Split(FilterDiff(diff), FileSeparator) == ProcessAll(Split(diff, FileSeparator))
  {
    var chunks := Split(diff, FileSeparator);
    var out := ProcessAll(chunks);
    SplitPiecesAvoidSep(diff, FileSeparator);
    forall k | 0 <= k < |out| ensures !Contains(out[k], FileSeparator) {
      ProcessedAvoidsSeparator(chunks[k]);
    }
    SeparatorBorderFree();
    SplitJoin(out, FileSeparator);
  }

  /** Every chunk of the filtered diff has at most 51 lines (50 kept plus the banner). */
  lemma {:induction false} FilterDiffLineBound(diff: string)
    ensures var out := Split(FilterDiff(diff), FileSeparator);
      forall k :: 0 <= k < |out| ==> |Split(out[k], Newline)| <= MaxLinesPerFile + 1
  {
    FilterDiffChunks(diff);
    var chunks := Split(diff, FileSeparator);
    forall k | 0 <= k < |chunks| ensures |Split(ProcessChunk(chunks[k]), Newline)| <= MaxLinesPerFile + 1 {
      ChunkLineBound(chunks[k]);
    }
  }

  /** A diff none of whose chunks is blank, ignored or longer than 50 lines passes the
      filter unchanged. */
  lemma {:induction false} FilterDiffIdentity(diff: string)
    requires forall c :: c in Split(diff, FileSeparator) ==>
      Trim(c) != "" && !IsIgnored(FilenameOf(c)) && |Split(c, Newline)| <= MaxLinesPerFile
    ensures FilterDiff(diff) == diff
  {
    var chunks := Split(diff, FileSeparator);
    assert ProcessAll(chunks) == chunks;
    JoinSplit(diff, FileSeparator);
  }
}
