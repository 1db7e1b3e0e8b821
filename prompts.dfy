/**
 * The two prompt builders: the extension's `constructPrompt` for the direct mode and the
 * relay's template in its `/generate` handler. Both are a fixed instruction text followed
 * by the commit messages, one per line, and a bounded prefix of the diff. The wording of
 * the instructions is not modelled: it is the `head` parameter, and only the structure
 * around the interpolated values and the bounds on them are.
 */
module Prompts {
  import opened Wrappers
  import opened Text

  /** `constructPrompt` keeps at most this many characters of the diff. */
  const LocalDiffLimit: nat := 30000

  /** The relay's limits when the environment does not override them. */
  const DefaultMaxCommits: int := 50
  const DefaultMaxDiff: int := 10000

  // ---------------------------------------------------------------------------
  // JavaScript slicing
  // ---------------------------------------------------------------------------

  /** Where `s.substring(0, end)` stops for a string of length `len`: `end` clamped into
      [0, len]. */
  function SubstringEnd(len: nat, end: int): (r: nat)
    ensures r <= len
    ensures end <= 0 ==> r == 0
    ensures 0 <= end <= len ==> r == end
    ensures len <= end ==> r == len
  {
    if end < 0 then 0 else if end > len then len else end
  }

  /** `s.substring(0, end)`. */
  function Substring(s: string, end: int): (r: string)
    ensures |r| == SubstringEnd(|s|, end)
    ensures r == s[..|r|]
  {
    s[..SubstringEnd(|s|, end)]
  }

  /** Where `xs.slice(0, end)` stops for an array of length `len`: a negative `end`
      counts back from the end of the array, and the result is clamped into [0, len]. */
  function SliceEnd(len: nat, end: int): (r: nat)
    ensures r <= len
    ensures 0 <= end ==> r == if end < len then end else len
    ensures end < 0 ==> r == if len + end > 0 then len + end else 0
  {
    if end < 0 then (if len + end > 0 then len + end else 0)
    else if end > len then len else end
  }

  /** `xs.slice(0, end)`. */
  function Slice(xs: seq<string>, end: int): (r: seq<string>)
    ensures |r| == SliceEnd(|xs|, end)
    ensures r == xs[..|r|]
  {
    xs[..SliceEnd(|xs|, end)]
  }

  // ---------------------------------------------------------------------------
  // The prompts
  // ---------------------------------------------------------------------------

  /** The part every prompt ends with: the commit lines and the diff excerpt, each under
      its heading, then the template's closing indentation. */
  function Sections(commits: seq<string>, diff: string, closing: string): string {
    "Commits:\n" + Join(commits, "\n") + "\n\nDiff:\n" + diff + closing
  }

  /** `constructPrompt(commits, diff)`: every commit, and the diff cut at 30000 characters. */
  function LocalPrompt(head: string, commits: seq<string>, diff: string): string {
    head + Sections(commits, Substring(diff, LocalDiffLimit), "\n  ")
  }

  /** The relay's template: the first `maxCommits` commits (as `slice` reads the bound)
      and the diff cut at `maxDiff` characters. */
  function RelayPrompt(head: string, commits: seq<string>, diff: string, maxCommits: int, maxDiff: int): string {
    head + Sections(Slice(commits, maxCommits), Substring(diff, maxDiff), "\n    ")
  }

  /** `Number(process.env.X) || d`: an unset or non-numeric variable (`None`) and the
      value 0, which is falsy, both give the default. */
  function ConfiguredLimit(env: Option<int>, default: int): (r: int)
    ensures env.Some? && env.value != 0 ==> r == env.value
    ensures env.None? || env.value == 0 ==> r == default
  {
    if env.Some? && env.value != 0 then env.value else default
  }

  // ---------------------------------------------------------------------------
  // Properties
  // ---------------------------------------------------------------------------

  /** `substring(0, end)` cuts the string in two: the excerpt and the rest make up the
      whole, and a larger bound never keeps less. */
  lemma {:induction false} SubstringCut(s: string, e1: int, e2: int)
    ensures Substring(s, e1) + s[|Substring(s, e1)|..] == s
    ensures e1 <= e2 ==> StartsWith(Substring(s, e2), Substring(s, e1))
  {
    var a := Substring(s, e1);
    assert a + s[|a|..] == s[..|a|] + s[|a|..];
    if e1 <= e2 {
      var b := Substring(s, e2);
      assert b[..|a|] == s[..|a|];
    }
  }

  /** `slice(0, end)` likewise cuts the list in two, and a larger bound of the same sign
      never keeps fewer entries. Across signs it can: `slice(0, -1)` keeps more than
      `slice(0, 0)`. */
  lemma {:induction false} SliceCut(xs: seq<string>, e1: int, e2: int)
    ensures Slice(xs, e1) + xs[|Slice(xs, e1)|..] == xs
    ensures (0 <= e1 <= e2 || e1 <= e2 < 0) ==> Slice(xs, e2)[..|Slice(xs, e1)|] == Slice(xs, e1)
    ensures |xs| > 1 ==> |Slice(xs, -1)| > |Slice(xs, 0)|
  {
    var a := Slice(xs, e1);
    assert a + xs[|a|..] == xs[..|a|] + xs[|a|..];
    if 0 <= e1 <= e2 || e1 <= e2 < 0 {
      var b := Slice(xs, e2);
      assert b[..|a|] == xs[..|a|];
    }
  }

  /** With both limits unset, or set to 0, the relay's prompt holds the first 50 commits
      (all of them when there are fewer) and the first 10000 characters of the diff. */
  lemma {:induction false} UnsetLimitsPrompt(head: string, commits: seq<string>, diff: string,
                                             envCommits: Option<int>, envDiff: Option<int>)
    requires envCommits.None? || envCommits.value == 0
    requires envDiff.None? || envDiff.value == 0
    ensures var c := if |commits| < 50 then |commits| else 50;
      var d := if |diff| < 10000 then |diff| else 10000;
      RelayPrompt(head, commits, diff, ConfiguredLimit(envCommits, DefaultMaxCommits), ConfiguredLimit(envDiff, DefaultMaxDiff))
        == head + Sections(commits[..c], diff[..d], "\n    ")
  {
    DefaultLimits(envCommits);
    DefaultLimits(envDiff);
  }

  /** The sections open with the commit text under its heading and close with the diff
      excerpt and the closing indentation. */
  lemma {:induction false} SectionsPrefix(commits: seq<string>, diff: string, closing: string)
    ensures StartsWith(Sections(commits, diff, closing), "Commits:\n" + Join(commits, "\n") + "\n\nDiff:\n")
    ensures EndsWith(Sections(commits, diff, closing), diff + closing)
  {
    var p := "Commits:\n" + Join(commits, "\n") + "\n\nDiff:\n";
    var s := Sections(commits, diff, closing);
    assert s == p + (diff + closing);
    assert s[..|p|] == p;
    assert s[|s| - |diff + closing|..] == diff + closing;
  }

  /** The extension's prompt carries every commit message and exactly the first
      min(|diff|, 30000) characters of the diff. */
  lemma {:induction false} LocalPromptContents(head: string, commits: seq<string>, diff: string)
    ensures var n := if |diff| < LocalDiffLimit then |diff| else LocalDiffLimit;
      var p := LocalPrompt(head, commits, diff);
      StartsWith(p, head + "Commits:\n" + Join(commits, "\n") + "\n\nDiff:\n")
      && EndsWith(p, diff[..n] + "\n  ")
  {
    var n := if |diff| < LocalDiffLimit then |diff| else LocalDiffLimit;
    var d := Substring(diff, LocalDiffLimit);
    assert d == diff[..n];
    SectionsPrefix(commits, d, "\n  ");
    var s := Sections(commits, d, "\n  ");
    var pre := "Commits:\n" + Join(commits, "\n") + "\n\nDiff:\n";
    var p := head + s;
    assert p[..|head + pre|] == head + s[..|pre|];
    assert p[|p| - |d + "\n  "|..] == s[|s| - |d + "\n  "|..];
  }

  /** A diff of at most 30000 characters reaches the model whole. */
  lemma {:induction false} ShortDiffWhole(head: string, commits: seq<string>, diff: string)
    requires |diff| <= LocalDiffLimit
    ensures LocalPrompt(head, commits, diff) == head + Sections(commits, diff, "\n  ")
  {
    assert Substring(diff, LocalDiffLimit) == diff;
  }

  /** The relay's prompt embeds a prefix of the commit list of at most `maxCommits`
      entries (for a bound of at least 0) and a prefix of the diff of at most `maxDiff`
      characters. */
  lemma {:induction false} RelayPromptBounds(head: string, commits: seq<string>, diff: string, maxCommits: int, maxDiff: int)
    ensures var shown := Slice(commits, maxCommits);
      RelayPrompt(head, commits, diff, maxCommits, maxDiff) == head + Sections(shown, Substring(diff, maxDiff), "\n    ")
      && shown == commits[..|shown|]
      && (0 <= maxCommits ==> |shown| <= maxCommits)
      && (0 <= maxCommits <= |commits| ==> |shown| == maxCommits)
    ensures var d := Substring(diff, maxDiff);
      d == diff[..|d|] && (0 <= maxDiff ==> |d| <= maxDiff) && (maxDiff <= 0 ==> d == "")
      && (maxDiff >= |diff| ==> d == diff)
  {
  }

  /** With the defaults the relay keeps the first 50 commits and 10000 characters of the
      diff, and a limit configured as 0 also means the default. */
  lemma {:induction false} DefaultLimits(env: Option<int>)
    requires env.None? || env.value == 0
    ensures ConfiguredLimit(env, DefaultMaxCommits) == 50
    ensures ConfiguredLimit(env, DefaultMaxDiff) == 10000
  {
  }

  /** A negative commit limit drops that many commits from the end rather than keeping
      none: `slice(0, -1)` keeps all but the last. */
  lemma {:induction false} NegativeCommitLimit(commits: seq<string>, k: int)
    requires 0 < k <= |commits|
    ensures Slice(commits, -k) == commits[..|commits| - k]
  {
  }

  /** Commit lines can be told apart in the prompt: splitting the commit text on the
      newline gives the commits back when none of them spans several lines. */
  lemma {:induction false} CommitLinesRecoverable(commits: seq<string>)
    requires |commits| >= 1 && forall k :: 0 <= k < |commits| ==> '\n' !in commits[k]
    ensures Split(Join(commits, "\n"), "\n") == commits
  {
    forall k | 0 <= k < |commits| ensures !Contains(commits[k], "\n") {
      ContainsSingle(commits[k], '\n');
    }
    SingleCharBorderFree('\n');
    SplitJoin(commits, "\n");
  }
}
