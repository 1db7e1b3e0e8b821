/**
 * The JavaScript string built-ins the pipeline leans on, over `seq<char>`:
 * `split` and `join` with a literal separator, `includes`, `startsWith`/`endsWith`,
 * `trim`, and the decimal rendering of integers (`toString`, template interpolation).
 */
module Text {

  /** The characters `String.prototype.trim` removes and the regex class `\s` matches:
      ECMAScript WhiteSpace (TAB, VT, FF, ZWNBSP and every Zs space) plus LineTerminator. */
  predicate IsJsSpace(c: char) {
    var n := c as int;
    n == 0x09 || n == 0x0A || n == 0x0B || n == 0x0C || n == 0x0D || n == 0x20 || n == 0xA0
    || n == 0x1680 || (0x2000 <= n <= 0x200A) || n == 0x2028 || n == 0x2029 || n == 0x202F
    || n == 0x205F || n == 0x3000 || n == 0xFEFF
  }

  /** ECMAScript LineTerminator: regex `.` never matches one, and under the `m` flag
      `^` and `$` match right after and right before one. */
  predicate IsLineTerminator(c: char) {
    c == '\n' || c == '\r' || c as int == 0x2028 || c as int == 0x2029
  }

  predicate IsDigit(c: char) {
    '0' <= c <= '9'
  }

  predicate StartsWith(s: string, p: string) {
    |p| <= |s| && s[..|p|] == p
  }

  predicate EndsWith(s: string, p: string) {
    |p| <= |s| && s[|s| - |p|..] == p
  }

  /** `s.includes(t)`: `t` starts at `s`'s first index or occurs in the rest. */
  predicate Contains(s: string, t: string)
    decreases |s|
  {
    StartsWith(s, t) || (|s| > 0 && Contains(s[1..], t))
  }

  /** `t` occurs in `s` starting at index `p`. */
  predicate OccursAt(s: string, t: string, p: int) {
    0 <= p <= |s| - |t| && s[p..p + |t|] == t
  }

  /** The recursive `Contains` is the index-based "occurs at some position". */
  lemma {:induction false} ContainsIff(s: string, t: string)
    ensures Contains(s, t) <==> exists p :: OccursAt(s, t, p)
    decreases |s|
  {
    if Contains(s, t) {
      if StartsWith(s, t) {
        assert OccursAt(s, t, 0);
      } else {
        ContainsIff(s[1..], t);
        var p :| OccursAt(s[1..], t, p);
        assert s[p + 1..p + 1 + |t|] == s[1..][p..p + |t|];
        assert OccursAt(s, t, p + 1);
      }
    }
    if p :| OccursAt(s, t, p) {
      if p == 0 {
        assert StartsWith(s, t);
      } else {
        assert s[1..][p - 1..p - 1 + |t|] == s[p..p + |t|];
        assert OccursAt(s[1..], t, p - 1);
        ContainsIff(s[1..], t);
      }
    }
  }

  /** Every character of an occurring string is a character of the host. */
  lemma {:induction false} ContainsChars(s: string, t: string, k: nat)
    requires Contains(s, t) && k < |t|
    ensures t[k] in s
    decreases |s|
  {
    if StartsWith(s, t) {
      assert s[k] == t[k];
    } else {
      ContainsChars(s[1..], t, k);
    }
  }

  /** A string that lacks some character of `t` cannot contain `t`. */
  lemma {:induction false} MissingCharNotContains(s: string, t: string, c: char)
    requires c in t && c !in s
    ensures !Contains(s, t)
  {
    if Contains(s, t) {
      var k :| 0 <= k < |t| && t[k] == c;
      ContainsChars(s, t, k);
    }
  }

  /** Removing characters at the front cannot create an occurrence. */
  lemma {:induction false} NotContainsDrop(s: string, t: string, k: nat)
    requires !Contains(s, t) && k <= |s|
    ensures !Contains(s[k..], t)
    decreases k
  {
    if k > 0 {
      assert s[k..] == s[1..][k - 1..];
      NotContainsDrop(s[1..], t, k - 1);
    }
  }

  /** Removing characters at the back cannot create an occurrence. */
  lemma {:induction false} NotContainsTake(s: string, t: string, k: nat)
    requires !Contains(s, t) && k <= |s|
    ensures !Contains(s[..k], t)
    decreases |s|
  {
    if |t| <= k {
      assert s[..|t|] == s[..k][..|t|];
    }
    if k > 0 {
      assert s[..k][1..] == s[1..][..k - 1];
      NotContainsTake(s[1..], t, k - 1);
    }
  }

  lemma {:induction false} NotContainsSlice(s: string, t: string, i: nat, j: nat)
    requires !Contains(s, t) && i <= j <= |s|
    ensures !Contains(s[i..j], t)
  {
    NotContainsTake(s, t, j);
    assert s[i..j] == s[..j][i..];
    NotContainsDrop(s[..j], t, i);
  }

  /** Gluing two strings free of `t` around a character that `t` lacks creates no
      occurrence: every window of length |t| either sits inside one part or covers `c`. */
  lemma {:induction false} NotContainsAround(x: string, c: char, y: string, t: string)
    requires !Contains(x, t) && !Contains(y, t) && c !in t
    ensures !Contains(x + [c] + y, t)
    decreases |x|
  {
    var s := x + [c] + y;
    if |t| <= |x| {
      assert s[..|t|] == x[..|t|];
    } else if |t| <= |s| {
      assert s[..|t|][|x|] == c;
    }
    assert !StartsWith(s, t);
    if |x| == 0 {
      assert s[1..] == y;
    } else {
      assert s[1..] == x[1..] + [c] + y;
      NotContainsAround(x[1..], c, y, t);
    }
  }

  /** A one-character string occurs exactly where its character does. */
  lemma {:induction false} ContainsSingle(s: string, c: char)
    ensures Contains(s, [c]) <==> c in s
  {
    if Contains(s, [c]) {
      ContainsChars(s, [c], 0);
    }
    if c in s {
      var p :| 0 <= p < |s| && s[p] == c;
      assert s[p..p + 1] == [c];
      assert OccursAt(s, [c], p);
      ContainsIff(s, [c]);
    }
  }

  /** The first line terminator at or after `from`, or |s| when there is none. */
  function LineEnd(s: string, from: nat): (e: nat)
    requires from <= |s|
    ensures from <= e <= |s| && (e < |s| ==> IsLineTerminator(s[e]))
    ensures forall k :: from <= k < e ==> !IsLineTerminator(s[k])
    decreases |s| - from
  {
    if from == |s| || IsLineTerminator(s[from]) then from else LineEnd(s, from + 1)
  }

  /** `s.split(sep)` for a non-empty literal separator: occurrences are cut left to right,
      never overlapping; a string without one is a single piece. */
  function Split(s: string, sep: string): (r: seq<string>)
    requires |sep| > 0
    ensures |r| >= 1 && |r[0]| <= |s| && r[0] == s[..|r[0]|]
    decreases |s|
  {
    if |s| < |sep| then [s]
    else if s[..|sep|] == sep then [""] + Split(s[|sep|..], sep)
    else
      var rest := Split(s[1..], sep);
      [[s[0]] + rest[0]] + rest[1..]
  }

  /** `parts.join(sep)`. */
  function Join(parts: seq<string>, sep: string): string {
    if |parts| == 0 then ""
    else if |parts| == 1 then parts[0]
    else parts[0] + sep + Join(parts[1..], sep)
  }

  lemma {:induction false} JoinSnoc(parts: seq<string>, last: string, sep: string)
    requires |parts| >= 1
    ensures Join(parts + [last], sep) == Join(parts, sep) + sep + last
    decreases |parts|
  {
    if |parts| > 1 {
      assert (parts + [last])[1..] == parts[1..] + [last];
      JoinSnoc(parts[1..], last, sep);
    }
  }

  lemma {:induction false} JoinAppend(xs: seq<string>, ys: seq<string>, sep: string)
    requires |xs| >= 1 && |ys| >= 1
    ensures Join(xs + ys, sep) == Join(xs, sep) + sep + Join(ys, sep)
    decreases |xs|
  {
    if |xs| > 1 {
      assert (xs + ys)[1..] == xs[1..] + ys;
      JoinAppend(xs[1..], ys, sep);
    }
  }

  /** Part `k` of a join sits between the join of the parts before it and the join of the
      parts after it, each with its separator. */
  lemma {:induction false} JoinAround(parts: seq<string>, k: nat, sep: string)
    requires k < |parts|
    ensures Join(parts, sep)
      == (if k == 0 then "" else Join(parts[..k], sep) + sep) + parts[k]
         + (if k + 1 == |parts| then "" else sep + Join(parts[k + 1..], sep))
  {
    var tail := parts[k..];
    assert tail[1..] == parts[k + 1..];
    assert Join(tail, sep) == parts[k] + (if k + 1 == |parts| then "" else sep + Join(parts[k + 1..], sep));
    if k > 0 {
      assert parts[..k] + tail == parts;
      JoinAppend(parts[..k], tail, sep);
    } else {
      assert tail == parts;
    }
  }

  /** Joining the pieces of a split with the same separator gives the original string. */
  lemma {:induction false} JoinSplit(s: string, sep: string)
    requires |sep| > 0
    ensures Join(Split(s, sep), sep) == s
    decreases |s|
  {
    if |s| < |sep| {
    } else if s[..|sep|] == sep {
      var rest := Split(s[|sep|..], sep);
      assert Join(rest, sep) == s[|sep|..] by {
        JoinSplit(s[|sep|..], sep);
      }
      var parts := [""] + rest;
      assert Split(s, sep) == parts;
      assert parts[1..] == rest;
      assert Join(parts, sep) == "" + sep + Join(rest, sep);
      assert s == sep + s[|sep|..];
    } else {
      var rest := Split(s[1..], sep);
      assert Join(rest, sep) == s[1..] by {
        JoinSplit(s[1..], sep);
      }
      var r := [[s[0]] + rest[0]] + rest[1..];
      assert Split(s, sep) == r;
      if |rest| == 1 {
        assert Join(r, sep) == [s[0]] + rest[0];
        assert s == [s[0]] + s[1..];
      } else {
        assert r[1..] == rest[1..];
        assert Join(rest, sep) == rest[0] + sep + Join(rest[1..], sep);
        assert Join(r, sep) == ([s[0]] + rest[0]) + sep + Join(rest[1..], sep);
        assert s == [s[0]] + s[1..];
      }
    }
  }

  /** The first `n` pieces of a split, rejoined, are a prefix of the split string. */
  lemma {:induction false} JoinSplitPrefix(s: string, sep: string, n: nat)
    requires |sep| > 0 && 1 <= n <= |Split(s, sep)|
    ensures var head := Join(Split(s, sep)[..n], sep); |head| <= |s| && head == s[..|head|]
  {
    var parts := Split(s, sep);
    JoinSplit(s, sep);
    if n < |parts| {
      assert parts == parts[..n] + parts[n..];
      JoinAppend(parts[..n], parts[n..], sep);
    } else {
      assert parts[..n] == parts;
    }
  }

  /** No piece of a split contains the separator. */
  lemma {:induction false} SplitPiecesAvoidSep(s: string, sep: string)
    requires |sep| > 0
    ensures forall k :: 0 <= k < |Split(s, sep)| ==> !Contains(Split(s, sep)[k], sep)
    decreases |s|
  {
    var r := Split(s, sep);
    if |s| < |sep| {
      NotContainsShort(s, sep);
    } else if s[..|sep|] == sep {
      SplitPiecesAvoidSep(s[|sep|..], sep);
      assert !Contains("", sep);
      assert forall k :: 1 <= k < |r| ==> r[k] == Split(s[|sep|..], sep)[k - 1];
    } else {
      SplitPiecesAvoidSep(s[1..], sep);
      var rest := Split(s[1..], sep);
      var first := [s[0]] + rest[0];
      assert first == s[..|first|];
      if |sep| <= |first| {
        assert s[..|sep|] == first[..|sep|];
      }
      assert first[1..] == rest[0];
      assert !Contains(first, sep);
      assert forall k :: 1 <= k < |r| ==> r[k] == rest[k];
    }
  }

  lemma {:induction false} NotContainsShort(s: string, t: string)
    requires |s| < |t|
    ensures !Contains(s, t)
    decreases |s|
  {
    if |s| > 0 {
      NotContainsShort(s[1..], t);
    }
  }

  /** No proper non-empty prefix of `sep` is also a suffix of it, so two occurrences
      of `sep` can never overlap. */
  predicate BorderFree(sep: string) {
    forall k :: 0 < k < |sep| ==> sep[..k] != sep[|sep| - k..]
  }

  lemma {:induction false} SplitSingle(p: string, sep: string)
    requires |sep| > 0 && !Contains(p, sep)
    ensures Split(p, sep) == [p]
    decreases |p|
  {
    if |p| >= |sep| {
      assert p[..|sep|] != sep by { assert !StartsWith(p, sep); }
      SplitSingle(p[1..], sep);
      assert [p[0]] + p[1..] == p;
    }
  }

  lemma {:induction false} SplitCons(p: string, sep: string, t: string)
    requires |sep| > 0 && BorderFree(sep) && !Contains(p, sep)
    ensures Split(p + sep + t, sep) == [p] + Split(t, sep)
    decreases |p|
  {
    var s := p + sep + t;
    if |p| == 0 {
      assert s[..|sep|] == sep;
      assert s[|sep|..] == t;
    } else {
      if |p| >= |sep| {
        assert s[..|sep|] == p[..|sep|];
      } else {
        // a match at index 0 would make sep[..k] a border of sep
        var k := |sep| - |p|;
        assert sep[..k] != sep[|sep| - k..];
        var i :| 0 <= i < k && sep[..k][i] != sep[|sep| - k..][i];
        assert s[|p| + i] == sep[i];
        assert s[..|sep|][|p| + i] != sep[|p| + i];
      }
      assert s[..|sep|] != sep;
      assert s[1..] == p[1..] + sep + t;
      SplitCons(p[1..], sep, t);
      assert [s[0]] + p[1..] == p;
    }
  }

  /** For a border-free separator, splitting rejoined pieces that avoid the separator
      recovers exactly those pieces, in order. */
  lemma {:induction false} SplitJoin(parts: seq<string>, sep: string)
    requires |sep| > 0 && BorderFree(sep) && |parts| >= 1
    requires forall k :: 0 <= k < |parts| ==> !Contains(parts[k], sep)
    ensures Split(Join(parts, sep), sep) == parts
    decreases |parts|
  {
    if |parts| == 1 {
      SplitSingle(parts[0], sep);
    } else {
      SplitJoin(parts[1..], sep);
      SplitCons(parts[0], sep, Join(parts[1..], sep));
    }
  }

  /** A one-character separator cannot overlap itself. */
  lemma {:induction false} SingleCharBorderFree(c: char)
    ensures BorderFree([c])
  {
  }

  /** How many whitespace characters `s` starts with. */
  function LeadingSpaces(s: string): (n: nat)
    ensures n <= |s|
    ensures forall k :: 0 <= k < n ==> IsJsSpace(s[k])
    ensures n < |s| ==> !IsJsSpace(s[n])
    decreases |s|
  {
    if |s| > 0 && IsJsSpace(s[0]) then 1 + LeadingSpaces(s[1..]) else 0
  }

  /** How many whitespace characters `s` ends with. */
  function TrailingSpaces(s: string): (n: nat)
    ensures n <= |s|
    ensures forall k :: |s| - n <= k < |s| ==> IsJsSpace(s[k])
    ensures n < |s| ==> !IsJsSpace(s[|s| - n - 1])
    decreases |s|
  {
    if |s| > 0 && IsJsSpace(s[|s| - 1]) then 1 + TrailingSpaces(s[..|s| - 1]) else 0
  }

  /** `s.trimStart()` with the `trim` character set. */
  function TrimStart(s: string): (r: string)
    ensures |r| <= |s| && r == s[|s| - |r|..]
    ensures forall k :: 0 <= k < |s| - |r| ==> IsJsSpace(s[k])
    ensures |r| > 0 ==> !IsJsSpace(r[0])
  {
    s[LeadingSpaces(s)..]
  }

  /** `s.trimEnd()` with the `trim` character set. */
  function TrimEnd(s: string): (r: string)
    ensures |r| <= |s| && r == s[..|r|]
    ensures forall k :: |r| <= k < |s| ==> IsJsSpace(s[k])
    ensures |r| > 0 ==> !IsJsSpace(r[|r| - 1])
  {
    s[..|s| - TrailingSpaces(s)]
  }

  /** `s.trim()`. */
  function Trim(s: string): string {
    TrimEnd(TrimStart(s))
  }

  /** `trim` keeps exactly the span from the first to the last non-whitespace character:
      everything before index `i` and after the kept span is whitespace. */
  lemma {:induction false} TrimSpan(s: string)
    ensures var r := Trim(s); var i := |s| - |TrimStart(s)|;
      i + |r| <= |s| && r == s[i..i + |r|]
      && (forall k :: 0 <= k < i ==> IsJsSpace(s[k]))
      && (forall k :: i + |r| <= k < |s| ==> IsJsSpace(s[k]))
      && (|r| > 0 ==> !IsJsSpace(r[0]) && !IsJsSpace(r[|r| - 1]))
  {
    var a := TrimStart(s);
    var r := TrimEnd(a);
    InnerSpan(s, |s| - |a|, a, r);
  }

  /** A prefix `r` of the suffix `a` of `s` starting at `i` is the slice of `s` from `i`,
      and what follows it in `a` follows it in `s`. */
  lemma {:induction false} InnerSpan(s: string, i: nat, a: string, r: string)
    requires i <= |s| && a == s[i..] && |r| <= |a| && r == a[..|r|]
    requires forall k :: |r| <= k < |a| ==> IsJsSpace(a[k])
    ensures i + |r| <= |s| && r == s[i..i + |r|]
    ensures forall k :: i + |r| <= k < |s| ==> IsJsSpace(s[k])
  {
    forall k | i + |r| <= k < |s| ensures IsJsSpace(s[k]) {
      assert s[k] == a[k - i];
    }
  }

  /** `!s.trim()` (the trimmed string is empty) exactly when every character is whitespace. */
  lemma {:induction false} TrimEmptyIff(s: string)
    ensures Trim(s) == "" <==> forall k :: 0 <= k < |s| ==> IsJsSpace(s[k])
  {
    var a := TrimStart(s);
    if |a| > 0 {
      assert a[0] == s[|s| - |a|];
    }
  }

  function DigitChar(d: nat): (c: char)
    requires d < 10
    ensures IsDigit(c)
  {
    ('0' as int + d) as char
  }

  /** The decimal digits of `n`, most significant first, as `String(n)` renders them. */
  function NatToString(n: nat): (r: string)
    ensures |r| >= 1 && forall k :: 0 <= k < |r| ==> IsDigit(r[k])
    decreases n
  {
    if n < 10 then [DigitChar(n)] else NatToString(n / 10) + [DigitChar(n % 10)]
  }

  /** The value of a decimal digit character. */
  function DigitValue(c: char): int {
    c as int - '0' as int
  }

  /** The number a string of decimal digits denotes. */
  function DigitsValue(s: string): int {
    if |s| == 0 then 0 else 10 * DigitsValue(s[..|s| - 1]) + DigitValue(s[|s| - 1])
  }

  /** Reading back the rendering of `n` gives `n`: the rendering loses nothing. */
  lemma {:induction false} NatToStringValue(n: nat)
    ensures DigitsValue(NatToString(n)) == n
    decreases n
  {
    var r := NatToString(n);
    if n >= 10 {
      NatToStringValue(n / 10);
      assert r[..|r| - 1] == NatToString(n / 10);
    }
  }

  /** `String(i)` for an integer: a minus sign before the digits of a negative value. */
  function IntToString(i: int): (r: string)
    ensures |r| >= 1
  {
    if i < 0 then "-" + NatToString(-i) else NatToString(i)
  }

  /** The integer a decimal string with an optional leading minus sign denotes. */
  function ParseInt(s: string): int {
    if |s| > 0 && s[0] == '-' then -DigitsValue(s[1..]) else DigitsValue(s)
  }

  /** `ParseInt` inverts `IntToString`. */
  lemma {:induction false} IntToStringValue(i: int)
    ensures ParseInt(IntToString(i)) == i
  {
    if i < 0 {
      NatToStringValue(-i);
      assert IntToString(i)[1..] == NatToString(-i);
    } else {
      NatToStringValue(i);
      assert IsDigit(NatToString(i)[0]);
    }
  }

  /** Distinct integers render to distinct strings. */
  lemma {:induction false} IntToStringInjective(a: int, b: int)
    ensures IntToString(a) == IntToString(b) <==> a == b
  {
    IntToStringValue(a);
    IntToStringValue(b);
  }
}
