/**
 * Base64 as `btoa` and `atob` apply it: the encoding of section 4 of RFC 4648 (the
 * standard alphabet, `=` padding to a multiple of four characters), and the
 * forgiving-base64 decode of the WHATWG Infra standard that `atob` runs, which skips
 * ASCII whitespace, accepts the padding only where it belongs and fails on anything else.
 * Both work on "binary strings", strings whose characters are all below U+0100, one per
 * byte.
 */
module Base64 {
  import opened Wrappers
  import opened Text

  // ---------------------------------------------------------------------------
  // Bytes and binary strings
  // ---------------------------------------------------------------------------

  predicate IsBinaryString(s: string) {
    forall k :: 0 <= k < |s| ==> s[k] as int < 0x100
  }

  /** `String.fromCharCode(...bytes)`: one character per byte. */
  function FromCharCodes(bytes: seq<bv8>): (r: string)
    ensures |r| == |bytes| && IsBinaryString(r)
    ensures forall k :: 0 <= k < |r| ==> r[k] as int == bytes[k] as int
  {
    seq(|bytes|, i requires 0 <= i < |bytes| => (bytes[i] as int) as char)
  }

  /** `charCodeAt(i)` of every character of a binary string, as bytes. */
  function CharCodes(s: string): (r: seq<bv8>)
    requires IsBinaryString(s)
    ensures |r| == |s|
  {
    seq(|s|, i requires 0 <= i < |s| => (s[i] as int) as bv8)
  }

  /** Reading back the character codes of `String.fromCharCode(...bytes)` gives the
      bytes. */
  lemma {:induction false} CharCodesInverse(bytes: seq<bv8>)
    ensures CharCodes(FromCharCodes(bytes)) == bytes
  {
    var b := CharCodes(FromCharCodes(bytes));
    forall k | 0 <= k < |b| ensures b[k] == bytes[k] {
      assert FromCharCodes(bytes)[k] as int == bytes[k] as int;
    }
  }

  // ---------------------------------------------------------------------------
  // The alphabet
  // ---------------------------------------------------------------------------

  /** The character for a 6-bit value: A-Z, a-z, 0-9, '+', '/'. */
  function AlphabetChar(x: bv8): (c: char)
    requires x < 64
  {
    var n := x as int;
    if n < 26 then ('A' as int + n) as char
    else if n < 52 then ('a' as int + (n - 26)) as char
    else if n < 62 then ('0' as int + (n - 52)) as char
    else if n == 62 then '+'
    else '/'
  }

  predicate IsAlphabetChar(c: char) {
    ('A' <= c <= 'Z') || ('a' <= c <= 'z') || ('0' <= c <= '9') || c == '+' || c == '/'
  }

  /** The 6-bit value of an alphabet character. */
  function AlphabetValue(c: char): (x: bv8)
    requires IsAlphabetChar(c)
    ensures x < 64
  {
    var n := if 'A' <= c <= 'Z' then c as int - 'A' as int
      else if 'a' <= c <= 'z' then c as int - 'a' as int + 26
      else if '0' <= c <= '9' then c as int - '0' as int + 52
      else if c == '+' then 62
      else 63;
    n as bv8
  }

  /** The alphabet is a bijection between 6-bit values and its 64 characters. */
  lemma {:induction false} AlphabetRoundTrip(x: bv8)
    requires x < 64
    ensures IsAlphabetChar(AlphabetChar(x)) && AlphabetChar(x) != '='
    ensures AlphabetValue(AlphabetChar(x)) == x
  {
  }

  // ---------------------------------------------------------------------------
  // Encoding
  // ---------------------------------------------------------------------------

  predicate AllAlphabet(s: string) {
    forall k :: 0 <= k < |s| ==> IsAlphabetChar(s[k])
  }

  /** The four 6-bit slices of three bytes, high bits first. */
  function Sextets(b0: bv8, b1: bv8, b2: bv8): (r: seq<bv8>)
    ensures |r| == 4 && forall k :: 0 <= k < 4 ==> r[k] < 64
  {
    [b0 >> 2, ((b0 & 3) << 4) | (b1 >> 4), ((b1 & 15) << 2) | (b2 >> 6), b2 & 63]
  }

  /** The three bytes four 6-bit values hold. */
  function Octets(s0: bv8, s1: bv8, s2: bv8, s3: bv8): seq<bv8> {
    [(s0 << 2) | (s1 >> 4), ((s1 & 15) << 4) | (s2 >> 2), ((s2 & 3) << 6) | s3]
  }

  /** Regrouping the bits of three bytes into sextets and back loses nothing. */
  lemma {:induction false} SextetsOctets(b0: bv8, b1: bv8, b2: bv8)
    ensures var x := Sextets(b0, b1, b2); Octets(x[0], x[1], x[2], x[3]) == [b0, b1, b2]
  {
    assert ((b0 >> 2) << 2) | ((((b0 & 3) << 4) | (b1 >> 4)) >> 4) == b0;
    assert (((((b0 & 3) << 4) | (b1 >> 4)) & 15) << 4) | ((((b1 & 15) << 2) | (b2 >> 6)) >> 2) == b1;
    assert (((((b1 & 15) << 2) | (b2 >> 6)) & 3) << 6) | (b2 & 63) == b2;
  }

  /** The characters for a group of three bytes. */
  function EncodeGroup(b0: bv8, b1: bv8, b2: bv8): (r: string)
    ensures |r| == 4 && AllAlphabet(r)
  {
    var x := Sextets(b0, b1, b2);
    AlphabetRoundTrip(x[0]);
    AlphabetRoundTrip(x[1]);
    AlphabetRoundTrip(x[2]);
    AlphabetRoundTrip(x[3]);
    [AlphabetChar(x[0]), AlphabetChar(x[1]), AlphabetChar(x[2]), AlphabetChar(x[3])]
  }

  /** The encoding without its padding: a final group of one or two bytes is zero-filled
      to a whole number of 6-bit slices and gives two or three characters. */
  function EncodeUnpadded(b: seq<bv8>): (r: string)
    ensures |r| == (|b| / 3) * 4 + (if |b| % 3 == 0 then 0 else |b| % 3 + 1)
    ensures |r| % 4 != 1
    ensures AllAlphabet(r)
    decreases |b|
  {
    if |b| == 0 then ""
    else if |b| == 1 then EncodeGroup(b[0], 0, 0)[..2]
    else if |b| == 2 then EncodeGroup(b[0], b[1], 0)[..3]
    else EncodeGroup(b[0], b[1], b[2]) + EncodeUnpadded(b[3..])
  }

  /** The `=` characters that fill the last group to four. */
  function Padding(n: nat): string {
    if n % 3 == 1 then "==" else if n % 3 == 2 then "=" else ""
  }

  /** The RFC 4648 encoding of `b`. */
  function Encode(b: seq<bv8>): string {
    EncodeUnpadded(b) + Padding(|b|)
  }

  /** `btoa` of a binary string. */
  function Btoa(s: string): string
    requires IsBinaryString(s)
  {
    Encode(CharCodes(s))
  }

  /** Every three bytes take four characters, a partial last group included. */
  lemma {:induction false} EncodeLength(b: seq<bv8>)
    ensures |Encode(b)| == 4 * ((|b| + 2) / 3)
    ensures |Encode(b)| % 4 == 0
  {
  }

  // ---------------------------------------------------------------------------
  // Forgiving decoding
  // ---------------------------------------------------------------------------

  /** ASCII whitespace as the Infra standard defines it: TAB, LF, FF, CR and SPACE. */
  predicate IsAsciiWhitespace(c: char) {
    c == '\t' || c == '\n' || c as int == 0x0C || c == '\r' || c == ' '
  }

  /** The input with every ASCII whitespace character removed. */
  function RemoveWhitespace(s: string): (r: string)
    ensures |r| <= |s|
    ensures forall k :: 0 <= k < |r| ==> !IsAsciiWhitespace(r[k])
  {
    if |s| == 0 then ""
    else if IsAsciiWhitespace(s[0]) then RemoveWhitespace(s[1..])
    else [s[0]] + RemoveWhitespace(s[1..])
  }

  /** A length divisible by four may end in one or two `=`, which are removed. */
  function DropPadding(s: string): (r: string)
    ensures |r| <= |s| && r == s[..|r|]
  {
    if |s| % 4 == 0 && EndsWith(s, "==") then s[..|s| - 2]
    else if |s| % 4 == 0 && EndsWith(s, "=") then s[..|s| - 1]
    else s
  }

  /** Bytes from alphabet characters: four characters give three bytes, and two or three
      final characters give one or two, their leftover bits discarded. */
  function DecodeChars(t: string): (r: seq<bv8>)
    requires AllAlphabet(t) && |t| % 4 != 1
    ensures |r| == (|t| / 4) * 3 + (if |t| % 4 == 0 then 0 else |t| % 4 - 1)
    decreases |t|
  {
    if |t| == 0 then []
    else
      var s0 := AlphabetValue(t[0]);
      var s1 := AlphabetValue(t[1]);
      var s2 := if |t| >= 3 then AlphabetValue(t[2]) else 0;
      var s3 := if |t| >= 4 then AlphabetValue(t[3]) else 0;
      var group := Octets(s0, s1, s2, s3);
      if |t| == 2 then group[..1]
      else if |t| == 3 then group[..2]
      else group + DecodeChars(t[4..])
  }

  /** The forgiving-base64 decode: `None` where `atob` throws. */
  function Decode(s: string): (r: Option<seq<bv8>>)
    ensures r.Some? <==> var t := DropPadding(RemoveWhitespace(s)); |t| % 4 != 1 && AllAlphabet(t)
  {
    var t := DropPadding(RemoveWhitespace(s));
    if |t| % 4 == 1 || !AllAlphabet(t) then None else Some(DecodeChars(t))
  }

  /** `atob`: the decoded bytes as a binary string. */
  function Atob(s: string): (r: Option<string>)
    ensures r.Some? <==> Decode(s).Some?
    ensures r.Some? ==> IsBinaryString(r.value) && CharCodes(r.value) == Decode(s).value
  {
    match Decode(s)
    case None => None
    case Some(b) =>
      CharCodesInverse(b);
      Some(FromCharCodes(b))
  }

  // ---------------------------------------------------------------------------
  // Round trip
  // ---------------------------------------------------------------------------

  /** The characters of one group decode to its sextets. */
  lemma {:induction false} GroupRoundTrip(b0: bv8, b1: bv8, b2: bv8)
    ensures var g := EncodeGroup(b0, b1, b2); var x := Sextets(b0, b1, b2);
      AlphabetValue(g[0]) == x[0] && AlphabetValue(g[1]) == x[1]
      && AlphabetValue(g[2]) == x[2] && AlphabetValue(g[3]) == x[3]
  {
    var x := Sextets(b0, b1, b2);
    AlphabetRoundTrip(x[0]);
    AlphabetRoundTrip(x[1]);
    AlphabetRoundTrip(x[2]);
    AlphabetRoundTrip(x[3]);
  }

  /** Four leading characters decode as one group, then the rest. */
  lemma {:induction false} DecodeCharsStep(t: string)
    requires AllAlphabet(t) && |t| >= 4 && |t| % 4 != 1
    ensures DecodeChars(t) == Octets(AlphabetValue(t[0]), AlphabetValue(t[1]), AlphabetValue(t[2]), AlphabetValue(t[3]))
                              + DecodeChars(t[4..])
  {
  }

  /** Decoding a whole group's characters gives its three bytes, then the rest. */
  lemma {:induction false} DecodeGroupStep(b: seq<bv8>)
    requires |b| >= 3
    ensures DecodeChars(EncodeUnpadded(b)) == b[..3] + DecodeChars(EncodeUnpadded(b[3..]))
  {
    var g := EncodeGroup(b[0], b[1], b[2]);
    var t := EncodeUnpadded(b);
    assert t[..4] == g && t[4..] == EncodeUnpadded(b[3..]) by {
      assert t == g + EncodeUnpadded(b[3..]);
    }
    var x := Sextets(b[0], b[1], b[2]);
    assert Octets(AlphabetValue(t[0]), AlphabetValue(t[1]), AlphabetValue(t[2]), AlphabetValue(t[3])) == b[..3] by {
      GroupRoundTrip(b[0], b[1], b[2]);
      assert t[0] == g[0] && t[1] == g[1] && t[2] == g[2] && t[3] == g[3];
      SextetsOctets(b[0], b[1], b[2]);
    }
    DecodeCharsStep(t);
  }

  /** Decoding the two characters of a single final byte gives it back. */
  lemma {:induction false} DecodeOneByte(b: seq<bv8>)
    requires |b| == 1
    ensures DecodeChars(EncodeUnpadded(b)) == b
  {
    var g := EncodeGroup(b[0], 0, 0);
    assert EncodeUnpadded(b) == g[..2];
    GroupRoundTrip(b[0], 0, 0);
    SextetsOctets(b[0], 0, 0);
    SextetsOctets(b[0], 0, 0);
    var x := Sextets(b[0], 0, 0);
    assert Octets(x[0], x[1], 0, 0)[0] == Octets(x[0], x[1], x[2], x[3])[0];
  }

  /** Decoding the three characters of two final bytes gives them back. */
  lemma {:induction false} DecodeTwoBytes(b: seq<bv8>)
    requires |b| == 2
    ensures DecodeChars(EncodeUnpadded(b)) == b
  {
    var g := EncodeGroup(b[0], b[1], 0);
    assert EncodeUnpadded(b) == g[..3];
    GroupRoundTrip(b[0], b[1], 0);
    SextetsOctets(b[0], b[1], 0);
    var x := Sextets(b[0], b[1], 0);
    assert Octets(x[0], x[1], x[2], 0)[..2] == Octets(x[0], x[1], x[2], x[3])[..2];
  }

  /** The unpadded characters decode to the bytes they encode. */
  lemma {:induction false} DecodeEncodeUnpadded(b: seq<bv8>)
    ensures DecodeChars(EncodeUnpadded(b)) == b
    decreases |b|
  {
    if |b| == 1 {
      DecodeOneByte(b);
    } else if |b| == 2 {
      DecodeTwoBytes(b);
    } else if |b| >= 3 {
      DecodeGroupStep(b);
      DecodeEncodeUnpadded(b[3..]);
      assert b == b[..3] + b[3..];
    }
  }

  /** A string free of ASCII whitespace passes through the whitespace removal. */
  lemma {:induction false} RemoveWhitespaceNone(s: string)
    requires forall k :: 0 <= k < |s| ==> !IsAsciiWhitespace(s[k])
    ensures RemoveWhitespace(s) == s
    decreases |s|
  {
    if |s| > 0 {
      RemoveWhitespaceNone(s[1..]);
      assert s == [s[0]] + s[1..];
    }
  }

  /** The padding `btoa` adds is exactly what the decoder removes. */
  lemma {:induction false} DropPaddingOfEncode(b: seq<bv8>)
    ensures DropPadding(Encode(b)) == EncodeUnpadded(b)
  {
    var u := EncodeUnpadded(b);
    if |b| % 3 == 1 {
      DropTwo(u);
    } else if |b| % 3 == 2 {
      DropOne(u);
    } else {
      DropNone(u);
    }
  }

  /** Two `=` after a length of two more than a multiple of four are removed. */
  lemma {:induction false} DropTwo(u: string)
    requires |u| % 4 == 2
    ensures DropPadding(u + "==") == u
  {
    var s := u + "==";
    assert s[|s| - 2..] == "==";
    assert s[..|s| - 2] == u;
  }

  /** One `=` after alphabet characters of a length of three more than a multiple of four
      is removed, and only it. */
  lemma {:induction false} DropOne(u: string)
    requires |u| % 4 == 3 && AllAlphabet(u)
    ensures DropPadding(u + "=") == u
  {
    var s := u + "=";
    assert s[|s| - 2] == u[|u| - 1];
    assert s[|s| - 2..] != "==";
    assert s[|s| - 1..] == "=";
    assert s[..|s| - 1] == u;
  }

  /** Alphabet characters alone keep all their characters. */
  lemma {:induction false} DropNone(u: string)
    requires |u| % 4 == 0 && AllAlphabet(u)
    ensures DropPadding(u + "") == u
  {
    assert u + "" == u;
    if |u| > 0 {
      assert IsAlphabetChar(u[|u| - 1]);
      assert u[|u| - 1..][0] == u[|u| - 1];
      assert u[|u| - 1..] != "=";
      assert u[|u| - 2..] != "==";
    }
  }

  /** `atob(btoa(s))` is `s`, and the decoder accepts every encoding. */
  lemma {:induction false} DecodeEncode(b: seq<bv8>)
    ensures Decode(Encode(b)) == Some(b)
  {
    var s := Encode(b);
    var u := EncodeUnpadded(b);
    forall k | 0 <= k < |s| ensures !IsAsciiWhitespace(s[k]) {
      if k < |u| {
        assert s[k] == u[k];
      }
    }
    RemoveWhitespaceNone(s);
    DropPaddingOfEncode(b);
    DecodeEncodeUnpadded(b);
  }

  /** Whitespace anywhere in the input is ignored by `atob`. */
  lemma {:induction false} DecodeIgnoresWhitespace(a: string, w: char, c: string)
    requires IsAsciiWhitespace(w)
    ensures Decode(a + [w] + c) == Decode(a + c)
  {
    RemoveWhitespaceSplit(a, [w] + c);
    RemoveWhitespaceSplit(a, c);
    assert ([w] + c)[1..] == c;
    assert a + [w] + c == a + ([w] + c);
  }

  /** Whitespace removal works piecewise. */
  lemma {:induction false} RemoveWhitespaceSplit(a: string, c: string)
    ensures RemoveWhitespace(a + c) == RemoveWhitespace(a) + RemoveWhitespace(c)
    decreases |a|
  {
    if |a| > 0 {
      assert (a + c)[1..] == a[1..] + c;
      RemoveWhitespaceSplit(a[1..], c);
    } else {
      assert a + c == c;
    }
  }

  /** A length of one more than a multiple of four is rejected. */
  lemma {:induction false} DecodeRejectsLength(s: string)
    requires forall k :: 0 <= k < |s| ==> !IsAsciiWhitespace(s[k])
    requires |s| % 4 == 1
    ensures Decode(s).None?
  {
    RemoveWhitespaceNone(s);
  }

  /** A character outside the alphabet and before the last two positions, where padding
      could stand, is rejected. */
  lemma {:induction false} DecodeRejectsForeign(s: string, k: nat)
    requires forall j :: 0 <= j < |s| ==> !IsAsciiWhitespace(s[j])
    requires k + 2 < |s| && !IsAlphabetChar(s[k])
    ensures Decode(s).None?
  {
    RemoveWhitespaceNone(s);
    var t := DropPadding(s);
    assert t[k] == s[k];
  }
}
