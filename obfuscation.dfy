/**
 * The extension's reversible API-key obfuscation: the key's UTF-8 bytes are XORed with
 * a fixed 18-byte key, cycling by index, and the result is Base64-encoded; decoding
 * undoes both steps and yields the empty string when the input is not valid Base64.
 * UTF-8 encoding and decoding themselves are not modelled: the methods take and give
 * byte sequences, the ones `TextEncoder` produces and `TextDecoder` consumes.
 */
module Obfuscation {
  import opened Wrappers
  import opened Base64

  /** The key text `OBFUSCATION_KEY`. */
  const KeyText := "PrPlease2024ExtKey"

  /** The key's bytes: the text is ASCII, so each byte is a character code. */
  const ObfuscationKey: seq<bv8> :=
    [0x50, 0x72, 0x50, 0x6c, 0x65, 0x61, 0x73, 0x65, 0x32, 0x30, 0x32, 0x34, 0x45, 0x78, 0x74, 0x4b, 0x65, 0x79]

  /** The byte constant is the UTF-8 encoding of the key text, and it has 18 bytes. */
  lemma {:induction false} KeyIsText()
    ensures |ObfuscationKey| == |KeyText| == 18
    ensures forall k :: 0 <= k < 18 ==> ObfuscationKey[k] as int == KeyText[k] as int
  {
  }

  /** Each byte XORed with the key byte of the same index modulo the key length. */
  function XorStream(bytes: seq<bv8>): (r: seq<bv8>)
    ensures |r| == |bytes|
  {
    seq(|bytes|, i requires 0 <= i < |bytes| => bytes[i] ^ ObfuscationKey[i % |ObfuscationKey|])
  }

  /** XOR with the same key stream twice is the identity. */
  lemma {:induction false} XorStreamInvolution(bytes: seq<bv8>)
    ensures XorStream(XorStream(bytes)) == bytes
  {
    var once := XorStream(bytes);
    var twice := XorStream(once);
    forall k | 0 <= k < |bytes| ensures twice[k] == bytes[k] {
      var c := ObfuscationKey[k % |ObfuscationKey|];
      assert twice[k] == (bytes[k] ^ c) ^ c;
    }
  }

  /** The stream is keyed by position alone: a prefix is masked as it is inside the whole. */
  lemma {:induction false} XorStreamPrefix(bytes: seq<bv8>, n: nat)
    requires n <= |bytes|
    ensures XorStream(bytes[..n]) == XorStream(bytes)[..n]
  {
  }

  /** The loop filling `result`: byte `i` XORed with key byte `i % 18`. */
  method XorWithKey(bytes: array<bv8>) returns (result: array<bv8>)
    ensures fresh(result)
    ensures result[..] == XorStream(bytes[..])
  {
    result := new bv8[bytes.Length];
    var i := 0;
    while i < bytes.Length
      invariant 0 <= i <= bytes.Length
      invariant forall k :: 0 <= k < i ==> result[k] == bytes[k] ^ ObfuscationKey[k % |ObfuscationKey|]
    {
      result[i] := bytes[i] ^ ObfuscationKey[i % |ObfuscationKey|];
      i := i + 1;
    }
  }

  /** The loop copying `decoded.charCodeAt(i)` into `bytes`. */
  method CopyCharCodes(decoded: string) returns (bytes: array<bv8>)
    requires IsBinaryString(decoded)
    ensures fresh(bytes)
    ensures bytes[..] == CharCodes(decoded)
  {
    bytes := new bv8[|decoded|];
    var i := 0;
    while i < |decoded|
      invariant 0 <= i <= |decoded|
      invariant forall k :: 0 <= k < i ==> bytes[k] == CharCodes(decoded)[k]
    {
      bytes[i] := (decoded[i] as int) as bv8;
      i := i + 1;
    }
  }

  /** What `obfuscateApiKey` returns for a key whose UTF-8 bytes are `plain`. */
  function Obfuscated(plain: seq<bv8>): string {
    Btoa(FromCharCodes(XorStream(plain)))
  }

  /** The bytes `deobfuscateApiKey` hands to the UTF-8 decoder; none when `atob` throws,
      so the result is the empty string. */
  function Deobfuscated(encoded: string): seq<bv8> {
    match Atob(encoded)
    case None => []
    case Some(decoded) => XorStream(CharCodes(decoded))
  }

  /** `obfuscateApiKey` over the encoder's output bytes. */
  method ObfuscateApiKey(bytes: array<bv8>) returns (encoded: string)
    ensures encoded == Obfuscated(bytes[..])
  {
    var result := XorWithKey(bytes);
    encoded := Btoa(FromCharCodes(result[..]));
  }

  /** `deobfuscateApiKey`, up to the final UTF-8 decoding of the bytes it returns. */
  method DeobfuscateApiKey(encoded: string) returns (plain: seq<bv8>)
    ensures plain == Deobfuscated(encoded)
  {
    var decoded := Atob(encoded);
    if decoded.None? {
      return [];
    }
    var bytes := CopyCharCodes(decoded.value);
    var result := XorWithKey(bytes);
    plain := result[..];
  }

  // ---------------------------------------------------------------------------
  // Properties
  // ---------------------------------------------------------------------------

  /** Deobfuscating what was obfuscated gives the original bytes back. */
  lemma {:induction false} RoundTrip(plain: seq<bv8>)
    ensures Deobfuscated(Obfuscated(plain)) == plain
  {
    var x := XorStream(plain);
    CharCodesInverse(x);
    assert Obfuscated(plain) == Encode(x);
    DecodeEncode(x);
    assert Atob(Encode(x)) == Some(FromCharCodes(x));
    XorStreamInvolution(plain);
  }

  /** The obfuscated text takes four characters for every three bytes, rounded up. */
  lemma {:induction false} ObfuscatedLength(plain: seq<bv8>)
    ensures |Obfuscated(plain)| == 4 * ((|plain| + 2) / 3)
  {
    CharCodesInverse(XorStream(plain));
    EncodeLength(XorStream(plain));
  }

  /** The empty key obfuscates to the empty string, and the empty string decodes to no bytes. */
  lemma {:induction false} EmptyKey()
    ensures Obfuscated([]) == ""
    ensures Deobfuscated("") == []
  {
    CharCodesInverse([]);
    assert XorStream([]) == [];
    assert Encode([]) == "";
    assert DropPadding(RemoveWhitespace("")) == "";
  }

  /** Input that is not Base64 yields the empty string rather than an error. */
  lemma {:induction false} MalformedYieldsEmpty(encoded: string)
    requires Decode(encoded).None?
    ensures Deobfuscated(encoded) == []
  {
  }

  /** In particular, a stored value whose length is one more than a multiple of four, or
      that holds a character outside the alphabet, deobfuscates to the empty string. */
  lemma {:induction false} MalformedExamples(encoded: string, k: nat)
    requires forall j :: 0 <= j < |encoded| ==> !IsAsciiWhitespace(encoded[j])
    requires |encoded| % 4 == 1 || (k + 2 < |encoded| && !IsAlphabetChar(encoded[k]))
    ensures Deobfuscated(encoded) == []
  {
    if |encoded| % 4 == 1 {
      DecodeRejectsLength(encoded);
    } else {
      DecodeRejectsForeign(encoded, k);
    }
  }
}
