/**
 * The key handling of the DES helper (`DESCrypto.__init__`): the key string
 * is padded with '0' or cut to eight characters, and what is kept is the
 * UTF-8 encoding of the result. Eight characters are eight bytes only when
 * every character is ASCII.
 */
module DesKey {

  /** An octet of the encoded key. */
  type byte = b: int | 0 <= b < 256

  /** The number of characters the key is brought to. */
  const KEY_LENGTH: nat := 8

  /** The character appended to a short key (`ljust(8, '0')`). */
  const PAD: char := '0'

  // ---------------------------------------------------------------------
  // Pad or truncate
  // ---------------------------------------------------------------------

  /** `k.ljust(n, c)`: `k` followed by enough copies of `c` to reach `n`
      characters; a key already that long is returned as it is. */
  function PadRight(key: string, n: nat, c: char): (r: string)
    ensures |r| == if |key| < n then n else |key|
    ensures r[..|key|] == key
    ensures forall i :: |key| <= i < |r| ==> r[i] == c
  {
    if |key| < n then key + seq(n - |key|, _ => c) else key
  }

  /** The key as the helper normalises it: a shorter key is padded with '0',
      a longer one is cut to its first eight characters, one of exactly
      eight characters is kept. */
  function NormalizeKey(key: string): (k: string)
    ensures |k| == KEY_LENGTH
  {
    if |key| < KEY_LENGTH then PadRight(key, KEY_LENGTH, PAD)
    else if |key| > KEY_LENGTH then key[..KEY_LENGTH]
    else key
  }

  /** A short key stays a prefix and the rest is '0'. */
  lemma ShortKeyPadded(key: string)
    requires |key| < KEY_LENGTH
    ensures NormalizeKey(key)[..|key|] == key
    ensures forall i :: |key| <= i < KEY_LENGTH ==> NormalizeKey(key)[i] == PAD
  {
  }

  /** A long key is cut to its first eight characters; an eight-character key
      is kept. In both cases the result is a prefix of the key. */
  lemma LongKeyTruncated(key: string)
    requires |key| >= KEY_LENGTH
    ensures NormalizeKey(key) == key[..KEY_LENGTH]
  {
    if |key| == KEY_LENGTH {
      assert key[..KEY_LENGTH] == key;
    }
  }

  /** Normalising twice is normalising once. */
  lemma NormalizeIdempotent(key: string)
    ensures NormalizeKey(NormalizeKey(key)) == NormalizeKey(key)
  {
  }

  /** A key is left as it is exactly when it already has eight characters. */
  lemma NormalizeFixedPoints(key: string)
    ensures NormalizeKey(key) == key <==> |key| == KEY_LENGTH
  {
  }

  /** Two keys normalise alike exactly when they agree on the first eight
      characters, a missing character counting as '0'. */
  lemma NormalizeSameKey(a: string, b: string)
    ensures NormalizeKey(a) == NormalizeKey(b) <==>
      forall i :: 0 <= i < KEY_LENGTH ==> CharOrPad(a, i) == CharOrPad(b, i)
  {
    forall i | 0 <= i < KEY_LENGTH
      ensures NormalizeKey(a)[i] == CharOrPad(a, i) && NormalizeKey(b)[i] == CharOrPad(b, i)
    {
      CharOrPadIsNormalized(a, i);
      CharOrPadIsNormalized(b, i);
    }
    if forall i :: 0 <= i < KEY_LENGTH ==> CharOrPad(a, i) == CharOrPad(b, i) {
      assert forall i :: 0 <= i < KEY_LENGTH ==> NormalizeKey(a)[i] == NormalizeKey(b)[i];
    }
  }

  /** The character at `i`, or '0' past the end. */
  function CharOrPad(key: string, i: nat): char
  {
    if i < |key| then key[i] else PAD
  }

  lemma CharOrPadIsNormalized(key: string, i: nat)
    requires i < KEY_LENGTH
    ensures NormalizeKey(key)[i] == CharOrPad(key, i)
  {
    if |key| < KEY_LENGTH && i < |key| {
      assert NormalizeKey(key)[..|key|][i] == key[i];
    }
  }

  // ---------------------------------------------------------------------
  // UTF-8 (`str.encode('utf-8')`)
  // ---------------------------------------------------------------------

  /** The number of bytes UTF-8 uses for a character. */
  function Utf8Width(c: char): (w: nat)
    ensures 1 <= w <= 4
    ensures w == 1 <==> c as int < 0x80
  {
    if c as int < 0x80 then 1
    else if c as int < 0x800 then 2
    else if c as int < 0x10000 then 3
    else 4
  }

  /** The UTF-8 bytes of one character: a lead byte carrying the width,
      then six bits per continuation byte. */
  function EncodeChar(c: char): (bs: seq<byte>)
    ensures |bs| == Utf8Width(c)
  {
    var cp := c as int;
    if cp < 0x80 then [cp]
    else if cp < 0x800 then [0xC0 + cp / 0x40, 0x80 + cp % 0x40]
    else if cp < 0x10000 then [0xE0 + cp / 0x1000, 0x80 + (cp / 0x40) % 0x40, 0x80 + cp % 0x40]
    else [0xF0 + cp / 0x40000, 0x80 + (cp / 0x1000) % 0x40, 0x80 + (cp / 0x40) % 0x40, 0x80 + cp % 0x40]
  }

  /** The UTF-8 encoding of a string, character by character. */
  function Encode(s: string): (bs: seq<byte>)
    ensures |bs| == Utf8Length(s)
    ensures |bs| >= |s|
  {
    if s == [] then [] else EncodeChar(s[0]) + Encode(s[1..])
  }

  /** The total width of the characters of `s`. */
  function Utf8Length(s: string): nat
  {
    if s == [] then 0 else Utf8Width(s[0]) + Utf8Length(s[1..])
  }

  /** A string encodes to as many bytes as it has characters exactly when
      every character is ASCII. */
  lemma {:induction false} EncodeLengthAscii(s: string)
    ensures |Encode(s)| == |s| <==> forall i :: 0 <= i < |s| ==> s[i] as int < 0x80
  {
    if s != [] {
      EncodeLengthAscii(s[1..]);
      assert forall i :: 1 <= i < |s| ==> s[i] == s[1..][i - 1];
    }
  }

  /** The width a lead byte announces. */
  function LeadWidth(b: byte): nat
  {
    if b < 0x80 then 1 else if b < 0xE0 then 2 else if b < 0xF0 then 3 else 4
  }

  /** The code point of the bytes of one character. */
  function CharValue(bs: seq<byte>): int
    requires 1 <= |bs| <= 4
  {
    var b: seq<int> := bs;
    if |b| == 1 then b[0]
    else if |b| == 2 then (b[0] - 0xC0) * 0x40 + (b[1] - 0x80)
    else if |b| == 3 then (b[0] - 0xE0) * 0x1000 + (b[1] - 0x80) * 0x40 + (b[2] - 0x80)
    else (b[0] - 0xF0) * 0x40000 + (b[1] - 0x80) * 0x1000 + (b[2] - 0x80) * 0x40 + (b[3] - 0x80)
  }

  /** The code points of a byte string, taking as many bytes for each
      character as its lead byte announces (no validation). */
  function CodePoints(bs: seq<byte>): seq<int>
    decreases |bs|
  {
    if bs == [] then []
    else
      var w := LeadWidth(bs[0]);
      if w > |bs| then [] else [CharValue(bs[..w])] + CodePoints(bs[w..])
  }

  /** The lead byte of a character announces its width, and the bytes give
      back its code point. */
  lemma EncodeCharDecodes(c: char)
    ensures LeadWidth(EncodeChar(c)[0]) == Utf8Width(c)
    ensures CharValue(EncodeChar(c)) == c as int
  {
    var cp := c as int;
    if 0x80 <= cp < 0x800 {
      assert cp == (cp / 0x40) * 0x40 + cp % 0x40;
    } else if 0x800 <= cp < 0x10000 {
      SixBits(cp);
      SixBits(cp / 0x40);
      assert cp / 0x40 / 0x40 == cp / 0x1000;
    } else if 0x10000 <= cp {
      SixBits(cp);
      SixBits(cp / 0x40);
      SixBits(cp / 0x1000);
      assert cp / 0x40 / 0x40 == cp / 0x1000;
      assert cp / 0x1000 / 0x40 == cp / 0x40000;
    }
  }

  /** Six low bits and the rest. */
  lemma SixBits(n: nat)
    ensures n == (n / 0x40) * 0x40 + n % 0x40
  {
  }

  /** Decoding the UTF-8 encoding gives back the code points. */
  lemma {:induction false} EncodeDecodes(s: string)
    ensures CodePoints(Encode(s)) == seq(|s|, i requires 0 <= i < |s| => s[i] as int)
  {
    if s != [] {
      var head := EncodeChar(s[0]);
      var bs := Encode(s);
      EncodeCharDecodes(s[0]);
      EncodeDecodes(s[1..]);
      assert bs == head + Encode(s[1..]);
      assert bs[0] == head[0];
      assert bs[..|head|] == head;
      assert bs[|head|..] == Encode(s[1..]);
    }
  }

  // ---------------------------------------------------------------------
  // The stored key
  // ---------------------------------------------------------------------

  /** The key the helper stores: the UTF-8 bytes of the normalised key. */
  function KeyBytes(key: string): (bs: seq<byte>)
    ensures |bs| >= KEY_LENGTH
  {
    Encode(NormalizeKey(key))
  }

  /** The stored key is eight bytes exactly when the first eight characters
      of the key are ASCII; otherwise it is longer. */
  lemma KeyBytesLength(key: string)
    ensures |KeyBytes(key)| == KEY_LENGTH <==>
      forall i :: 0 <= i < |key| && i < KEY_LENGTH ==> key[i] as int < 0x80
  {
    var k := NormalizeKey(key);
    EncodeLengthAscii(k);
    forall i | 0 <= i < KEY_LENGTH
      ensures k[i] == CharOrPad(key, i)
    {
      CharOrPadIsNormalized(key, i);
    }
  }

  /** A two-character Chinese key is stored as twelve bytes, not eight. */
  lemma WideKeyTooLong()
    ensures NormalizeKey("密钥") == "密钥000000"
    ensures |KeyBytes("密钥")| == 12
  {
    var k := NormalizeKey("密钥");
    assert k == "密钥000000";
    assert Encode(k) == EncodeChar('密') + EncodeChar('钥') + Encode("000000");
  }

  /** The key as the comment intends it, eight bytes in every case: the UTF-8
      bytes of the key padded with the byte of '0' or cut to eight. */
  function KeyBytesEightOctets(key: string): (bs: seq<byte>)
    ensures |bs| == KEY_LENGTH
  {
    var raw := Encode(key);
    if |raw| < KEY_LENGTH then raw + seq(KEY_LENGTH - |raw|, _ => PAD as int)
    else raw[..KEY_LENGTH]
  }

  /** For a key whose characters are all ASCII the intended key and the
      stored key are the same bytes. */
  lemma {:induction false} EightOctetsAgreeOnAscii(key: string)
    requires forall i :: 0 <= i < |key| ==> key[i] as int < 0x80
    ensures KeyBytesEightOctets(key) == KeyBytes(key)
  {
    AsciiEncodesAsIs(key);
    AsciiEncodesAsIs(NormalizeKey(key));
    if |key| < KEY_LENGTH {
      ShortKeyPadded(key);
    } else {
      LongKeyTruncated(key);
    }
  }

  /** An ASCII string encodes to its own code points, one byte each. */
  lemma {:induction false} AsciiEncodesAsIs(s: string)
    requires forall i :: 0 <= i < |s| ==> s[i] as int < 0x80
    ensures Encode(s) == seq(|s|, i requires 0 <= i < |s| => s[i] as int)
  {
    if s != [] {
      AsciiEncodesAsIs(s[1..]);
    }
  }
}
