/**
 * UTF-8 as the browser's `TextEncoder` and default (non-fatal) `TextDecoder` use it:
 * encoding of Unicode scalar values per section 3 of RFC 3629, and the decoder of the
 * WHATWG Encoding Standard, which replaces every maximal invalid subsequence with U+FFFD
 * and drops one leading byte order mark.
 */
module Utf8 {
  import opened BinaryString

  const Replacement: char := 0xFFFD as char
  const ByteOrderMark: char := 0xFEFF as char

  /** The one to four bytes that encode one scalar value. */
  function EncodeChar(c: char): (bytes: seq<Byte>)
    ensures 1 <= |bytes| <= 4
  {
    var cp := c as int;
    if cp < 0x80 then [cp]
    else if cp < 0x800 then [0xC0 + cp / 64, 0x80 + cp % 64]
    else if cp < 0x10000 then [0xE0 + cp / 4096, 0x80 + (cp / 64) % 64, 0x80 + cp % 64]
    else [0xF0 + cp / 262144, 0x80 + (cp / 4096) % 64, 0x80 + (cp / 64) % 64, 0x80 + cp % 64]
  }

  /** `new TextEncoder().encode(s)`. */
  function Encode(s: string): (bytes: seq<Byte>)
    ensures |bytes| >= |s|
  {
    if s == [] then [] else EncodeChar(s[0]) + Encode(s[1..])
  }

  /** Does byte `i` exist and lie in `lo..hi`? */
  predicate InRange(bytes: seq<Byte>, i: nat, lo: int, hi: int) {
    i < |bytes| && lo <= bytes[i] <= hi
  }

  /**
   * How many of the `need` continuation bytes after the lead byte are acceptable, stopping at
   * the first that is not: the first must lie in `lo..hi`, the others in 0x80..0xBF.
   */
  function AcceptedContinuations(bytes: seq<Byte>, need: nat, lo: int, hi: int): (m: nat)
    requires 1 <= need <= 3
    ensures m <= need && 1 + m <= |bytes| + (if m == 0 then 1 else 0)
    ensures m >= 1 ==> InRange(bytes, 1, lo, hi)
    ensures m >= 2 ==> InRange(bytes, 2, 0x80, 0xBF)
    ensures m >= 3 ==> InRange(bytes, 3, 0x80, 0xBF)
  {
    if !InRange(bytes, 1, lo, hi) then 0
    else if need == 1 || !InRange(bytes, 2, 0x80, 0xBF) then 1
    else if need == 2 || !InRange(bytes, 3, 0x80, 0xBF) then 2
    else 3
  }

  /** How many continuation bytes a lead byte C2..F4 announces. */
  function ContinuationCount(b0: int): (need: nat)
    requires 0xC2 <= b0 <= 0xF4
    ensures 1 <= need <= 3
  {
    if b0 <= 0xDF then 1 else if b0 <= 0xEF then 2 else 3
  }

  /**
   * The bounds of the first continuation byte after lead byte `b0`; they shut out overlong
   * forms (after E0, F0), surrogates (after ED) and values above U+10FFFF (after F4).
   */
  function FirstLow(b0: int): int {
    if b0 == 0xE0 then 0xA0 else if b0 == 0xF0 then 0x90 else 0x80
  }

  function FirstHigh(b0: int): int {
    if b0 == 0xED then 0x9F else if b0 == 0xF4 then 0x8F else 0xBF
  }

  /**
   * One step of the WHATWG UTF-8 decoder on a non-empty input: the character produced and
   * the number of bytes consumed. A lead byte that cannot start a sequence, and a sequence cut
   * short by a bad byte or by the end of the input, produce one U+FFFD; the offending byte is
   * not consumed and is looked at again.
   */
  function Step(bytes: seq<Byte>): (r: (char, nat))
    requires |bytes| > 0
    ensures 1 <= r.1 <= |bytes|
  {
    var b0 := bytes[0] as int;
    if b0 < 0x80 then (b0 as char, 1)
    else if 0xC2 <= b0 <= 0xF4 then
      var need := ContinuationCount(b0);
      var m := AcceptedContinuations(bytes, need, FirstLow(b0), FirstHigh(b0));
      if m < need then (Replacement, 1 + m)
      else if need == 1 then (((b0 - 0xC0) * 64 + (bytes[1] as int - 0x80)) as char, 2)
      else if need == 2 then (((b0 - 0xE0) * 4096 + (bytes[1] as int - 0x80) * 64 + (bytes[2] as int - 0x80)) as char, 3)
      else (((b0 - 0xF0) * 262144 + (bytes[1] as int - 0x80) * 4096 + (bytes[2] as int - 0x80) * 64 + (bytes[3] as int - 0x80)) as char, 4)
    else (Replacement, 1)
  }

  /** The WHATWG UTF-8 decoder without BOM handling; it never fails. */
  function Decode(bytes: seq<Byte>): (s: string)
    ensures |s| <= |bytes|
    decreases |bytes|
  {
    if bytes == [] then []
    else
      var (c, n) := Step(bytes);
      [c] + Decode(bytes[n..])
  }

  /** Does the input open with the UTF-8 byte order mark EF BB BF? */
  predicate StartsWithBom(bytes: seq<Byte>) {
    |bytes| >= 3 && bytes[0] == 0xEF && bytes[1] == 0xBB && bytes[2] == 0xBF
  }

  /** `new TextDecoder().decode(bytes)`: the default decoder drops one leading byte order mark. */
  function TextDecode(bytes: seq<Byte>): string {
    if StartsWithBom(bytes) then Decode(bytes[3..]) else Decode(bytes)
  }

  /** The decoder reads back exactly the character that `EncodeChar` wrote, whatever follows. */
  lemma StepEncodeChar(c: char, rest: seq<Byte>)
    ensures Step(EncodeChar(c) + rest) == (c, |EncodeChar(c)|)
  {
    var cp := c as int;
    if cp < 0x80 {
    } else if cp < 0x800 {
      StepTwoBytes(c, rest);
    } else if cp < 0x10000 {
      StepThreeBytes(c, rest);
    } else {
      StepFourBytes(c, rest);
    }
  }

  lemma StepTwoBytes(c: char, rest: seq<Byte>)
    requires 0x80 <= c as int < 0x800
    ensures Step(EncodeChar(c) + rest) == (c, 2)
  {
    var cp := c as int;
    var b0, b1 := 0xC0 + cp / 64, 0x80 + cp % 64;
    assert EncodeChar(c) == [b0, b1];
    var bytes := [b0, b1] + rest;
    assert bytes[0] == b0 && bytes[1] == b1;
    assert AcceptedContinuations(bytes, 1, 0x80, 0xBF) == 1;
    assert (b0 - 0xC0) * 64 + (b1 - 0x80) == cp;
  }

  lemma StepThreeBytes(c: char, rest: seq<Byte>)
    requires 0x800 <= c as int < 0x10000
    ensures Step(EncodeChar(c) + rest) == (c, 3)
  {
    var cp := c as int;
    var q := cp / 64;
    assert cp / 4096 == q / 64;
    var b0, b1, b2 := 0xE0 + q / 64, 0x80 + q % 64, 0x80 + cp % 64;
    assert EncodeChar(c) == [b0, b1, b2];
    var bytes := [b0, b1, b2] + rest;
    assert bytes[0] == b0 && bytes[1] == b1 && bytes[2] == b2;
    assert (b0 - 0xE0) * 4096 + (b1 - 0x80) * 64 + (b2 - 0x80) == cp;
    var lo, hi := if b0 == 0xE0 then 0xA0 else 0x80, if b0 == 0xED then 0x9F else 0xBF;
    assert lo <= b1 <= hi;
    assert AcceptedContinuations(bytes, 2, lo, hi) == 2;
  }

  lemma StepFourBytes(c: char, rest: seq<Byte>)
    requires 0x10000 <= c as int
    ensures Step(EncodeChar(c) + rest) == (c, 4)
  {
    var cp := c as int;
    var q := cp / 64;
    var p := q / 64;
    assert cp / 4096 == p && cp / 262144 == p / 64;
    var b0, b1, b2, b3 := 0xF0 + p / 64, 0x80 + p % 64, 0x80 + q % 64, 0x80 + cp % 64;
    assert EncodeChar(c) == [b0, b1, b2, b3];
    var bytes := [b0, b1, b2, b3] + rest;
    assert bytes[0] == b0 && bytes[1] == b1 && bytes[2] == b2 && bytes[3] == b3;
    assert (b0 - 0xF0) * 262144 + (b1 - 0x80) * 4096 + (b2 - 0x80) * 64 + (b3 - 0x80) == cp;
    var lo, hi := if b0 == 0xF0 then 0x90 else 0x80, if b0 == 0xF4 then 0x8F else 0xBF;
    assert lo <= b1 <= hi;
    assert AcceptedContinuations(bytes, 3, lo, hi) == 3;
  }

  /** Decoding undoes encoding for every string of scalar values. */
  lemma {:induction false} DecodeEncode(s: string)
    ensures Decode(Encode(s)) == s
  {
    if s != [] {
      var head := EncodeChar(s[0]);
      var tail := Encode(s[1..]);
      StepEncodeChar(s[0], tail);
      assert (head + tail)[|head|..] == tail;
      DecodeEncode(s[1..]);
    }
  }

  /** The encoding of a string opens with a byte order mark exactly when the string does. */
  lemma EncodeStartsWithBom(s: string)
    ensures StartsWithBom(Encode(s)) <==> (s != [] && s[0] == ByteOrderMark)
  {
    if s != [] {
      var bytes := Encode(s);
      StepEncodeChar(s[0], Encode(s[1..]));
      if StartsWithBom(bytes) {
        assert Step(bytes) == (ByteOrderMark, 3);
      }
    }
  }

  /** `TextDecoder` undoes `TextEncoder` on every string that does not open with U+FEFF. */
  lemma TextDecodeEncode(s: string)
    requires s == [] || s[0] != ByteOrderMark
    ensures TextDecode(Encode(s)) == s
  {
    EncodeStartsWithBom(s);
    DecodeEncode(s);
  }

  /** A leading U+FEFF does not survive the trip: the default decoder strips it. */
  lemma TextDecodeDropsBom(s: string)
    requires s != [] && s[0] == ByteOrderMark
    ensures TextDecode(Encode(s)) == s[1..]
  {
    EncodeStartsWithBom(s);
    assert Encode(s) == EncodeChar(s[0]) + Encode(s[1..]);
    assert EncodeChar(s[0]) == [0xEF, 0xBB, 0xBF];
    assert Encode(s)[3..] == Encode(s[1..]);
    DecodeEncode(s[1..]);
  }

  /**
   * Decoding is non-fatal: a byte that cannot begin a sequence (a stray continuation byte,
   * C0, C1 or F5..FF) becomes one U+FFFD and decoding carries on with the next byte.
   */
  lemma DecodeInvalidLead(b: Byte, rest: seq<Byte>)
    requires 0x80 <= b <= 0xC1 || 0xF5 <= b
    ensures Decode([b] + rest) == [Replacement] + Decode(rest)
  {
    assert ([b] + rest)[1..] == rest;
  }

  /**
   * A multi-byte sequence cut short, after `m` acceptable continuation bytes, by a byte that
   * does not fit or by the end of the input becomes a single U+FFFD; decoding resumes at the
   * byte that cut it short.
   */
  lemma DecodeCutShort(bytes: seq<Byte>, m: nat)
    requires |bytes| > m && 0xC2 <= bytes[0] <= 0xF4 && m < ContinuationCount(bytes[0])
    requires m >= 1 ==> FirstLow(bytes[0]) <= bytes[1] <= FirstHigh(bytes[0])
    requires forall i :: 2 <= i <= m ==> 0x80 <= bytes[i] <= 0xBF
    requires !InRange(bytes, 1 + m, if m == 0 then FirstLow(bytes[0]) else 0x80, if m == 0 then FirstHigh(bytes[0]) else 0xBF)
    ensures Decode(bytes) == [Replacement] + Decode(bytes[1 + m..])
  {
    var b0 := bytes[0];
    assert AcceptedContinuations(bytes, ContinuationCount(b0), FirstLow(b0), FirstHigh(b0)) == m;
  }

  /** A multi-byte sequence cut off by the end of the input becomes a single U+FFFD. */
  lemma DecodeTruncated(bytes: seq<Byte>)
    requires |bytes| > 0 && 0xC2 <= bytes[0] <= 0xF4 && |bytes| <= ContinuationCount(bytes[0])
    requires |bytes| >= 2 ==> FirstLow(bytes[0]) <= bytes[1] <= FirstHigh(bytes[0])
    requires forall i :: 2 <= i < |bytes| ==> 0x80 <= bytes[i] <= 0xBF
    ensures Decode(bytes) == [Replacement]
  {
    DecodeCutShort(bytes, |bytes| - 1);
    assert bytes[|bytes|..] == [];
  }
}
