/**
 * Base64 as the browser's `btoa` and `atob` apply it: the standard alphabet with `=` padding
 * of section 4 of RFC 4648 on the way out, and the forgiving-base64 decoder of the WHATWG
 * Infra Standard (ASCII whitespace ignored, padding optional, leftover bits discarded) on the
 * way back.
 */
module Base64 {
  import opened Wrappers
  import opened BinaryString

  type Sextet = i: int | 0 <= i < 64

  /** Characters of the standard alphabet, `A`-`Z`, `a`-`z`, `0`-`9`, `+`, `/`. */
  predicate IsAlphabetChar(c: char) {
    ('A' <= c <= 'Z') || ('a' <= c <= 'z') || ('0' <= c <= '9') || c == '+' || c == '/'
  }

  /** The character that encodes a six-bit group. */
  function CharOf(v: Sextet): (c: char)
    ensures IsAlphabetChar(c)
  {
    if v < 26 then ('A' as int + v) as char
    else if v < 52 then ('a' as int + v - 26) as char
    else if v < 62 then ('0' as int + v - 52) as char
    else if v == 62 then '+'
    else '/'
  }

  /** The six-bit group an alphabet character stands for. */
  function IndexOf(c: char): (v: Sextet)
    requires IsAlphabetChar(c)
    ensures CharOf(v) == c
  {
    if 'A' <= c <= 'Z' then c as int - 'A' as int
    else if 'a' <= c <= 'z' then c as int - 'a' as int + 26
    else if '0' <= c <= '9' then c as int - '0' as int + 52
    else if c == '+' then 62
    else 63
  }

  lemma IndexOfCharOf(v: Sextet)
    ensures IndexOf(CharOf(v)) == v
  {
  }

  /** Three bytes, read as four six-bit groups, written as four characters. */
  function EncodeGroup(b0: Byte, b1: Byte, b2: Byte): (q: string)
    ensures |q| == 4 && forall i :: 0 <= i < 4 ==> IsAlphabetChar(q[i])
  {
    [CharOf(b0 / 4), CharOf((b0 % 4) * 16 + b1 / 16), CharOf((b1 % 16) * 4 + b2 / 64), CharOf(b2 % 64)]
  }

  /** The encoding without its trailing `=` signs: four characters per three bytes, then two or three for a short tail. */
  function EncodeUnpadded(b: seq<Byte>): (s: string)
    ensures |s| == UnpaddedLength(|b|)
    ensures forall i :: 0 <= i < |s| ==> IsAlphabetChar(s[i])
    decreases |b|
  {
    if |b| >= 3 then EncodeGroup(b[0], b[1], b[2]) + EncodeUnpadded(b[3..])
    else if |b| == 2 then
      [CharOf(b[0] / 4), CharOf((b[0] % 4) * 16 + b[1] / 16), CharOf((b[1] % 16) * 4)]
    else if |b| == 1 then
      [CharOf(b[0] / 4), CharOf((b[0] % 4) * 16)]
    else []
  }

  /** The length of the unpadded encoding of `n` bytes. */
  function UnpaddedLength(n: nat): nat {
    if n >= 3 then 4 + UnpaddedLength(n - 3) else if n == 0 then 0 else n + 1
  }

  /** The `=` signs that fill the last group of four. */
  function Padding(n: nat): string {
    if n % 3 == 1 then "==" else if n % 3 == 2 then "=" else ""
  }

  /** RFC 4648 base64 of a byte sequence, padded to a multiple of four characters. */
  function Encode(b: seq<Byte>): string {
    EncodeUnpadded(b) + Padding(|b|)
  }

  /** `btoa(data)`: throws (here: `None`) when a character of `data` is not a single byte. */
  function Btoa(data: string): Option<string> {
    if IsBinary(data) then Some(Encode(CharCodes(data))) else None
  }

  /** ASCII whitespace as the Infra Standard defines it: TAB, LF, FF, CR and SPACE. */
  predicate IsAsciiWhitespace(c: char) {
    c == '\t' || c == '\n' || c as int == 0x0C || c == '\r' || c == ' '
  }

  /** Step 1 of forgiving-base64 decode: remove all ASCII whitespace. */
  function StripWhitespace(s: string): (t: string)
    ensures forall i :: 0 <= i < |t| ==> !IsAsciiWhitespace(t[i])
    ensures |t| <= |s|
  {
    if s == [] then []
    else if IsAsciiWhitespace(s[0]) then StripWhitespace(s[1..])
    else [s[0]] + StripWhitespace(s[1..])
  }

  /** Step 2: when the length is a multiple of four, remove one or two trailing `=`. */
  function DropPadding(s: string): (t: string)
    ensures |t| <= |s|
  {
    if |s| % 4 == 0 && |s| >= 2 && s[|s| - 2] == '=' && s[|s| - 1] == '=' then s[..|s| - 2]
    else if |s| % 4 == 0 && |s| >= 1 && s[|s| - 1] == '=' then s[..|s| - 1]
    else s
  }

  /** Every character belongs to the alphabet. */
  predicate AllAlphabet(s: string) {
    forall i :: 0 <= i < |s| ==> IsAlphabetChar(s[i])
  }

  /** Steps 5 to 8: six bits per character, a byte for every full eight bits, leftover bits discarded. */
  function DecodeUnpadded(s: string): (b: seq<Byte>)
    requires AllAlphabet(s) && |s| % 4 != 1
    decreases |s|
  {
    if |s| >= 4 then
      var v0, v1, v2, v3 := IndexOf(s[0]), IndexOf(s[1]), IndexOf(s[2]), IndexOf(s[3]);
      [v0 * 4 + v1 / 16, (v1 % 16) * 16 + v2 / 4, (v2 % 4) * 64 + v3] + DecodeUnpadded(s[4..])
    else if |s| == 3 then
      var v0, v1, v2 := IndexOf(s[0]), IndexOf(s[1]), IndexOf(s[2]);
      [v0 * 4 + v1 / 16, (v1 % 16) * 16 + v2 / 4]
    else if |s| == 2 then
      [IndexOf(s[0]) * 4 + IndexOf(s[1]) / 16]
    else []
  }

  /** Forgiving-base64 decode: `None` where the algorithm returns failure. */
  function Decode(s: string): (r: Option<seq<Byte>>)
    ensures r.None? <==> (var t := DropPadding(StripWhitespace(s)); |t| % 4 == 1 || !AllAlphabet(t))
  {
    var t := DropPadding(StripWhitespace(s));
    if |t| % 4 == 1 || !AllAlphabet(t) then None else Some(DecodeUnpadded(t))
  }

  /** `atob(data)`: the decoded bytes as a binary string, or `None` where `atob` throws. */
  function Atob(data: string): (r: Option<string>)
    ensures r.Some? ==> IsBinary(r.value)
  {
    match Decode(data)
    case None => None
    case Some(bytes) => Some(FromBytes(bytes))
  }

  /** The encoding is a whole number of four-character groups, `=` only in the last two places. */
  lemma EncodeShape(b: seq<Byte>)
    ensures |Encode(b)| % 4 == 0
    ensures |Encode(b)| == 4 * ((|b| + 2) / 3)
    ensures forall i :: 0 <= i < |Encode(b)| ==> IsAlphabetChar(Encode(b)[i]) || (Encode(b)[i] == '=' && i >= |Encode(b)| - 2)
  {
    EncodeLength(b);
    WholeGroups(|b|);
    EncodeChars(b);
  }

  lemma EncodeLength(b: seq<Byte>)
    ensures |Encode(b)| == 4 * ((|b| + 2) / 3)
  {
    PaddedLengthOf(|b|);
  }

  /** Four characters for every three bytes, rounded up. */
  lemma {:induction false} PaddedLengthOf(n: nat)
    ensures UnpaddedLength(n) + |Padding(n)| == 4 * ((n + 2) / 3)
    decreases n
  {
    if n >= 3 {
      PaddedLengthOf(n - 3);
      assert (n + 2) / 3 == (n - 1) / 3 + 1;
      assert n % 3 == (n - 3) % 3;
    }
  }

  /** The unpadded length and the padding add up to a whole number of groups of four. */
  lemma {:induction false} WholeGroups(n: nat)
    ensures (UnpaddedLength(n) + |Padding(n)|) % 4 == 0
    ensures n % 3 != 0 ==> UnpaddedLength(n) >= 2
    decreases n
  {
    if n >= 3 {
      WholeGroups(n - 3);
      assert n % 3 == (n - 3) % 3;
    }
  }

  lemma EncodeChars(b: seq<Byte>)
    ensures forall i :: 0 <= i < |Encode(b)| ==> IsAlphabetChar(Encode(b)[i]) || (Encode(b)[i] == '=' && i >= |Encode(b)| - 2)
  {
    var s := Encode(b);
    var u := EncodeUnpadded(b);
    var p := Padding(|b|);
    assert s == u + p && |p| <= 2;
    forall i | 0 <= i < |s|
      ensures IsAlphabetChar(s[i]) || (s[i] == '=' && i >= |s| - 2)
    {
      if i < |u| { assert s[i] == u[i]; } else { assert s[i] == p[i - |u|]; }
    }
  }

  /** One group of three bytes survives encoding and decoding. */
  lemma TripleRoundTrip(b0: Byte, b1: Byte, b2: Byte)
    ensures var v0, v1, v2, v3 := b0 / 4, (b0 % 4) * 16 + b1 / 16, (b1 % 16) * 4 + b2 / 64, b2 % 64;
      v0 * 4 + v1 / 16 == b0 && (v1 % 16) * 16 + v2 / 4 == b1 && (v2 % 4) * 64 + v3 == b2
  {
    assert ((b0 % 4) * 16 + b1 / 16) / 16 == b0 % 4;
    assert ((b0 % 4) * 16 + b1 / 16) % 16 == b1 / 16;
    assert ((b1 % 16) * 4 + b2 / 64) / 4 == b1 % 16;
    assert ((b1 % 16) * 4 + b2 / 64) % 4 == b2 / 64;
  }

  /** One step of the decoder: a leading group of four characters gives three bytes. */
  lemma DecodeStep(s: string)
    requires AllAlphabet(s) && |s| % 4 != 1 && |s| >= 4
    ensures AllAlphabet(s[4..]) && |s[4..]| % 4 != 1
    ensures DecodeUnpadded(s)
      == [IndexOf(s[0]) * 4 + IndexOf(s[1]) / 16, (IndexOf(s[1]) % 16) * 16 + IndexOf(s[2]) / 4, (IndexOf(s[2]) % 4) * 64 + IndexOf(s[3])]
         + DecodeUnpadded(s[4..])
  {
  }

  /** Four alphabet characters, followed by anything, decode to the three bytes their six-bit values spell. */
  lemma DecodeQuad(v0: nat, v1: nat, v2: nat, v3: nat, rest: string)
    requires v0 < 64 && v1 < 64 && v2 < 64 && v3 < 64
    requires AllAlphabet(rest) && |rest| % 4 != 1
    ensures var s := [CharOf(v0), CharOf(v1), CharOf(v2), CharOf(v3)] + rest;
      AllAlphabet(s) && |s| % 4 != 1
      && DecodeUnpadded(s) == [v0 * 4 + v1 / 16, (v1 % 16) * 16 + v2 / 4, (v2 % 4) * 64 + v3] + DecodeUnpadded(rest)
  {
    var q := [CharOf(v0), CharOf(v1), CharOf(v2), CharOf(v3)];
    var s := q + rest;
    assert s[0] == q[0] && s[1] == q[1] && s[2] == q[2] && s[3] == q[3] && s[4..] == rest;
    assert AllAlphabet(s) by {
      forall i | 0 <= i < |s| ensures IsAlphabetChar(s[i]) {
        if i >= 4 { assert s[i] == rest[i - 4]; }
      }
    }
    DecodeStep(s);
    IndexOfCharOf(v0);
    IndexOfCharOf(v1);
    IndexOfCharOf(v2);
    IndexOfCharOf(v3);
  }

  /** The four characters written for three bytes, followed by anything, decode to those bytes first. */
  lemma DecodeGroup(b0: Byte, b1: Byte, b2: Byte, rest: string)
    requires AllAlphabet(rest) && |rest| % 4 != 1
    ensures var s := EncodeGroup(b0, b1, b2) + rest;
      AllAlphabet(s) && |s| % 4 != 1 && DecodeUnpadded(s) == [b0, b1, b2] + DecodeUnpadded(rest)
  {
    var v0, v1, v2, v3 := b0 / 4, (b0 % 4) * 16 + b1 / 16, (b1 % 16) * 4 + b2 / 64, b2 % 64;
    assert EncodeGroup(b0, b1, b2) == [CharOf(v0), CharOf(v1), CharOf(v2), CharOf(v3)];
    TripleRoundTrip(b0, b1, b2);
    assert [v0 * 4 + v1 / 16, (v1 % 16) * 16 + v2 / 4, (v2 % 4) * 64 + v3] == [b0, b1, b2];
    DecodeQuad(v0, v1, v2, v3, rest);
  }

  /** An unpadded encoding never leaves a single character over. */
  lemma {:induction false} UnpaddedLengthMod(n: nat)
    ensures UnpaddedLength(n) % 4 != 1
    decreases n
  {
    if n >= 3 {
      UnpaddedLengthMod(n - 3);
    }
  }

  lemma {:induction false} DecodeEncodeUnpadded(b: seq<Byte>)
    ensures |EncodeUnpadded(b)| % 4 != 1
    ensures DecodeUnpadded(EncodeUnpadded(b)) == b
    decreases |b|
  {
    UnpaddedLengthMod(|b|);
    if |b| >= 3 {
      var t := EncodeUnpadded(b[3..]);
      assert EncodeUnpadded(b) == EncodeGroup(b[0], b[1], b[2]) + t;
      DecodeEncodeUnpadded(b[3..]);
      DecodeGroup(b[0], b[1], b[2], t);
      SplitThree(b);
    } else if |b| == 2 {
      DecodeTail2(b[0], b[1]);
      assert b == [b[0], b[1]];
    } else if |b| == 1 {
      DecodeTail1(b[0]);
      assert b == [b[0]];
    }
  }

  lemma SplitThree(b: seq<Byte>)
    requires |b| >= 3
    ensures b == [b[0], b[1], b[2]] + b[3..]
  {
  }

  /** A two-byte tail, written as three characters, decodes back. */
  lemma DecodeTail2(b0: Byte, b1: Byte)
    ensures var s := EncodeUnpadded([b0, b1]); AllAlphabet(s) && |s| == 3 && DecodeUnpadded(s) == [b0, b1]
  {
    var v0, v1, v2 := b0 / 4, (b0 % 4) * 16 + b1 / 16, (b1 % 16) * 4;
    assert EncodeUnpadded([b0, b1]) == [CharOf(v0), CharOf(v1), CharOf(v2)];
    TripleRoundTrip(b0, b1, 0);
    assert [v0 * 4 + v1 / 16, (v1 % 16) * 16 + v2 / 4] == [b0, b1];
    DecodeThree(v0, v1, v2);
  }

  /** Three alphabet characters decode to the two bytes their six-bit values spell. */
  lemma DecodeThree(v0: Sextet, v1: Sextet, v2: Sextet)
    ensures var s := [CharOf(v0), CharOf(v1), CharOf(v2)];
      AllAlphabet(s) && |s| == 3 && DecodeUnpadded(s) == [v0 * 4 + v1 / 16, (v1 % 16) * 16 + v2 / 4]
  {
    IndexOfCharOf(v0);
    IndexOfCharOf(v1);
    IndexOfCharOf(v2);
  }

  /** A one-byte tail, written as two characters, decodes back. */
  lemma DecodeTail1(b0: Byte)
    ensures var s := EncodeUnpadded([b0]); AllAlphabet(s) && |s| == 2 && DecodeUnpadded(s) == [b0]
  {
    var v0, v1 := b0 / 4, (b0 % 4) * 16;
    var s := [CharOf(v0), CharOf(v1)];
    assert EncodeUnpadded([b0]) == s;
    IndexOfCharOf(v0);
    IndexOfCharOf(v1);
    assert DecodeUnpadded(s) == [v0 * 4 + v1 / 16];
    TripleRoundTrip(b0, 0, 0);
  }

  lemma {:induction false} StripWhitespaceNoop(s: string)
    requires forall i :: 0 <= i < |s| ==> !IsAsciiWhitespace(s[i])
    ensures StripWhitespace(s) == s
  {
    if s != [] {
      StripWhitespaceNoop(s[1..]);
    }
  }

  /** Whitespace stripping and padding removal turn the encoding back into its unpadded part. */
  lemma DropPaddingOfEncode(b: seq<Byte>)
    ensures DropPadding(StripWhitespace(Encode(b))) == EncodeUnpadded(b)
  {
    PaddedLength(b);
    StripThenDrop(EncodeUnpadded(b), Padding(|b|));
  }

  lemma StripThenDrop(u: string, pad: string)
    requires AllAlphabet(u)
    requires pad == "" || pad == "=" || pad == "=="
    requires (|u| + |pad|) % 4 == 0 && (pad != "" ==> |u| >= 2)
    ensures DropPadding(StripWhitespace(u + pad)) == u
  {
    NoWhitespaceIn(u, pad);
    DropPaddingOf(u, pad);
  }

  /** Alphabet characters followed by padding hold no whitespace to strip. */
  lemma NoWhitespaceIn(u: string, pad: string)
    requires AllAlphabet(u)
    requires pad == "" || pad == "=" || pad == "=="
    ensures StripWhitespace(u + pad) == u + pad
  {
    var s := u + pad;
    forall i | 0 <= i < |s| ensures !IsAsciiWhitespace(s[i]) {
      if i < |u| { assert s[i] == u[i]; }
    }
    StripWhitespaceNoop(s);
  }

  /** The padding completes the last group of four, and follows at least two characters. */
  lemma PaddedLength(b: seq<Byte>)
    ensures var u, pad := EncodeUnpadded(b), Padding(|b|);
      (pad == "" || pad == "=" || pad == "==") && (|u| + |pad|) % 4 == 0 && (pad != "" ==> |u| >= 2)
  {
    WholeGroups(|b|);
  }

  lemma DropPaddingOf(u: string, pad: string)
    requires AllAlphabet(u)
    requires pad == "" || pad == "=" || pad == "=="
    requires (|u| + |pad|) % 4 == 0 && (pad != "" ==> |u| >= 2)
    ensures DropPadding(u + pad) == u
  {
    var s := u + pad;
    if pad == "" {
      assert u != [] ==> IsAlphabetChar(u[|u| - 1]);
    } else if pad == "==" {
      assert s[..|s| - 2] == u;
    } else {
      assert s[|s| - 2] == u[|u| - 1];
      assert s[..|s| - 1] == u;
    }
  }

  /** Forgiving decode returns exactly the bytes that were encoded. */
  lemma DecodeEncode(b: seq<Byte>)
    ensures Decode(Encode(b)) == Some(b)
  {
    DropPaddingOfEncode(b);
    DecodeEncodeUnpadded(b);
  }

  /** `atob(btoa(binary))` gives back the binary string. */
  lemma AtobBtoa(bytes: seq<Byte>)
    ensures Btoa(FromBytes(bytes)) == Some(Encode(bytes))
    ensures Atob(Encode(bytes)) == Some(FromBytes(bytes))
  {
    CharCodesFromBytes(bytes);
    DecodeEncode(bytes);
  }

  /** `btoa` rejects a string holding a character that is not a single byte. */
  lemma BtoaRejectsWideChar(data: string, i: nat)
    requires i < |data| && data[i] as int >= 256
    ensures Btoa(data) == None
  {
  }

  /** Decoding fails on a character outside the alphabet that is neither whitespace nor padding, wherever it stands. */
  lemma DecodeRejectsForeignChar(s: string, i: nat)
    requires i < |s| && !IsAlphabetChar(s[i]) && !IsAsciiWhitespace(s[i]) && s[i] != '='
    ensures Decode(s) == None
  {
    var j := StripKeeps(s, i);
    var t := StripWhitespace(s);
    DropPaddingKeeps(t, j);
    assert !IsAlphabetChar(DropPadding(t)[j]);
  }

  /** A character that is not whitespace survives the stripping, at some position. */
  lemma {:induction false} StripKeeps(s: string, i: nat) returns (j: nat)
    requires i < |s| && !IsAsciiWhitespace(s[i])
    ensures j < |StripWhitespace(s)| && StripWhitespace(s)[j] == s[i]
    decreases |s|
  {
    if i == 0 {
      j := 0;
    } else {
      var j' := StripKeeps(s[1..], i - 1);
      j := if IsAsciiWhitespace(s[0]) then j' else j' + 1;
    }
  }

  /** Dropping the padding keeps every character that is not `=` where it was. */
  lemma DropPaddingKeeps(s: string, j: nat)
    requires j < |s| && s[j] != '='
    ensures j < |DropPadding(s)| && DropPadding(s)[j] == s[j]
  {
  }
}
