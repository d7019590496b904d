/**
 * Bytes and JavaScript "binary strings": strings whose every code unit is below 256,
 * one per byte, as built by `String.fromCharCode(b)` and read back by `charCodeAt(i)`.
 */
module BinaryString {
  type Byte = b: int | 0 <= b < 256

  /** A string every character of which stands for one byte. */
  predicate IsBinary(s: string) {
    forall i :: 0 <= i < |s| ==> s[i] as int < 256
  }

  /** `String.fromCharCode` applied to every byte, in order. */
  function FromBytes(bytes: seq<Byte>): (s: string)
    ensures |s| == |bytes| && IsBinary(s)
    ensures forall i :: 0 <= i < |bytes| ==> s[i] as int == bytes[i]
  {
    seq(|bytes|, i requires 0 <= i < |bytes| => bytes[i] as char)
  }

  /** `charCodeAt` applied to every position of a binary string. */
  function CharCodes(s: string): (bytes: seq<Byte>)
    requires IsBinary(s)
    ensures |bytes| == |s|
    ensures forall i :: 0 <= i < |s| ==> bytes[i] == s[i] as int
  {
    seq(|s|, i requires 0 <= i < |s| => s[i] as int)
  }

  /** Reading the char codes of the binary string of some bytes gives those bytes back. */
  lemma CharCodesFromBytes(bytes: seq<Byte>)
    ensures CharCodes(FromBytes(bytes)) == bytes
  {
  }
}
