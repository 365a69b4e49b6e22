/**
 * UTF-8 well-formedness as defined by the syntax in section 4 of RFC 3629:
 * the check `decode_text` delegates to `simdutf8::basic::from_utf8`.
 */
module Utf8 {
  import opened Base

  predicate InRange(b: byte, lo: byte, hi: byte) { lo <= b <= hi }

  /** UTF8-tail = %x80-BF */
  predicate Tail(b: byte) { InRange(b, 0x80, 0xBF) }

  /**
   * The length of the well-formed character `s` starts with, or 0 when it
   * does not start with one (RFC 3629 UTF8-1 .. UTF8-4).
   */
  function CharWidth(s: seq<byte>): (w: nat)
    ensures w <= 4 && w <= |s|
    ensures |s| > 0 && s[0] < 0x80 ==> w == 1
  {
    if |s| == 0 then 0
    else
      var b0 := s[0];
      if b0 < 0x80 then 1
      else if InRange(b0, 0xC2, 0xDF) then
        if |s| >= 2 && Tail(s[1]) then 2 else 0
      else if InRange(b0, 0xE0, 0xEF) then
        if |s| < 3 || !Tail(s[2]) then 0
        else if b0 == 0xE0 then (if InRange(s[1], 0xA0, 0xBF) then 3 else 0)
        else if b0 == 0xED then (if InRange(s[1], 0x80, 0x9F) then 3 else 0)
        else (if Tail(s[1]) then 3 else 0)
      else if InRange(b0, 0xF0, 0xF4) then
        if |s| < 4 || !Tail(s[2]) || !Tail(s[3]) then 0
        else if b0 == 0xF0 then (if InRange(s[1], 0x90, 0xBF) then 4 else 0)
        else if b0 == 0xF4 then (if InRange(s[1], 0x80, 0x8F) then 4 else 0)
        else (if Tail(s[1]) then 4 else 0)
      else 0
  }

  /** UTF8-octets = *( UTF8-char ) */
  predicate IsUtf8(s: seq<byte>)
    decreases |s|
  {
    s == [] || (CharWidth(s) > 0 && IsUtf8(s[CharWidth(s)..]))
  }

  /** Bytes below 0x80 (ASCII) are well-formed text. */
  lemma {:induction false} AsciiIsUtf8(s: seq<byte>)
    requires forall i :: 0 <= i < |s| ==> s[i] < 0x80
    ensures IsUtf8(s)
    decreases |s|
  {
    if s != [] {
      AsciiIsUtf8(s[1..]);
    }
  }

  /** A lone continuation byte, or a truncated sequence, is not text. */
  lemma BrokenSequences(b: byte)
    ensures Tail(b) ==> !IsUtf8([b])
    ensures b >= 0xC2 ==> !IsUtf8([b])
  {
  }
}
