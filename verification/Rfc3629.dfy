/**
 * The reference definitions of UTF-8: the grammar of section 4 of RFC 3629 and
 * the encoding table of its section 3. Nothing here mentions a decoder state.
 */
module Rfc3629 {
  import opened Wrappers

  // UTF8-tail = %x80-BF
  predicate IsTail(b: int) {
    0x80 <= b <= 0xBF
  }

  predicate AllTails(s: seq<Byte>) {
    forall k :: 0 <= k < |s| ==> IsTail(s[k])
  }

  /** A code point other than a surrogate. */
  predicate IsScalar(wc: int) {
    0 <= wc <= 0xD7FF || 0xE000 <= wc <= 0x10FFFF
  }

  // UTF8-char = UTF8-1 / UTF8-2 / UTF8-3 / UTF8-4
  predicate IsUtf8Char(s: seq<Byte>) {
    match |s|
    case 1 => s[0] <= 0x7F
    case 2 => 0xC2 <= s[0] <= 0xDF && IsTail(s[1])
    case 3 =>
      && (|| (s[0] == 0xE0 && 0xA0 <= s[1] <= 0xBF)
          || (0xE1 <= s[0] <= 0xEC && IsTail(s[1]))
          || (s[0] == 0xED && 0x80 <= s[1] <= 0x9F)
          || (0xEE <= s[0] <= 0xEF && IsTail(s[1])))
      && IsTail(s[2])
    case 4 =>
      && (|| (s[0] == 0xF0 && 0x90 <= s[1] <= 0xBF)
          || (0xF1 <= s[0] <= 0xF3 && IsTail(s[1]))
          || (s[0] == 0xF4 && 0x80 <= s[1] <= 0x8F))
      && IsTail(s[2]) && IsTail(s[3])
    case _ => false
  }

  // UTF8-octets = *( UTF8-char )
  ghost predicate WellFormed(s: seq<Byte>)
    decreases |s|
  {
    s == [] || exists k :: 1 <= k <= |s| && IsUtf8Char(s[..k]) && WellFormed(s[k..])
  }

  predicate NulFree(s: seq<Byte>) {
    forall k :: 0 <= k < |s| ==> s[k] != 0
  }

  /** Well-formed and free of NUL: what a C string of UTF-8 text may hold. */
  ghost predicate IsText(s: seq<Byte>) {
    WellFormed(s) && NulFree(s)
  }

  /** The length a lead byte announces; 0xC0, 0xC1 and 0xF5-0xF7 announce one too. */
  function LeadLength(b: Byte): nat {
    if 0xC0 <= b <= 0xDF then 2 else if 0xE0 <= b <= 0xEF then 3 else if 0xF0 <= b <= 0xF7 then 4 else 0
  }

  /** A lead byte followed by tails only, but by too few of them. */
  predicate IsCutChar(s: seq<Byte>) {
    1 <= |s| < LeadLength(s[0]) && AllTails(s[1..])
  }

  /** The encoding table of section 3. */
  function Encode(wc: int): (s: seq<Byte>)
    requires IsScalar(wc)
    ensures 1 <= |s| <= 4
  {
    if wc <= 0x7F then [wc]
    else if wc <= 0x7FF then [0xC0 + wc / 64, 0x80 + wc % 64]
    else if wc <= 0xFFFF then [0xE0 + wc / 64 / 64, 0x80 + wc / 64 % 64, 0x80 + wc % 64]
    else [0xF0 + wc / 64 / 64 / 64, 0x80 + wc / 64 / 64 % 64, 0x80 + wc / 64 % 64, 0x80 + wc % 64]
  }

  predicate AllScalars(w: seq<int>) {
    forall k :: 0 <= k < |w| ==> IsScalar(w[k])
  }

  function EncodeAll(w: seq<int>): (s: seq<Byte>)
    requires AllScalars(w)
  {
    if w == [] then [] else Encode(w[0]) + EncodeAll(w[1..])
  }
}
