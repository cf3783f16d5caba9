/** UTF-8 well-formedness, as checked by Rust's `String::from_utf8`: the
    byte sequences of Table 3-7 of the Unicode Standard (no overlong forms,
    no surrogates, nothing above U+10FFFF). */
module Utf8 {
  import opened Common

  predicate IsContinuation(b: Byte) {
    0x80 <= b <= 0xBF
  }

  /** Length of the well-formed scalar encoding that starts `s`, or 0 when
      `s` does not start with one. */
  function LeadWidth(s: seq<Byte>): (w: nat)
    requires |s| > 0
    ensures w <= 4 && w <= |s|
  {
    var b := s[0];
    if b <= 0x7F then 1
    else if 0xC2 <= b <= 0xDF then
      (if |s| >= 2 && IsContinuation(s[1]) then 2 else 0)
    else if b == 0xE0 then
      (if |s| >= 3 && 0xA0 <= s[1] <= 0xBF && IsContinuation(s[2]) then 3 else 0)
    else if (0xE1 <= b <= 0xEC) || (0xEE <= b <= 0xEF) then
      (if |s| >= 3 && IsContinuation(s[1]) && IsContinuation(s[2]) then 3 else 0)
    else if b == 0xED then
      (if |s| >= 3 && 0x80 <= s[1] <= 0x9F && IsContinuation(s[2]) then 3 else 0)
    else if b == 0xF0 then
      (if |s| >= 4 && 0x90 <= s[1] <= 0xBF && IsContinuation(s[2]) && IsContinuation(s[3]) then 4 else 0)
    else if 0xF1 <= b <= 0xF3 then
      (if |s| >= 4 && IsContinuation(s[1]) && IsContinuation(s[2]) && IsContinuation(s[3]) then 4 else 0)
    else if b == 0xF4 then
      (if |s| >= 4 && 0x80 <= s[1] <= 0x8F && IsContinuation(s[2]) && IsContinuation(s[3]) then 4 else 0)
    else 0
  }

  predicate ValidUtf8(s: seq<Byte>)
    decreases |s|
  {
    |s| == 0 || (var w := LeadWidth(s); w > 0 && ValidUtf8(s[w..]))
  }

  /** Every ASCII byte string is well-formed UTF-8; decimal numerals are. */
  lemma {:induction false} AsciiIsUtf8(s: seq<Byte>)
    requires forall i :: 0 <= i < |s| ==> s[i] < 0x80
    ensures ValidUtf8(s)
    decreases |s|
  {
    if |s| > 0 {
      assert LeadWidth(s) == 1;
      AsciiIsUtf8(s[1..]);
    }
  }
}
