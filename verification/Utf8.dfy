/** UTF-8 as RFC 3629 defines it, and Go's utf8.DecodeRune on top of it. */
module Utf8 {
  // EncodeRune is the table of section 3, IsUtf8Char the ABNF of section 4, and DecodeRune the
  // left-to-right decoder with its first-byte classes and second-byte ranges.  The three are
  // defined independently; the lemmas of this module tie each to the others.

  import opened ByteType

  const RUNE_ERROR := 0xFFFD

  datatype Decoded = Decoded(rune: int, size: nat)

  predicate IsScalar(c: int) {
    0 <= c < 0xD800 || 0xE000 <= c < 0x11_0000
  }

  // RFC 3629, section 3.
  function EncodeRune(c: int): (s: seq<byte>)
    requires IsScalar(c)
    ensures 1 <= |s| <= 4
  {
    if c < 0x80 then [c]
    else if c < 0x800 then [0xC0 + c / 64, 0x80 + c % 64]
    else if c < 0x1_0000 then [0xE0 + c / 4096, 0x80 + c / 64 % 64, 0x80 + c % 64]
    else [0xF0 + c / 262144, 0x80 + c / 4096 % 64, 0x80 + c / 64 % 64, 0x80 + c % 64]
  }

  predicate IsTail(b: byte) {
    0x80 <= b <= 0xBF
  }

  // RFC 3629, section 4: UTF8-1, UTF8-2, UTF8-3 and UTF8-4.
  predicate IsUtf8Char(s: seq<byte>) {
    || (|s| == 1 && s[0] <= 0x7F)
    || (|s| == 2 && 0xC2 <= s[0] <= 0xDF && IsTail(s[1]))
    || (|s| == 3 && IsTail(s[2]) &&
        (|| (s[0] == 0xE0 && 0xA0 <= s[1] <= 0xBF)
         || (0xE1 <= s[0] <= 0xEC && IsTail(s[1]))
         || (s[0] == 0xED && 0x80 <= s[1] <= 0x9F)
         || (0xEE <= s[0] <= 0xEF && IsTail(s[1]))))
    || (|s| == 4 && IsTail(s[2]) && IsTail(s[3]) &&
        (|| (s[0] == 0xF0 && 0x90 <= s[1] <= 0xBF)
         || (0xF1 <= s[0] <= 0xF3 && IsTail(s[1]))
         || (s[0] == 0xF4 && 0x80 <= s[1] <= 0x8F)))
  }

  // Number of bytes announced by a first byte; 0 for a byte that cannot start a rune.
  function SequenceLength(b0: byte): nat {
    if b0 < 0x80 then 1
    else if b0 < 0xC2 then 0
    else if b0 < 0xE0 then 2
    else if b0 < 0xF0 then 3
    else if b0 < 0xF5 then 4
    else 0
  }

  // The range allowed for the second byte, narrower after E0, ED, F0 and F4.
  predicate AcceptsSecond(b0: byte, b1: byte) {
    var lo := if b0 == 0xE0 then 0xA0 else if b0 == 0xF0 then 0x90 else 0x80;
    var hi := if b0 == 0xED then 0x9F else if b0 == 0xF4 then 0x8F else 0xBF;
    lo <= b1 <= hi
  }

  // utf8.DecodeRune: (RUNE_ERROR, 0) on the empty input, (RUNE_ERROR, 1) on an ill-formed or
  // truncated start, and the rune with its width otherwise.  A well-formed U+FFFD decodes to
  // (RUNE_ERROR, 3), which a caller comparing only the rune cannot tell from an error.
  function DecodeRune(p: seq<byte>): (d: Decoded)
    ensures d.size <= |p|
    ensures !IsErrorResult(d) ==> d.size >= 1
  {
    if |p| == 0 then Decoded(RUNE_ERROR, 0)
    else
      var n := SequenceLength(p[0]);
      if n == 1 then Decoded(p[0], 1)
      else if n == 0 || |p| < n || !AcceptsSecond(p[0], p[1]) then Decoded(RUNE_ERROR, 1)
      else if n == 2 then Decoded(Payload2(p[0], p[1]), 2)
      else if !IsTail(p[2]) then Decoded(RUNE_ERROR, 1)
      else if n == 3 then Decoded(Payload3(p[0], p[1], p[2]), 3)
      else if !IsTail(p[3]) then Decoded(RUNE_ERROR, 1)
      else Decoded(Payload4(p[0], p[1], p[2], p[3]), 4)
  }

  // The payload bits of a sequence, most significant first: the bits under the mask are what remains
  // of an accepted byte after taking its marker bits away.
  function Payload2(b0: int, b1: int): int {
    (b0 - 0xC0) * 64 + (b1 - 0x80)
  }

  function Payload3(b0: int, b1: int, b2: int): int {
    (b0 - 0xE0) * 4096 + (b1 - 0x80) * 64 + (b2 - 0x80)
  }

  function Payload4(b0: int, b1: int, b2: int, b3: int): int {
    (b0 - 0xF0) * 262144 + (b1 - 0x80) * 4096 + (b2 - 0x80) * 64 + (b3 - 0x80)
  }

  predicate IsErrorResult(d: Decoded) {
    d.rune == RUNE_ERROR && d.size <= 1
  }

  // The decoder inverts the encoder, whatever follows the encoded rune.
  lemma DecodeAfterEncode(c: int, rest: seq<byte>)
    requires IsScalar(c)
    ensures DecodeRune(EncodeRune(c) + rest) == Decoded(c, |EncodeRune(c)|)
    ensures !IsErrorResult(DecodeRune(EncodeRune(c) + rest))
  {
    var s := EncodeRune(c);
    assert forall i | 0 <= i < |s| :: (s + rest)[i] == s[i];
    if 0x80 <= c < 0x800 {
      SplitTwo(c, s[0], s[1]);
    } else if 0x800 <= c < 0x1_0000 {
      SplitThree(c, s[0], s[1], s[2]);
    } else if 0x1_0000 <= c {
      SplitFour(c, s[0], s[1], s[2], s[3]);
    }
  }

  lemma SplitTwo(c: int, b0: int, b1: int)
    requires 0x80 <= c < 0x800 && b0 == 0xC0 + c / 64 && b1 == 0x80 + c % 64
    ensures 0xC2 <= b0 < 0xE0 && 0x80 <= b1 <= 0xBF && Payload2(b0, b1) == c
  {}

  lemma SplitThree(c: int, b0: int, b1: int, b2: int)
    requires 0x800 <= c < 0x1_0000
    requires b0 == 0xE0 + c / 4096 && b1 == 0x80 + c / 64 % 64 && b2 == 0x80 + c % 64
    ensures 0xE0 <= b0 < 0xF0 && 0x80 <= b1 <= 0xBF && 0x80 <= b2 <= 0xBF
    ensures b0 == 0xE0 ==> 0xA0 <= b1
    ensures b0 == 0xED && c < 0xD800 ==> b1 <= 0x9F
    ensures c >= 0xE000 ==> b0 >= 0xEE
    ensures Payload3(b0, b1, b2) == c
  {
    assert c / 4096 == (c / 64) / 64;
  }

  lemma SplitFour(c: int, b0: int, b1: int, b2: int, b3: int)
    requires 0x1_0000 <= c < 0x11_0000
    requires b0 == 0xF0 + c / 262144 && b1 == 0x80 + c / 4096 % 64
    requires b2 == 0x80 + c / 64 % 64 && b3 == 0x80 + c % 64
    ensures 0xF0 <= b0 < 0xF5 && 0x80 <= b1 <= 0xBF && 0x80 <= b2 <= 0xBF && 0x80 <= b3 <= 0xBF
    ensures b0 == 0xF0 ==> 0x90 <= b1
    ensures b0 == 0xF4 ==> b1 <= 0x8F
    ensures Payload4(b0, b1, b2, b3) == c
  {
    assert c / 4096 == (c / 64) / 64;
    assert c / 262144 == (c / 4096) / 64;
  }

  // The encoder inverts the decoder: what DecodeRune accepts is the encoding of the scalar
  // value that it reports.
  lemma EncodeAfterDecode(p: seq<byte>)
    ensures var d := DecodeRune(p);
            !IsErrorResult(d) ==>
              IsScalar(d.rune) && EncodeRune(d.rune) == p[..d.size]
  {
    var d := DecodeRune(p);
    if !IsErrorResult(d) {
      if d.size == 2 {
        JoinTwo(p[0], p[1]);
      } else if d.size == 3 {
        JoinThree(p[0], p[1], p[2]);
      } else if d.size == 4 {
        JoinFour(p[0], p[1], p[2], p[3]);
      }
    }
  }

  lemma JoinTwo(b0: int, b1: int)
    requires 0xC2 <= b0 < 0xE0 && 0x80 <= b1 <= 0xBF
    ensures var c := Payload2(b0, b1); 0x80 <= c < 0x800 && 0xC0 + c / 64 == b0 && 0x80 + c % 64 == b1
  {}

  lemma JoinThree(b0: int, b1: int, b2: int)
    requires 0xE0 <= b0 < 0xF0 && 0x80 <= b1 <= 0xBF && 0x80 <= b2 <= 0xBF
    requires (b0 == 0xE0 ==> 0xA0 <= b1) && (b0 == 0xED ==> b1 <= 0x9F)
    ensures var c := Payload3(b0, b1, b2);
            && (0x800 <= c < 0xD800 || 0xE000 <= c < 0x1_0000)
            && 0xE0 + c / 4096 == b0 && 0x80 + c / 64 % 64 == b1 && 0x80 + c % 64 == b2
  {
    var c := Payload3(b0, b1, b2);
    assert c / 64 == (b0 - 0xE0) * 64 + (b1 - 0x80);
    assert c / 4096 == (c / 64) / 64;
  }

  lemma JoinFour(b0: int, b1: int, b2: int, b3: int)
    requires 0xF0 <= b0 < 0xF5 && 0x80 <= b1 <= 0xBF && 0x80 <= b2 <= 0xBF && 0x80 <= b3 <= 0xBF
    requires (b0 == 0xF0 ==> 0x90 <= b1) && (b0 == 0xF4 ==> b1 <= 0x8F)
    ensures var c := Payload4(b0, b1, b2, b3);
            && 0x1_0000 <= c < 0x11_0000
            && 0xF0 + c / 262144 == b0 && 0x80 + c / 4096 % 64 == b1
            && 0x80 + c / 64 % 64 == b2 && 0x80 + c % 64 == b3
  {
    var c := Payload4(b0, b1, b2, b3);
    assert c / 64 == (b0 - 0xF0) * 4096 + (b1 - 0x80) * 64 + (b2 - 0x80);
    assert c / 4096 == (c / 64) / 64 == (b0 - 0xF0) * 64 + (b1 - 0x80);
    assert c / 262144 == (c / 4096) / 64;
  }

  // The section 4 grammar generates exactly the encodings of scalar values.
  lemma GrammarIsImageOfEncoder(s: seq<byte>)
    ensures IsUtf8Char(s) <==> exists c | IsScalar(c) :: EncodeRune(c) == s
  {
    if IsUtf8Char(s) {
      EncodeAfterDecode(s);
      var c := DecodeRune(s).rune;
      assert IsScalar(c) && EncodeRune(c) == s;
    }
    forall c | IsScalar(c) && EncodeRune(c) == s
      ensures IsUtf8Char(s)
    {
      DecodeAfterEncode(c, []);
      assert s + [] == s;
    }
  }
}
