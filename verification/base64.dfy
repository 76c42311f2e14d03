/**
 * Base 64 as Go's `encoding/base64` implements it for the two encodings the
 * server uses: `RawStdEncoding` (the alphabet of section 4 of RFC 4648, padding
 * omitted as section 3.2 allows) for Argon2 hash strings, and `URLEncoding` (the
 * URL- and filename-safe alphabet of section 5 of RFC 4648, padded) for tokens.
 * The decoder is Go's default, non-strict one: the unused low bits of a final
 * quantum are ignored and carriage returns and line feeds are skipped.
 */
module Base64 {
  import opened Wrappers

  type byte = b: int | 0 <= b < 256

  /** Section 4 (`+`, `/`) or section 5 (`-`, `_`) of RFC 4648. */
  datatype Alphabet = Standard | UrlSafe

  predicate IsLetter(a: Alphabet, c: char) {
    ('A' <= c <= 'Z') || ('a' <= c <= 'z') || ('0' <= c <= '9')
    || c == (if a == Standard then '+' else '-')
    || c == (if a == Standard then '/' else '_')
  }

  /** The value of an alphabet letter. */
  function Value(a: Alphabet, c: char): (v: int)
    requires IsLetter(a, c)
    ensures 0 <= v < 64
  {
    if 'A' <= c <= 'Z' then c as int - 'A' as int
    else if 'a' <= c <= 'z' then c as int - 'a' as int + 26
    else if '0' <= c <= '9' then c as int - '0' as int + 52
    else if c == (if a == Standard then '+' else '-') then 62
    else 63
  }

  /** The letter for a 6-bit value; `Value` inverts it. */
  function Letter(a: Alphabet, v: int): (c: char)
    requires 0 <= v < 64
    ensures IsLetter(a, c) && Value(a, c) == v
  {
    if v < 26 then ('A' as int + v) as char
    else if v < 52 then ('a' as int + v - 26) as char
    else if v < 62 then ('0' as int + v - 52) as char
    else if v == 62 then (if a == Standard then '+' else '-')
    else (if a == Standard then '/' else '_')
  }

  /** Every character an encoder emits: a letter of the alphabet or padding. */
  predicate EncodedChar(a: Alphabet, c: char) {
    IsLetter(a, c) || c == '='
  }

  function EncodeGroup(a: Alphabet, b0: byte, b1: byte, b2: byte): string {
    [Letter(a, b0 / 4), Letter(a, (b0 % 4) * 16 + b1 / 16),
     Letter(a, (b1 % 16) * 4 + b2 / 64), Letter(a, b2 % 64)]
  }

  /** `EncodeToString`: three bytes to four letters; a final one or two bytes
      become two or three letters, padded with `=` to four when `pad` holds. */
  function Encode(a: Alphabet, pad: bool, bs: seq<byte>): (r: string)
    ensures forall i :: 0 <= i < |r| ==> EncodedChar(a, r[i])
    ensures !pad ==> forall i :: 0 <= i < |r| ==> IsLetter(a, r[i])
    decreases |bs|
  {
    if |bs| >= 3 then EncodeGroup(a, bs[0], bs[1], bs[2]) + Encode(a, pad, bs[3..])
    else if |bs| == 2 then
      [Letter(a, bs[0] / 4), Letter(a, (bs[0] % 4) * 16 + bs[1] / 16), Letter(a, (bs[1] % 16) * 4)]
      + (if pad then "=" else "")
    else if |bs| == 1 then
      [Letter(a, bs[0] / 4), Letter(a, (bs[0] % 4) * 16)] + (if pad then "==" else "")
    else ""
  }

  /** Padded output is four characters per started group of three bytes. */
  lemma {:induction false} PaddedLength(a: Alphabet, bs: seq<byte>)
    ensures |Encode(a, true, bs)| == 4 * ((|bs| + 2) / 3)
    decreases |bs|
  {
    if |bs| >= 3 {
      PaddedLength(a, bs[3..]);
      assert (|bs| + 2) / 3 == (|bs| - 1) / 3 + 1;
    }
  }

  /** Unpadded output is the bit count divided by six, rounded up. */
  lemma {:induction false} UnpaddedLength(a: Alphabet, bs: seq<byte>)
    ensures |Encode(a, false, bs)| == (8 * |bs| + 5) / 6
    decreases |bs|
  {
    if |bs| >= 3 {
      UnpaddedLength(a, bs[3..]);
      assert (8 * |bs| + 5) / 6 == (8 * (|bs| - 3) + 5) / 6 + 4;
    }
  }

  predicate Letters(a: Alphabet, s: string) {
    forall i :: 0 <= i < |s| ==> IsLetter(a, s[i])
  }

  function DecodeGroup(a: Alphabet, s: string): (r: seq<byte>)
    requires |s| == 4 && Letters(a, s)
    ensures |r| == 3
  {
    var v0, v1, v2, v3 := Value(a, s[0]), Value(a, s[1]), Value(a, s[2]), Value(a, s[3]);
    [v0 * 4 + v1 / 16, (v1 % 16) * 16 + v2 / 4, (v2 % 4) * 64 + v3]
  }

  /** A final quantum of two letters carries one byte, of three letters two. */
  function DecodeTail(a: Alphabet, s: string): (r: seq<byte>)
    requires 2 <= |s| <= 3 && Letters(a, s)
    ensures |r| == |s| - 1
  {
    var v0, v1 := Value(a, s[0]), Value(a, s[1]);
    if |s| == 2 then [v0 * 4 + v1 / 16]
    else [v0 * 4 + v1 / 16, (v1 % 16) * 16 + Value(a, s[2]) / 4]
  }

  /** Decoding without padding (`RawStdEncoding`): a final quantum of one letter,
      any non-letter and any `=` are errors. */
  function DecodeUnpadded(a: Alphabet, s: string): Option<seq<byte>>
    decreases |s|
  {
    if |s| == 0 then Some([])
    else if |s| == 1 then None
    else if |s| <= 3 then (if Letters(a, s) then Some(DecodeTail(a, s)) else None)
    else if !Letters(a, s[..4]) then None
    else match DecodeUnpadded(a, s[4..])
         case None => None
         case Some(rest) => Some(DecodeGroup(a, s[..4]) + rest)
  }

  /** Decoding with padding (`URLEncoding`): the length must be a multiple of
      four and `=` may only close the last quantum, as `xx==` or `xxx=` with
      the letters counted. */
  function DecodePadded(a: Alphabet, s: string): Option<seq<byte>>
    decreases |s|
  {
    if |s| == 0 then Some([])
    else if |s| < 4 then None
    else if |s| == 4 then
      if Letters(a, s) then Some(DecodeGroup(a, s))
      else if Letters(a, s[..3]) && s[3] == '=' then Some(DecodeTail(a, s[..3]))
      else if Letters(a, s[..2]) && s[2] == '=' && s[3] == '=' then Some(DecodeTail(a, s[..2]))
      else None
    else if !Letters(a, s[..4]) then None
    else match DecodePadded(a, s[4..])
         case None => None
         case Some(rest) => Some(DecodeGroup(a, s[..4]) + rest)
  }

  /** Go's decoders skip carriage returns and line feeds wherever they appear. */
  function DropNewlines(s: string): (r: string)
    ensures |r| <= |s|
  {
    if |s| == 0 then ""
    else (if s[0] == '\r' || s[0] == '\n' then "" else [s[0]]) + DropNewlines(s[1..])
  }

  /** `base64.RawStdEncoding.EncodeToString`. */
  function RawStdEncode(bs: seq<byte>): string {
    Encode(Standard, false, bs)
  }

  /** `base64.RawStdEncoding.DecodeString`. */
  function RawStdDecode(s: string): Option<seq<byte>> {
    DecodeUnpadded(Standard, DropNewlines(s))
  }

  /** `base64.URLEncoding.EncodeToString`. */
  function UrlEncode(bs: seq<byte>): string {
    Encode(UrlSafe, true, bs)
  }

  /** `base64.URLEncoding.DecodeString`. */
  function UrlDecode(s: string): Option<seq<byte>> {
    DecodePadded(UrlSafe, DropNewlines(s))
  }

  // ------------------------------------------------------------------ proofs

  /** Quotient and remainder recover the two halves of `q * d + r`. */
  lemma DivModParts(q: int, r: int, d: int)
    requires d == 4 || d == 16
    requires 0 <= r < d
    ensures (q * d + r) / d == q && (q * d + r) % d == r
  {
    if d == 4 {
      assert q * d + r == 4 * q + r;
    } else {
      assert q * d + r == 16 * q + r;
    }
  }

  /** Splitting a byte at `d` and putting it back together gives the byte. */
  lemma Recombine(b: int, d: int)
    requires d == 4 || d == 16 || d == 64
    ensures (b / d) * d + b % d == b
  {
  }

  lemma GroupRoundTrip(a: Alphabet, b0: byte, b1: byte, b2: byte)
    ensures Letters(a, EncodeGroup(a, b0, b1, b2))
    ensures DecodeGroup(a, EncodeGroup(a, b0, b1, b2)) == [b0, b1, b2]
  {
    DivModParts(b0 % 4, b1 / 16, 16);
    DivModParts(b1 % 16, b2 / 64, 4);
    Recombine(b0, 4);
    Recombine(b1, 16);
    Recombine(b2, 64);
  }

  lemma TailRoundTrip(a: Alphabet, bs: seq<byte>)
    requires 1 <= |bs| <= 2
    ensures var s := Encode(a, false, bs);
      2 <= |s| <= 3 && Letters(a, s) && DecodeTail(a, s) == bs
  {
    if |bs| == 2 {
      var v1 := (bs[0] % 4) * 16 + bs[1] / 16;
      assert v1 / 16 == bs[0] % 4 && v1 % 16 == bs[1] / 16;
    }
  }

  lemma NoNewlines(s: string)
    requires forall i :: 0 <= i < |s| ==> s[i] != '\r' && s[i] != '\n'
    ensures DropNewlines(s) == s
  {
  }

  lemma FirstThree(bs: seq<byte>)
    requires |bs| >= 3
    ensures bs == [bs[0], bs[1], bs[2]] + bs[3..]
  {
  }

  /** A full quantum in front is decoded on its own, the rest after it. */
  lemma UnpaddedCons(a: Alphabet, g: string, t: string)
    requires |g| == 4 && Letters(a, g)
    ensures DecodeUnpadded(a, g + t)
         == if DecodeUnpadded(a, t).Some? then Some(DecodeGroup(a, g) + DecodeUnpadded(a, t).value) else None
  {
    var s := g + t;
    assert s[..4] == g && s[4..] == t;
  }

  lemma PaddedCons(a: Alphabet, g: string, t: string)
    requires |g| == 4 && Letters(a, g)
    ensures DecodePadded(a, g + t)
         == if DecodePadded(a, t).Some? then Some(DecodeGroup(a, g) + DecodePadded(a, t).value) else None
  {
    var s := g + t;
    assert s[..4] == g && s[4..] == t;
    if |t| == 0 {
      assert s == g;
      assert DecodeGroup(a, g) + [] == DecodeGroup(a, g);
    }
  }

  /** Decoding an unpadded encoding returns the bytes that were encoded. */
  lemma {:induction false} UnpaddedRoundTrip(a: Alphabet, bs: seq<byte>)
    ensures DecodeUnpadded(a, Encode(a, false, bs)) == Some(bs)
    decreases |bs|
  {
    if |bs| >= 3 {
      var g := EncodeGroup(a, bs[0], bs[1], bs[2]);
      var t := Encode(a, false, bs[3..]);
      assert Encode(a, false, bs) == g + t;
      GroupRoundTrip(a, bs[0], bs[1], bs[2]);
      UnpaddedCons(a, g, t);
      UnpaddedRoundTrip(a, bs[3..]);
      FirstThree(bs);
    } else if |bs| > 0 {
      TailRoundTrip(a, bs);
    }
  }

  lemma PaddedTail(a: Alphabet, bs: seq<byte>)
    requires 1 <= |bs| <= 2
    ensures DecodePadded(a, Encode(a, true, bs)) == Some(bs)
  {
    var s := Encode(a, true, bs);
    var t := Encode(a, false, bs);
    TailRoundTrip(a, bs);
    if |bs| == 2 {
      assert s == t + "=" && s[..3] == t;
    } else {
      assert s == t + "==" && s[..2] == t;
    }
  }

  /** Decoding a padded encoding returns the bytes that were encoded. */
  lemma {:induction false} PaddedRoundTrip(a: Alphabet, bs: seq<byte>)
    ensures DecodePadded(a, Encode(a, true, bs)) == Some(bs)
    decreases |bs|
  {
    if |bs| >= 3 {
      var g := EncodeGroup(a, bs[0], bs[1], bs[2]);
      var t := Encode(a, true, bs[3..]);
      assert Encode(a, true, bs) == g + t;
      GroupRoundTrip(a, bs[0], bs[1], bs[2]);
      PaddedCons(a, g, t);
      PaddedRoundTrip(a, bs[3..]);
      FirstThree(bs);
    } else if |bs| > 0 {
      PaddedTail(a, bs);
    }
  }

  /** `RawStdEncoding` round trip, as the Argon2 hash string relies on. */
  lemma RawStdRoundTrip(bs: seq<byte>)
    ensures RawStdDecode(RawStdEncode(bs)) == Some(bs)
  {
    NoNewlines(RawStdEncode(bs));
    UnpaddedRoundTrip(Standard, bs);
  }

  /** `URLEncoding` round trip, as the session token relies on. */
  lemma UrlRoundTrip(bs: seq<byte>)
    ensures UrlDecode(UrlEncode(bs)) == Some(bs)
  {
    NoNewlines(UrlEncode(bs));
    PaddedRoundTrip(UrlSafe, bs);
  }
}
