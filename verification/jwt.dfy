/**
 * The session tokens of `server/auth/jwt.go`. Despite the name they are not JSON
 * Web Tokens: a token is the URL-safe, padded base 64 encoding of the text
 * `<user id>:<expiry in Unix seconds>`, and nothing in it is signed. The signing
 * key that `InitJWT` draws at start-up is never read by the encoder or decoder.
 */
module Jwt {
  import opened Wrappers
  import opened Text
  import opened Base64
  import opened Fmt

  /** A `time.Time` reduced to what the code reads: Unix seconds and the
      nanoseconds within that second. */
  datatype Instant = Instant(sec: int, nsec: int)

  predicate ValidInstant(t: Instant) {
    0 <= t.nsec < 1_000_000_000
  }

  /** Seconds from the start of year 1 to the Unix epoch, the offset at which
      `time.Time` keeps its seconds. */
  const UnixToInternal: int := 62_135_596_800

  /** The largest Unix second `time.Unix` stores without wrapping around. */
  const MaxUnwrappedUnix: int := 0x7FFF_FFFF_FFFF_FFFF - UnixToInternal

  /** An `int64` sum, wrapped around as Go's two's-complement addition does. */
  function WrapInt64(x: int): (r: int)
    ensures InRange(r, Int64)
    ensures (r - x) % 0x1_0000_0000_0000_0000 == 0
    ensures InRange(x, Int64) ==> r == x
  {
    (x + 0x8000_0000_0000_0000) % 0x1_0000_0000_0000_0000 - 0x8000_0000_0000_0000
  }

  /** The seconds a `time.Time` made by `time.Unix(t.sec, t.nsec)` keeps: the
      Unix seconds plus the year-1 offset, in an `int64` that wraps. */
  function Internal(t: Instant): (s: int)
    ensures InRange(s, Int64)
  {
    WrapInt64(t.sec + UnixToInternal)
  }

  /** `t.After(u)`: strictly later, compared by the stored second and then
      the nanosecond. */
  predicate After(t: Instant, u: Instant) {
    Internal(t) > Internal(u) || (Internal(t) == Internal(u) && t.nsec > u.nsec)
  }

  /** For Unix seconds from year 1 up to `MaxUnwrappedUnix` nothing wraps, and
      `After` is the plain comparison of seconds, then nanoseconds. */
  lemma AfterUnwrapped(t: Instant, u: Instant)
    requires -UnixToInternal <= t.sec <= MaxUnwrappedUnix && -UnixToInternal <= u.sec <= MaxUnwrappedUnix
    ensures After(t, u) <==> t.sec > u.sec || (t.sec == u.sec && t.nsec > u.nsec)
  {
    assert Internal(t) == t.sec + UnixToInternal;
    assert Internal(u) == u.sec + UnixToInternal;
  }

  /** `TokenExpiry`, 24 hours, in seconds. */
  const TokenExpirySeconds: int := 24 * 60 * 60

  datatype Claims = Claims(UserID: int, ExpiresAt: Instant)

  /** `ErrInvalidToken` and `ErrExpiredToken`. */
  datatype TokenError = InvalidToken | ExpiredToken {
    function Message(): string {
      match this
      case InvalidToken => "invalid token"
      case ExpiredToken => "token has expired"
    }
  }

  // ------------------------------------------------------- bytes and strings

  predicate IsAscii(s: string) {
    forall i :: 0 <= i < |s| ==> s[i] as int < 128
  }

  /** `[]byte(s)` for a string of ASCII characters: one byte per character. */
  function AsciiBytes(s: string): (bs: seq<byte>)
    requires IsAscii(s)
    ensures |bs| == |s|
    ensures forall i :: 0 <= i < |s| ==> bs[i] == s[i] as int
  {
    seq(|s|, i requires 0 <= i < |s| => s[i] as int as byte)
  }

  /** A continuation byte of a UTF-8 sequence, `10xxxxxx`. */
  predicate Continuation(b: byte) {
    0x80 <= b < 0xC0
  }

  /** The second byte allowed after a lead byte of a three- or four-byte
      sequence: narrower after `E0` and `F0` (no overlong forms), `ED` (no
      surrogates) and `F4` (nothing above U+10FFFF). */
  predicate SecondByte(lead: byte, b: byte) {
    if lead == 0xE0 then 0xA0 <= b < 0xC0
    else if lead == 0xED then 0x80 <= b < 0xA0
    else if lead == 0xF0 then 0x90 <= b < 0xC0
    else if lead == 0xF4 then 0x80 <= b < 0x90
    else Continuation(b)
  }

  /** `utf8.DecodeRune`: the character that a well-formed UTF-8 sequence at the
      start of `bs` encodes, and its length, which is the shortest for that
      character. A byte that does not start one is read alone as U+FFFD. */
  function DecodeRune(bs: seq<byte>): (r: (char, nat))
    requires |bs| > 0
    ensures 1 <= r.1 <= |bs| && r.1 <= 4
    ensures bs[0] < 0x80 <==> r.1 == 1 && r.0 as int == bs[0]
    ensures bs[0] >= 0x80 && r.1 == 1 ==> r.0 == '\U{FFFD}'
    ensures r.1 == 2 ==> 0x80 <= r.0 as int < 0x800
    ensures r.1 == 3 ==> 0x800 <= r.0 as int < 0x10000
    ensures r.1 == 4 ==> 0x10000 <= r.0 as int < 0x110000
  {
    var b0 := bs[0] as int;
    if b0 < 0x80 then (b0 as char, 1)
    else if 0xC2 <= b0 < 0xE0 && |bs| >= 2 && Continuation(bs[1]) then
      (((b0 - 0xC0) * 0x40 + (bs[1] as int - 0x80)) as char, 2)
    else if 0xE0 <= b0 < 0xF0 && |bs| >= 3 && SecondByte(bs[0], bs[1]) && Continuation(bs[2]) then
      (((b0 - 0xE0) * 0x1000 + (bs[1] as int - 0x80) * 0x40 + (bs[2] as int - 0x80)) as char, 3)
    else if 0xF0 <= b0 < 0xF5 && |bs| >= 4 && SecondByte(bs[0], bs[1])
         && Continuation(bs[2]) && Continuation(bs[3]) then
      (((b0 - 0xF0) * 0x40000 + (bs[1] as int - 0x80) * 0x1000 + (bs[2] as int - 0x80) * 0x40 + (bs[3] as int - 0x80)) as char, 4)
    else ('\U{FFFD}', 1)
  }

  /** The characters `fmt.Sscanf` reads from `string(data)`, one rune at a
      time: well-formed UTF-8 is decoded and every other byte is read as
      U+FFFD. */
  function BytesToText(bs: seq<byte>): (s: string)
    ensures |s| <= |bs|
    ensures |bs| > 0 && bs[0] < 0x80 ==> |s| > 0 && s[0] as int == bs[0]
    decreases |bs|
  {
    if |bs| == 0 then []
    else
      var (c, n) := DecodeRune(bs);
      [c] + BytesToText(bs[n..])
  }

  /** Text that is ASCII reads back as itself. */
  lemma {:induction false} AsciiRoundTrip(s: string)
    requires IsAscii(s)
    ensures BytesToText(AsciiBytes(s)) == s
    decreases |s|
  {
    if |s| > 0 {
      var bs := AsciiBytes(s);
      assert bs[1..] == AsciiBytes(s[1..]);
      AsciiRoundTrip(s[1..]);
    }
  }

  /** The two bytes `C2 A0` are read as one no-break space. */
  lemma NoBreakSpace(bs: seq<byte>)
    ensures BytesToText([0xC2, 0xA0] + bs) == ['\U{00A0}'] + BytesToText(bs)
  {
    var data := [0xC2, 0xA0] + bs;
    assert DecodeRune(data) == ('\U{00A0}', 2);
    assert data[2..] == bs;
  }

  // --------------------------------------------------------------- encoding

  /** The format `"%d:%d"` of the token text; both destinations are `int64`. */
  const PayloadFormat := [Verb(Int64), Lit(":"), Verb(Int64)]

  /** `fmt.Sprintf("%d:%d", claims.UserID, claims.ExpiresAt.Unix())`. */
  function Payload(c: Claims): (text: string)
    ensures text == IntToDecimal(c.UserID) + ":" + IntToDecimal(c.ExpiresAt.sec)
  {
    Sprintf(PayloadFormat, [c.UserID, c.ExpiresAt.sec])
  }

  lemma DecimalIsAscii(i: int)
    ensures IsAscii(IntToDecimal(i))
  {
    var ds := NatToDecimal(if i < 0 then -i else i);
    assert forall k :: 0 <= k < |ds| ==> ds[k] as int < 128;
  }

  lemma PayloadIsAscii(c: Claims)
    ensures IsAscii(Payload(c))
  {
    DecimalIsAscii(c.UserID);
    DecimalIsAscii(c.ExpiresAt.sec);
  }

  /** `[]byte(payload)`: the printed claims are ASCII, one byte a character. */
  function PayloadBytes(c: Claims): seq<byte> {
    PayloadIsAscii(c);
    AsciiBytes(Payload(c))
  }

  /** `encodeToken`: it never fails. */
  function EncodeToken(c: Claims): (token: string)
    ensures forall i :: 0 <= i < |token| ==> EncodedChar(UrlSafe, token[i])
  {
    UrlEncode(PayloadBytes(c))
  }

  /** `GenerateToken` at clock reading `now`: the claims expire 24 hours later,
      and the token decodes to them to the whole second. */
  function GenerateToken(userId: int, now: Instant): (token: string)
    ensures InRange(userId, Int64) && InRange(now.sec + TokenExpirySeconds, Int64) ==>
      DecodeToken(token) == Success(Claims(userId, Instant(now.sec + TokenExpirySeconds, 0)))
  {
    var c := Claims(userId, Instant(now.sec + TokenExpirySeconds, now.nsec));
    if InRange(userId, Int64) && InRange(now.sec + TokenExpirySeconds, Int64) then
      DecodeEncode(c);
      EncodeToken(c)
    else EncodeToken(c)
  }

  // --------------------------------------------------------------- decoding

  /** `decodeToken`: every failure, of base 64 or of the scan, is
      `ErrInvalidToken`; the expiry carries whole seconds only. */
  function DecodeToken(token: string): (r: Result<Claims, TokenError>)
    ensures r.Failure? ==> r.error == InvalidToken
    ensures r.Success? ==> InRange(r.value.UserID, Int64) && InRange(r.value.ExpiresAt.sec, Int64)
    ensures r.Success? ==> r.value.ExpiresAt.nsec == 0
  {
    match UrlDecode(token)
    case None => Failure(InvalidToken)
    case Some(data) =>
      match Sscanf(BytesToText(data), PayloadFormat)
      case None => Failure(InvalidToken)
      case Some(vs) => Success(Claims(vs[0], Instant(vs[1], 0)))
  }

  /** `ValidateToken` at clock reading `now`. */
  function ValidateToken(token: string, now: Instant): (r: Result<Claims, TokenError>)
    ensures r.Success? <==> DecodeToken(token).Success? && !After(now, DecodeToken(token).value.ExpiresAt)
    ensures r.Success? ==> r.value == DecodeToken(token).value
    ensures r.Failure? && r.error == ExpiredToken ==> DecodeToken(token).Success?
  {
    match DecodeToken(token)
    case Failure(e) => Failure(e)
    case Success(c) => if After(now, c.ExpiresAt) then Failure(ExpiredToken) else Success(c)
  }

  // ----------------------------------------------------------------- proofs

  lemma ScanPayload(c: Claims)
    requires InRange(c.UserID, Int64) && InRange(c.ExpiresAt.sec, Int64)
    ensures Sscanf(Payload(c), PayloadFormat) == Some([c.UserID, c.ExpiresAt.sec])
  {
    ScanPrinted(PayloadFormat, [c.UserID, c.ExpiresAt.sec]);
  }

  /** Decoding an encoded token gives back the user id and the expiry with its
      nanoseconds dropped, for any values that fit Go's 64-bit integers. */
  lemma {:induction false} DecodeEncode(c: Claims)
    requires InRange(c.UserID, Int64) && InRange(c.ExpiresAt.sec, Int64)
    ensures DecodeToken(EncodeToken(c)) == Success(Claims(c.UserID, Instant(c.ExpiresAt.sec, 0)))
  {
    PayloadIsAscii(c);
    var bs := PayloadBytes(c);
    UrlRoundTrip(bs);
    AsciiRoundTrip(Payload(c));
    ScanPayload(c);
  }

  /** A freshly generated token is accepted exactly until the whole second in
      which it expires has passed: since the nanoseconds are dropped, it is
      refused from up to one second before the 24 hours are over. */
  lemma GeneratedTokenLifetime(userId: int, issued: Instant, now: Instant)
    requires InRange(userId, Int64) && InRange(issued.sec + TokenExpirySeconds, Int64)
    ensures ValidateToken(GenerateToken(userId, issued), now).Success?
        <==> !After(now, Instant(issued.sec + TokenExpirySeconds, 0))
    ensures ValidateToken(GenerateToken(userId, issued), now).Success? ==>
        ValidateToken(GenerateToken(userId, issued), now).value.UserID == userId
    ensures ValidateToken(GenerateToken(userId, issued), now).Failure? ==>
        ValidateToken(GenerateToken(userId, issued), now).error == ExpiredToken
  {
    var c := Claims(userId, Instant(issued.sec + TokenExpirySeconds, issued.nsec));
    var token := GenerateToken(userId, issued);
    assert token == EncodeToken(c);
    DecodeEncode(c);
    assert DecodeToken(token) == Success(Claims(userId, Instant(issued.sec + TokenExpirySeconds, 0)));
  }

  /** Because nothing is signed, anyone who knows the format can mint a token
      that validates as any user with any expiry, without the signing key. */
  lemma TokensAreForgeable(userId: int, expiry: int, now: Instant)
    requires InRange(userId, Int64) && InRange(expiry, Int64)
    requires !After(now, Instant(expiry, 0))
    ensures ValidateToken(EncodeToken(Claims(userId, Instant(expiry, 0))), now)
         == Success(Claims(userId, Instant(expiry, 0)))
  {
    DecodeEncode(Claims(userId, Instant(expiry, 0)));
  }

  /** `time.Unix` wraps an expiry above `MaxUnwrappedUnix` to before the year
      1, so a token carrying one has expired at any clock reading from year 1
      on, though its Unix seconds are far in the future. */
  lemma WrappedExpiryIsExpired(userId: int, expiry: int, now: Instant)
    requires InRange(userId, Int64) && MaxUnwrappedUnix < expiry && InRange(expiry, Int64)
    requires -UnixToInternal <= now.sec <= MaxUnwrappedUnix
    ensures ValidateToken(EncodeToken(Claims(userId, Instant(expiry, 0))), now) == Failure(ExpiredToken)
  {
    var c := Claims(userId, Instant(expiry, 0));
    DecodeEncode(c);
    WrappedIsEarlier(expiry, now);
    assert DecodeToken(EncodeToken(c)) == Success(c);
  }

  lemma WrappedIsEarlier(expiry: int, now: Instant)
    requires MaxUnwrappedUnix < expiry && InRange(expiry, Int64)
    requires -UnixToInternal <= now.sec <= MaxUnwrappedUnix
    ensures After(now, Instant(expiry, 0))
  {
    var x := expiry + UnixToInternal;
    assert 0x8000_0000_0000_0000 <= x < 0x1_0000_0000_0000_0000;
    assert (x + 0x8000_0000_0000_0000) % 0x1_0000_0000_0000_0000 == x - 0x8000_0000_0000_0000;
    assert Internal(Instant(expiry, 0)) < 0;
    assert Internal(now) == now.sec + UnixToInternal;
  }

  /** A text that is not padded URL-safe base 64 is refused as invalid, not
      as expired, whatever the clock says. */
  lemma MalformedTokenIsInvalid(token: string, now: Instant)
    requires UrlDecode(token).None?
    ensures ValidateToken(token, now) == Failure(InvalidToken)
  {
  }

  /** Neither is base 64 whose text does not scan as `%d:%d`. */
  lemma UnscannableTokenIsInvalid(token: string, now: Instant)
    requires UrlDecode(token).Some? && Sscanf(BytesToText(UrlDecode(token).value), PayloadFormat).None?
    ensures ValidateToken(token, now) == Failure(InvalidToken)
  {
  }

  /** The text is decoded as UTF-8 before it is scanned, so a no-break space
      (bytes `C2 A0`) before the user id is skipped like any other space. */
  lemma SpacedPayloadDecodes(c: Claims)
    requires InRange(c.UserID, Int64) && InRange(c.ExpiresAt.sec, Int64)
    ensures DecodeToken(UrlEncode([0xC2, 0xA0] + PayloadBytes(c)))
         == Success(Claims(c.UserID, Instant(c.ExpiresAt.sec, 0)))
  {
    var bs := [0xC2, 0xA0] + PayloadBytes(c);
    UrlRoundTrip(bs);
    PayloadIsAscii(c);
    AsciiRoundTrip(Payload(c));
    NoBreakSpace(PayloadBytes(c));
    LeadingSpace(PayloadFormat, '\U{00A0}', Payload(c));
    ScanPayload(c);
  }
}
