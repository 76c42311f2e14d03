/**
 * The password-hash strings of `server/auth/argon2.go`:
 * `$argon2id$v=<version>$m=<memory>,t=<iterations>,p=<parallelism>$<salt>$<key>`
 * with salt and key in the standard base 64 alphabet without padding. The key
 * derivation function itself is a parameter: it is deterministic, which is all
 * the comparison relies on.
 */
module Argon2 {
  import opened Wrappers
  import opened Text
  import opened Base64
  import opened Fmt

  /** `Argon2Params`. Memory, iterations and the two lengths are `uint32`,
      parallelism is `uint8`. */
  datatype Params = Params(Memory: int, Iterations: int, Parallelism: int, SaltLength: int, KeyLength: int)

  /** `DefaultParams`: 64 MiB, three passes, two lanes, 16-byte salt, 32-byte key. */
  const DefaultParams := Params(64 * 1024, 3, 2, 16, 32)

  /** `argon2.Version`, 0x13. */
  const Version := 19

  /** `argon2.IDKey(password, salt, time, memory, threads, keyLen)`, for the
      costs it accepts; see `Derivable`. */
  type Kdf = (seq<byte>, seq<byte>, int, int, int, int) -> seq<byte>

  datatype HashError =
    | InvalidHashFormat   // `fmt.Errorf("invalid hash format")`
    | ScanFailure         // an error from `fmt.Sscanf`
    | Base64Failure       // an error from `RawStdEncoding.DecodeString`
    | RandomFailure       // an error from `crypto/rand.Read`
    | KdfPanic            // `argon2.IDKey` panics: no pass, no lane or an empty key

  /** `argon2.IDKey` panics unless there is at least one pass, one lane and
      one byte of key: for an empty key its BLAKE2b step writes through the
      hash that `blake2b.New(0, nil)` refuses to make. */
  predicate Derivable(p: Params) {
    p.Iterations >= 1 && p.Parallelism >= 1 && p.KeyLength >= 1
  }

  /** What `decodeHash` returns on success. */
  datatype Decoded = Decoded(params: Params, salt: seq<byte>, key: seq<byte>)

  // --------------------------------------------------------------- encoding

  /** `v=%d`, scanned into an `int`. */
  const VersionFormat := [Lit("v="), Verb(Int64)]

  /** `m=%d,t=%d,p=%d`, scanned into `uint32`, `uint32` and `uint8`. */
  const ParamsFormat := [Lit("m="), Verb(Uint32), Lit(",t="), Verb(Uint32), Lit(",p="), Verb(Uint8)]

  function VersionField(v: int): string {
    Sprintf(VersionFormat, [v])
  }

  function ParamsField(m: int, t: int, p: int): string {
    Sprintf(ParamsFormat, [m, t, p])
  }

  /** Six `$`-separated fields in the layout of the hash string, with any
      algorithm name and version; the first is empty because the string starts
      with `$`. */
  function FieldsWith(name: string, v: int, p: Params, salt: seq<byte>, key: seq<byte>): seq<string> {
    ["", name, VersionField(v), ParamsField(p.Memory, p.Iterations, p.Parallelism),
     RawStdEncode(salt), RawStdEncode(key)]
  }

  /** The fields `GenerateHash` writes. */
  function Fields(p: Params, salt: seq<byte>, key: seq<byte>): seq<string> {
    FieldsWith("argon2id", Version, p, salt, key)
  }

  /** The `fmt.Sprintf` of `GenerateHash`: none of its fields holds a `$`,
      so splitting on `$` gives them back. */
  function EncodeHash(p: Params, salt: seq<byte>, key: seq<byte>): (h: string)
    ensures Split(h, "$") == Fields(p, salt, key)
  {
    SplitFields("argon2id", Version, p, salt, key);
    Join(Fields(p, salt, key), "$")
  }

  /** `GenerateHash` with `rand.Read` drawing from `random`: the salt buffer of
      `SaltLength` bytes is filled in place, then the key is derived and the
      string formatted. Too few random bytes is the read error. Costs that
      make `argon2.IDKey` panic are the caller's to avoid. */
  method GenerateHash(kdf: Kdf, password: seq<byte>, p: Params, random: seq<byte>)
      returns (r: Result<string, HashError>)
    requires 0 <= p.SaltLength && Derivable(p)
    ensures r.Failure? <==> |random| < p.SaltLength
    ensures r.Failure? ==> r.error == RandomFailure
    ensures r.Success? ==>
      var salt := random[..p.SaltLength];
      r.value == EncodeHash(p, salt, kdf(password, salt, p.Iterations, p.Memory, p.Parallelism, p.KeyLength))
  {
    var salt := new byte[p.SaltLength];
    if |random| < p.SaltLength {
      return Failure(RandomFailure);
    }
    var i := 0;
    while i < salt.Length
      invariant 0 <= i <= salt.Length
      invariant salt[..i] == random[..i]
    {
      salt[i] := random[i];
      i := i + 1;
    }
    assert salt[..] == salt[..i];
    var key := kdf(password, salt[..], p.Iterations, p.Memory, p.Parallelism, p.KeyLength);
    r := Success(EncodeHash(p, salt[..], key));
  }

  // --------------------------------------------------------------- decoding

  /** `uint32(n)`. */
  function Uint32Of(n: nat): (r: nat)
    ensures r < 0x1_0000_0000
    ensures n < 0x1_0000_0000 ==> r == n
  {
    n % 0x1_0000_0000
  }

  /** `decodeHash`: the version is scanned but never compared with `Version`
      and the algorithm name is not looked at; the two lengths are those of the
      decoded salt and key, truncated to 32 bits. */
  function DecodeHash(encoded: string): (r: Result<Decoded, HashError>)
    ensures r == Failure(InvalidHashFormat) <==> |Split(encoded, "$")| != 6
    ensures r.Success? ==>
      var parts := Split(encoded, "$");
      Sscanf(parts[2], VersionFormat).Some? && Sscanf(parts[3], ParamsFormat).Some?
      && RawStdDecode(parts[4]) == Some(r.value.salt) && RawStdDecode(parts[5]) == Some(r.value.key)
    ensures r.Success? ==>
      r.value.params.SaltLength == Uint32Of(|r.value.salt|) && r.value.params.KeyLength == Uint32Of(|r.value.key|)
  {
    var parts := Split(encoded, "$");
    if |parts| != 6 then Failure(InvalidHashFormat)
    else if Sscanf(parts[2], VersionFormat).None? then Failure(ScanFailure)
    else
      match Sscanf(parts[3], ParamsFormat)
      case None => Failure(ScanFailure)
      case Some(mtp) =>
        match RawStdDecode(parts[4])
        case None => Failure(Base64Failure)
        case Some(salt) =>
          match RawStdDecode(parts[5])
          case None => Failure(Base64Failure)
          case Some(key) =>
            Success(Decoded(Params(mtp[0], mtp[1], mtp[2], Uint32Of(|salt|), Uint32Of(|key|)), salt, key))
  }

  /** `ComparePasswordAndHash`: a decoding error is passed on (the Go code
      returns `false` with it); stored costs of zero passes or lanes make the
      key derivation panic; otherwise the key is derived again from the
      stored salt and parameters and compared with the stored key. */
  function ComparePasswordAndHash(kdf: Kdf, password: seq<byte>, encoded: string): (r: Result<bool, HashError>)
    ensures DecodeHash(encoded).Failure? ==> r == Failure(DecodeHash(encoded).error)
    ensures r == Failure(KdfPanic) <==> DecodeHash(encoded).Success? && !Derivable(DecodeHash(encoded).value.params)
    ensures r.Success? <==> DecodeHash(encoded).Success? && Derivable(DecodeHash(encoded).value.params)
    ensures r.Success? ==>
      var d := DecodeHash(encoded).value;
      r.value <==> d.key == kdf(password, d.salt, d.params.Iterations, d.params.Memory, d.params.Parallelism, d.params.KeyLength)
  {
    match DecodeHash(encoded)
    case Failure(e) => Failure(e)
    case Success(d) =>
      if !Derivable(d.params) then Failure(KdfPanic)
      else Success(d.key == kdf(password, d.salt, d.params.Iterations, d.params.Memory, d.params.Parallelism, d.params.KeyLength))
  }

  // ----------------------------------------------------------------- proofs

  /** The joined fields spell out the format string of `GenerateHash`. */
  lemma HashFormat(p: Params, salt: seq<byte>, key: seq<byte>)
    ensures EncodeHash(p, salt, key)
         == "$argon2id$" + VersionField(Version) + "$" + ParamsField(p.Memory, p.Iterations, p.Parallelism)
            + "$" + RawStdEncode(salt) + "$" + RawStdEncode(key)
  {
    JoinSix("", "argon2id", VersionField(Version), ParamsField(p.Memory, p.Iterations, p.Parallelism),
            RawStdEncode(salt), RawStdEncode(key), "$");
    assert "" + "$" + "argon2id" + "$" == "$argon2id$";
  }

  lemma NoDollarInBase64(bs: seq<byte>)
    ensures '$' !in RawStdEncode(bs)
  {
    var s := RawStdEncode(bs);
    assert forall k :: 0 <= k < |s| ==> s[k] != '$';
  }

  lemma NoDollarInVersion(v: int)
    ensures '$' !in VersionField(v)
  {
    SprintfAvoids(VersionFormat, [v], '$');
  }

  lemma NoDollarInParams(m: int, t: int, p: int)
    ensures '$' !in ParamsField(m, t, p)
  {
    SprintfAvoids(ParamsFormat, [m, t, p], '$');
  }

  lemma NoDollarInFields(name: string, v: int, p: Params, salt: seq<byte>, key: seq<byte>)
    requires '$' !in name
    ensures forall k :: 0 <= k < 6 ==> '$' !in FieldsWith(name, v, p, salt, key)[k]
  {
    var fs := FieldsWith(name, v, p, salt, key);
    NoDollarInVersion(v);
    NoDollarInParams(p.Memory, p.Iterations, p.Parallelism);
    NoDollarInBase64(salt);
    NoDollarInBase64(key);
    assert '$' !in fs[0] && '$' !in fs[1] && '$' !in fs[2] && '$' !in fs[3] && '$' !in fs[4] && '$' !in fs[5];
  }

  lemma SplitFields(name: string, v: int, p: Params, salt: seq<byte>, key: seq<byte>)
    requires '$' !in name
    ensures Split(Join(FieldsWith(name, v, p, salt, key), "$"), "$") == FieldsWith(name, v, p, salt, key)
  {
    NoDollarInFields(name, v, p, salt, key);
    SplitJoin(FieldsWith(name, v, p, salt, key), '$');
  }

  lemma ScanVersionField(v: int)
    requires InRange(v, Int64)
    ensures Sscanf(VersionField(v), VersionFormat) == Some([v])
  {
    ScanPrinted(VersionFormat, [v]);
  }

  lemma ScanParamsField(m: int, t: int, p: int)
    requires InRange(m, Uint32) && InRange(t, Uint32) && InRange(p, Uint8)
    ensures Sscanf(ParamsField(m, t, p), ParamsFormat) == Some([m, t, p])
  {
    ScanPrinted(ParamsFormat, [m, t, p]);
  }

  /** `decodeHash` once each field has been read. */
  lemma DecodeSteps(encoded: string, m: int, t: int, p: int, salt: seq<byte>, key: seq<byte>)
    requires var parts := Split(encoded, "$");
      |parts| == 6 && Sscanf(parts[2], VersionFormat).Some? && Sscanf(parts[3], ParamsFormat) == Some([m, t, p])
      && RawStdDecode(parts[4]) == Some(salt) && RawStdDecode(parts[5]) == Some(key)
    ensures DecodeHash(encoded) == Success(Decoded(Params(m, t, p, Uint32Of(|salt|), Uint32Of(|key|)), salt, key))
  {
  }

  /** Any six fields in the layout of the hash string decode to the cost
      parameters, salt and key they hold, with the two lengths set to those of
      salt and key. */
  lemma DecodeFields(name: string, v: int, p: Params, salt: seq<byte>, key: seq<byte>)
    requires '$' !in name && InRange(v, Int64)
    requires InRange(p.Memory, Uint32) && InRange(p.Iterations, Uint32) && InRange(p.Parallelism, Uint8)
    requires |salt| < 0x1_0000_0000 && |key| < 0x1_0000_0000
    ensures DecodeHash(Join(FieldsWith(name, v, p, salt, key), "$"))
         == Success(Decoded(Params(p.Memory, p.Iterations, p.Parallelism, |salt|, |key|), salt, key))
  {
    SplitFields(name, v, p, salt, key);
    ScanVersionField(v);
    ScanParamsField(p.Memory, p.Iterations, p.Parallelism);
    RawStdRoundTrip(salt);
    RawStdRoundTrip(key);
    DecodeSteps(Join(FieldsWith(name, v, p, salt, key), "$"), p.Memory, p.Iterations, p.Parallelism, salt, key);
  }

  /** Decoding a generated hash string gives back the cost parameters, the salt
      and the key, with the two lengths set to those of salt and key. */
  lemma DecodeEncode(p: Params, salt: seq<byte>, key: seq<byte>)
    requires InRange(p.Memory, Uint32) && InRange(p.Iterations, Uint32) && InRange(p.Parallelism, Uint8)
    requires |salt| < 0x1_0000_0000 && |key| < 0x1_0000_0000
    ensures DecodeHash(EncodeHash(p, salt, key))
         == Success(Decoded(Params(p.Memory, p.Iterations, p.Parallelism, |salt|, |key|), salt, key))
  {
    DecodeFields("argon2id", Version, p, salt, key);
  }

  /** Checking a password against a generated hash derives the key again with
      the same salt and costs; when the derivation yields `KeyLength` bytes, as
      Argon2 does, the answer is whether the two passwords derive the same key,
      so the password that made the hash always matches. */
  lemma CompareGenerated(kdf: Kdf, password: seq<byte>, candidate: seq<byte>, p: Params, salt: seq<byte>)
    requires InRange(p.Memory, Uint32) && InRange(p.Iterations, Uint32) && InRange(p.Parallelism, Uint8)
    requires Derivable(p)
    requires |salt| < 0x1_0000_0000 && 0 <= p.KeyLength < 0x1_0000_0000
    requires |kdf(password, salt, p.Iterations, p.Memory, p.Parallelism, p.KeyLength)| == p.KeyLength
    ensures var key := kdf(password, salt, p.Iterations, p.Memory, p.Parallelism, p.KeyLength);
      ComparePasswordAndHash(kdf, candidate, EncodeHash(p, salt, key))
      == Success(kdf(candidate, salt, p.Iterations, p.Memory, p.Parallelism, p.KeyLength) == key)
    ensures var key := kdf(password, salt, p.Iterations, p.Memory, p.Parallelism, p.KeyLength);
      ComparePasswordAndHash(kdf, password, EncodeHash(p, salt, key)) == Success(true)
  {
    var key := kdf(password, salt, p.Iterations, p.Memory, p.Parallelism, p.KeyLength);
    DecodeEncode(p, salt, key);
  }

  /** The version field and the algorithm name are not checked: any scannable
      version and any name decode exactly as the generated string does. */
  lemma VersionAndNameIgnored(name: string, v: int, p: Params, salt: seq<byte>, key: seq<byte>)
    requires '$' !in name && InRange(v, Int64)
    requires InRange(p.Memory, Uint32) && InRange(p.Iterations, Uint32) && InRange(p.Parallelism, Uint8)
    requires |salt| < 0x1_0000_0000 && |key| < 0x1_0000_0000
    ensures DecodeHash(Join(FieldsWith(name, v, p, salt, key), "$")) == DecodeHash(EncodeHash(p, salt, key))
  {
    DecodeFields(name, v, p, salt, key);
    DecodeEncode(p, salt, key);
  }

  /** A hash string with fewer or more than six `$`-separated fields is
      refused before anything else is read, whatever the fields hold, and a
      comparison against it fails with the same error. */
  lemma WrongFieldCount(kdf: Kdf, password: seq<byte>, fields: seq<string>)
    requires |fields| >= 1 && |fields| != 6
    requires forall k :: 0 <= k < |fields| ==> '$' !in fields[k]
    ensures DecodeHash(Join(fields, "$")) == Failure(InvalidHashFormat)
    ensures ComparePasswordAndHash(kdf, password, Join(fields, "$")) == Failure(InvalidHashFormat)
  {
    SplitJoin(fields, '$');
  }

  /** A well-formed hash string whose stored costs have no pass or no lane,
      or whose key field is empty, decodes, but checking any password against
      it makes the key derivation panic. */
  lemma ZeroCostPanics(kdf: Kdf, password: seq<byte>, p: Params, salt: seq<byte>, key: seq<byte>)
    requires InRange(p.Memory, Uint32) && InRange(p.Iterations, Uint32) && InRange(p.Parallelism, Uint8)
    requires |salt| < 0x1_0000_0000 && |key| < 0x1_0000_0000
    requires p.Iterations == 0 || p.Parallelism == 0 || |key| == 0
    ensures DecodeHash(EncodeHash(p, salt, key)).Success?
    ensures ComparePasswordAndHash(kdf, password, EncodeHash(p, salt, key)) == Failure(KdfPanic)
  {
    DecodeEncode(p, salt, key);
  }
}
