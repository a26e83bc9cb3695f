/**
 * Password hashing (src/core/security.py). The passlib "bcrypt_sha256"
 * scheme and hashlib's SHA-256 are foreign code: they are modelled by the
 * functions held in a `Scheme`, with the random salt passed in explicitly.
 */
module Security {
  import opened HexText
  import Utf8

  /** bcrypt's hard input limit, in bytes. */
  const BcryptMaxBytes := 72

  /** A SHA-256 digest as 64 nibbles (256 bits). */
  type Digest = d: seq<Nibble> | |d| == 64 witness seq(64, _ => 0)

  type Salt = nat

  /** The foreign collaborators: SHA-256, and the salted bcrypt hash with its verifier. */
  datatype Scheme = Scheme(
    sha256: seq<Utf8.byte> -> Digest,
    bcryptHash: (string, Salt) -> string,
    bcryptVerify: (string, string) -> bool)

  /** The scheme's only law: a hash made with any salt verifies the text it was made from. */
  ghost predicate VerifiesOwnHashes(scheme: Scheme) {
    forall x, salt :: scheme.bcryptVerify(x, scheme.bcryptHash(x, salt))
  }

  /** 64 lower-case hexadecimal characters, the shape of `hexdigest()` of a SHA-256 hash. */
  predicate IsHexDigest(s: string) {
    |s| == 64 && forall i :: 0 <= i < |s| ==> IsLowerHexChar(s[i])
  }

  /** `hashlib.sha256(data).hexdigest()`. */
  function Sha256Hex(scheme: Scheme, data: seq<Utf8.byte>): (r: string)
    ensures IsHexDigest(r)
    ensures |Utf8.Encode(r)| == 64
  {
    var r := Hex(scheme.sha256(data));
    Utf8.AsciiEncodeLength(r);
    r
  }

  /**
   * `_normalize_password`: a password whose UTF-8 encoding is longer than
   * 72 bytes is replaced by the hex digest of that encoding.
   */
  function NormalizePassword(scheme: Scheme, password: string): (r: string)
    ensures |Utf8.Encode(r)| <= BcryptMaxBytes
    ensures r == password <==> |Utf8.Encode(password)| <= BcryptMaxBytes
    ensures r != password ==> IsHexDigest(r)
    ensures |Utf8.Encode(password)| > BcryptMaxBytes ==> r == Sha256Hex(scheme, Utf8.Encode(password))
  {
    var bytes := Utf8.Encode(password);
    if |bytes| > BcryptMaxBytes then Sha256Hex(scheme, bytes) else password
  }

  /** `hash_password`: the salted scheme hash of the normalised password. */
  function HashPassword(scheme: Scheme, password: string, salt: Salt): (h: string)
    ensures |Utf8.Encode(password)| <= BcryptMaxBytes ==> h == scheme.bcryptHash(password, salt)
    ensures |Utf8.Encode(password)| > BcryptMaxBytes ==>
      h == scheme.bcryptHash(Sha256Hex(scheme, Utf8.Encode(password)), salt)
  {
    scheme.bcryptHash(NormalizePassword(scheme, password), salt)
  }

  /** `verify_password`: the scheme's verifier applied to the normalised password. */
  function VerifyPassword(scheme: Scheme, password: string, passwordHash: string): (ok: bool)
    ensures |Utf8.Encode(password)| <= BcryptMaxBytes ==> ok == scheme.bcryptVerify(password, passwordHash)
    ensures |Utf8.Encode(password)| > BcryptMaxBytes ==>
      ok == scheme.bcryptVerify(Sha256Hex(scheme, Utf8.Encode(password)), passwordHash)
  {
    scheme.bcryptVerify(NormalizePassword(scheme, password), passwordHash)
  }

  /** Normalising twice is normalising once. */
  lemma NormalizeIdempotent(scheme: Scheme, password: string)
    ensures NormalizePassword(scheme, NormalizePassword(scheme, password)) == NormalizePassword(scheme, password)
  {
  }

  /** The threshold is strict: 72 ASCII characters (72 bytes) pass through, 73 are pre-hashed. */
  lemma ThresholdIsStrict(scheme: Scheme)
    ensures NormalizePassword(scheme, seq(72, _ => 'a')) == seq(72, _ => 'a')
    ensures IsHexDigest(NormalizePassword(scheme, seq(73, _ => 'a')))
  {
    var at, over := seq(72, _ => 'a'), seq(73, _ => 'a');
    Utf8.AsciiEncodeLength(at);
    Utf8.AsciiEncodeLength(over);
  }

  /** The threshold counts bytes: 37 copies of 'é' are only 37 characters but 74 bytes, so they are pre-hashed. */
  lemma ThresholdCountsBytes(scheme: Scheme)
    ensures var p := seq(37, _ => 'é');
      |p| < BcryptMaxBytes && NormalizePassword(scheme, p) != p && IsHexDigest(NormalizePassword(scheme, p))
  {
    var p := seq(37, _ => 'é');
    Utf8.TwoByteEncodeLength(p);
  }

  /** A password verifies against any hash made from it, whatever the salt. */
  lemma HashThenVerify(scheme: Scheme, password: string, salt: Salt)
    requires VerifiesOwnHashes(scheme)
    ensures VerifyPassword(scheme, password, HashPassword(scheme, password, salt))
  {
  }

  /**
   * A consequence of pre-hashing: for a password over 72 bytes, its hex
   * digest, typed as a password, normalises to the same text and so
   * verifies against every hash of the original.
   */
  lemma DigestStandsInForLongPassword(scheme: Scheme, password: string, salt: Salt)
    requires VerifiesOwnHashes(scheme)
    requires |Utf8.Encode(password)| > BcryptMaxBytes
    ensures var digest := Sha256Hex(scheme, Utf8.Encode(password));
      digest != password && VerifyPassword(scheme, digest, HashPassword(scheme, password, salt))
  {
  }
}
