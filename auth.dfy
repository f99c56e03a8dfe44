/**
 * The two libraries the login routes lean on, kept abstract: a bcrypt
 * digest is represented by what it was computed from, and a jwt token by
 * the payload it signs.
 */
module Auth {
  import opened Wrappers
  import opened Text
  import opened Collection

  /** A bcrypt digest: the secret it was made from and the random salt it was made with. */
  datatype Hash = Bcrypt(secret: string, salt: nat)

  /** `bcrypt.hash(password, 10)` with the salt it happened to draw. */
  function HashOf(password: string, salt: nat): Hash {
    Bcrypt(password, salt)
  }

  /** What `await bcrypt.compare(password, stored)` does: resolves true or false, or rejects. */
  datatype Comparison = Match | Mismatch | Rejected

  /** bcrypt reads at most this many bytes of the password's UTF-8 encoding. */
  const MaxKeyBytes: nat := 72

  /** The part of a password bcrypt actually digests: the first 72 bytes of its UTF-8 encoding. */
  function BcryptKey(password: string): (key: seq<int>)
    ensures |key| <= MaxKeyBytes
    ensures |Utf8(password)| <= MaxKeyBytes ==> key == Utf8(password)
  {
    var bytes := Utf8(password);
    if |bytes| <= MaxKeyBytes then bytes else bytes[..MaxKeyBytes]
  }

  /**
   * bcrypt rejects when there is no stored digest, and otherwise matches
   * exactly the passwords whose first 72 bytes agree with the hashed secret's.
   */
  function Compare(password: string, stored: Option<Hash>): (c: Comparison)
    ensures c == Rejected <==> stored.None?
    ensures c == Match <==> stored.Some? && BcryptKey(stored.value.secret) == BcryptKey(password)
  {
    match stored
    case None => Rejected
    case Some(h) => if BcryptKey(h.secret) == BcryptKey(password) then Match else Mismatch
  }

  /** A password matches its own digest whatever salt was drawn. */
  lemma CompareOwnHash(password: string, salt: nat)
    ensures Compare(password, Some(HashOf(password, salt))) == Match
  {
  }

  /** Up to 72 bytes, only the hashed password itself matches. */
  lemma ShortPasswordsCompareExactly(password: string, secret: string, salt: nat)
    requires |Utf8(password)| <= MaxKeyBytes && |Utf8(secret)| <= MaxKeyBytes
    ensures Compare(password, Some(HashOf(secret, salt))) == Match <==> password == secret
  {
    if Compare(password, Some(HashOf(secret, salt))) == Match {
      Utf8Injective(password, secret);
    }
  }

  /** Past 72 bytes the rest is ignored: two passwords with a common 72-byte start match each other's digest. */
  lemma LongPasswordsShareKey(prefix: string, x: string, y: string, salt: nat)
    requires |Utf8(prefix)| >= MaxKeyBytes
    ensures Compare(prefix + x, Some(HashOf(prefix + y, salt))) == Match
  {
    Utf8Append(prefix, x);
    Utf8Append(prefix, y);
    assert BcryptKey(prefix + x) == Utf8(prefix)[..MaxKeyBytes] == BcryptKey(prefix + y);
  }

  /** The payload `jwt.sign` signs: the account's storage key and, for credentials, its type. */
  datatype Token = Token(subject: Id, kind: Option<int>)
}
