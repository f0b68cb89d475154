/** An optional value: SQL NULL, a query that found no row, an absent timer. */
module Optional {
  datatype Option<+T> = None | Some(value: T)
}

/**
 Signed tokens, digests and ciphertexts, taken symbolically: signing, hashing and
 encrypting are injective because each builds a new value around what it was given.
 All times are whole seconds.
 */
module Tokens {
  const ACCESS_TTL: nat := 1200
  const REFRESH_TTL: nat := 86400

  /** `Jwt` is a text signed with the server's secret, named by its claims (a missing
      claim is the empty string). `Foreign` is any text that fails signature checking. */
  datatype Token =
    | Jwt(kind: string, userId: string, sessionId: string, iat: int, exp: int)
    | Foreign(text: string)

  datatype Digest = Digest(preimage: Token)

  /** A ciphertext under a random initialisation vector: equal texts encrypt differently. */
  datatype Cipher = Cipher(iv: nat, plain: Token)

  datatype Verdict = Accepted | Expired | Rejected

  function Sign(kind: string, userId: string, sessionId: string, now: nat, ttl: nat): Token {
    Jwt(kind, userId, sessionId, now, now + ttl)
  }

  function Sha256Hex(t: Token): Digest {
    Digest(t)
  }

  function EncryptAesGcm(t: Token, iv: nat): Cipher {
    Cipher(iv, t)
  }

  function DecryptAesGcm(c: Cipher): Token {
    c.plain
  }

  /** The signature and expiry check, on the server's own clock. */
  function Verify(t: Token, serverNow: nat): Verdict {
    match t
    case Foreign(_) => Rejected
    case Jwt(_, _, _, _, exp) => if exp <= serverNow then Expired else Accepted
  }

  /** The extra check after verification: the right kind, with both ids present. */
  predicate IsRefreshToken(t: Token) {
    t.Jwt? && t.kind == "refresh" && t.userId != "" && t.sessionId != ""
  }

  /** `t` is a token of this kind, for this user and this session, valid until `exp`. */
  predicate Names(t: Token, kind: string, userId: string, sessionId: string, exp: int) {
    t.Jwt? && t.kind == kind && t.userId == userId && t.sessionId == sessionId && t.exp == exp
  }
}
