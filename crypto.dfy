/** Stand-ins for the two cryptographic libraries the controller calls:
    bcrypt (password digests) and JSON Web Tokens (session credentials).
    They are not the real algorithms but concrete definitions chosen so that
    the laws the controller relies on hold (CompareHash and VerifySigned
    below). Being concrete, they also make the digest deterministic and
    injective, which real bcrypt is not. */
module Crypto {
  import opened Values

  /** The identifier the user store assigns to a created record. */
  type UserId = nat

  /** The modular-crypt prefix bcrypt writes for version 2a at cost 10. */
  const BcryptPrefix: string := "$2a$10$"

  /** `bcrypt.hash(password, 10)`; the salt is not modelled. */
  function Hash(password: string): string {
    BcryptPrefix + password
  }

  /** `bcrypt.compare(password, digest)`. */
  predicate Compare(password: string, digest: string) {
    Hash(password) == digest
  }

  /** A password matches the digest of another password only if the two are equal. */
  lemma CompareHash(p: string, q: string)
    ensures Compare(q, Hash(p)) <==> q == p
  {
    if Compare(q, Hash(p)) {
      assert q == Hash(q)[|BcryptPrefix|..];
      assert p == Hash(p)[|BcryptPrefix|..];
    }
  }

  /** A session cookie value: either a token this server signed for a user id,
      or any other text. */
  datatype Token = Signed(userId: UserId) | Unsigned(text: string)

  /** `jwt.sign({ userId: id }, secret)`. */
  function Sign(id: UserId): (t: Token)
    ensures Verify(t) == Some(id)
  {
    Signed(id)
  }

  /** `jwt.verify(token, secret)`: the bound user id, or None when verification fails. */
  function Verify(t: Token): Option<UserId> {
    match t
    case Signed(id) => Some(id)
    case Unsigned(_) => None
  }

  /** Only a token signed for `id` verifies to `id`. */
  lemma VerifySigned(t: Token, id: UserId)
    ensures Verify(t) == Some(id) <==> t == Sign(id)
  {
  }
}
