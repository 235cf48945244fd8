/** Stand-ins for the foreign libraries the backend calls: bcrypt and jsonwebtoken. */
module Crypto {
  import opened Wrappers

  /** The marker every stored bcrypt hash starts with (cost 10). Salt and
      one-wayness are abstracted away: a hash is the marker followed by what
      was hashed, which keeps hashing injective. */
  const HashMarker := "$2a$10$"

  /** `bcrypt.hash(p, salt)`. */
  function Hash(p: string): (h: string)
    ensures |h| > |p|
  {
    HashMarker + p
  }

  /** `bcrypt.compare(p, h)`: does `h` hash exactly the text `p`? */
  predicate Verify(p: string, h: string) {
    h == Hash(p)
  }

  /** A password is accepted against its own hash. */
  lemma VerifyHash(p: string)
    ensures Verify(p, Hash(p))
  {
  }

  /** Of the stand-in only: a hash accepts one password. (bcrypt itself reads
      only the first 72 bytes of a password, so there it does not hold.) */
  lemma VerifyInjective(p: string, q: string, h: string)
    requires Verify(p, h) && Verify(q, h)
    ensures p == q
  {
    assert p == Hash(p)[|HashMarker|..];
    assert q == Hash(q)[|HashMarker|..];
  }

  /** Hashing an already hashed password: the original password is rejected,
      only the text of the first hash is accepted. */
  lemma RehashRejectsPassword(p: string)
    ensures !Verify(p, Hash(Hash(p)))
    ensures Verify(Hash(p), Hash(Hash(p)))
  {
    assert |Hash(Hash(p))| > |Hash(p)|;
  }

  /** The signed payload of `jwt.sign({ id, phoneNo }, secret, { expiresIn: '1d' })`. */
  datatype Token = Token(userId: ObjectId, phoneNo: string)
}
