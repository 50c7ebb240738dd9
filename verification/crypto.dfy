/** Password hashing as the controllers use bcrypt: `hash(password, 10)`
    and `compare(password, digest)`. The salt bcrypt draws at random is a
    parameter; the digest keeps what `compare` needs to check a password
    against it. */
module Crypto {
  /** The cost factor the controllers pass to `hash`. */
  const Rounds: nat := 10

  /** A stand-in for bcrypt's output: `key` holds the password itself so
      that `Compare` is exactly "made from this password". It models only
      that equal passwords match and different ones do not, not the
      digest's text or its one-wayness. */
  datatype Digest = Digest(rounds: nat, salt: nat, key: string)

  function Hash(password: string, salt: nat): (d: Digest)
    ensures d.rounds == Rounds && d.salt == salt
  {
    Digest(Rounds, salt, password)
  }

  predicate Compare(password: string, d: Digest) {
    d.key == password
  }

  /** A password matches every digest made from it, whatever the salt,
      and no other password matches. */
  lemma CompareHash(password: string, other: string, salt: nat)
    ensures Compare(password, Hash(password, salt))
    ensures Compare(other, Hash(password, salt)) <==> other == password
  {
  }
}
