/**
 * The password oracle behind `bcrypt.hash` and `bcrypt.compare`. The per-call salt is
 * not modelled, so hashing is a function of the password alone; the only property
 * the handlers rely on is that a password matches its own hash.
 */
module Password {
  import Codec

  /** The stored form of a password. */
  function Hash(password: string): string {
    "$2b$10$" + Codec.EncodeNats([Codec.Digest(password)])
  }

  /** `bcrypt.compare(password, hash)`. */
  function Compare(password: string, hash: string): bool {
    Hash(password) == hash
  }

  lemma CompareOwnHash(password: string)
    ensures Compare(password, Hash(password))
  {
  }
}
