/** The two cryptographic collaborators of the services, kept opaque: a
    password hasher (bcrypt in the repository) and a token signer (the JWT
    service). Neither is modelled internally; each is a function value the
    caller supplies, so every property proved below holds for every hasher
    and every signer. */
module Crypto {
  import opened Db

  /** The bcrypt cost factor the services pass on every hash. */
  const SaltRounds: nat := 10

  /** `hash(plaintext, cost)` and `compare(plaintext, digest)`. */
  datatype Hasher = Hasher(hash: (string, nat) -> string, compare: (string, string) -> bool)

  /** The claim set a token is signed over. */
  datatype Claims = Claims(username: string, sub: Id)

  /** The JWT service's `sign`, as a function of the claims alone. */
  type Signer = Claims -> string

  /** The only thing assumed of the hasher: a plaintext matches its own
      digest at the services' cost factor. */
  ghost predicate Sound(h: Hasher) {
    forall p: string :: h.compare(p, h.hash(p, SaltRounds))
  }
}
