/**
 * The Argon2 password hasher behind `hashPassword` and `verifyHash` (utils.py).
 * The library is foreign code, so the model takes it as a parameter: a hash
 * function and a verification test. `PasswordHasher().verify` raises on a
 * mismatch; every caller in the core turns that exception into "not verified",
 * so the test is a plain boolean here.
 */
module Credentials {
  datatype Hasher = Hasher(hash: string -> string, verify: (string, string) -> bool)

  /** A hasher whose verification accepts every password against its own hash. */
  ghost predicate Sound(h: Hasher)
  {
    forall p :: h.verify(h.hash(p), p)
  }
}
