/**
 * The password hasher (bcryptjs in the service). A digest is modelled as an
 * opaque record of the cost factor, the salt and the password it was made
 * from; nothing outside this module looks inside it. The model treats the
 * hash as exact: a password matches a digest exactly when the digest was made
 * from that very password. bcrypt itself reads only the first 72 bytes of a
 * password, so it also accepts longer passwords that share those bytes.
 */
module Bcrypt {

  /** The cost factor the service passes to every hashSync call. */
  const Cost: nat := 8

  datatype Digest = Digest(cost: nat, salt: nat, preimage: string)

  /** compareSync: whether the plaintext is the one the digest was made from. */
  predicate Matches(password: string, d: Digest) {
    d.preimage == password
  }

  /** hashSync(password, 8), with the random salt supplied by the caller. */
  function Hash(password: string, salt: nat): (d: Digest)
    ensures Matches(password, d)
    ensures forall other :: Matches(other, d) ==> other == password
    ensures d.cost == Cost
  {
    Digest(Cost, salt, password)
  }

  /** Two hashes of one password differ when their salts differ, yet both match it. */
  lemma SaltedHashes(password: string, s1: nat, s2: nat)
    requires s1 != s2
    ensures Hash(password, s1) != Hash(password, s2)
    ensures Matches(password, Hash(password, s1)) && Matches(password, Hash(password, s2))
  {
  }
}
