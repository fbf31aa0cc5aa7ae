/**
 * bcrypt as the controllers use it (bcryptjs `hash` and `compare`). The hash
 * function and its checker are supplied by the caller; the salt `hash` draws
 * at random is passed in as a value.
 */
module Hashing {
  import opened Base

  datatype Hasher = Hasher(hash: (string, string) -> string, compare: (string, string) -> bool)

  /** The checker accepts every password against its own hash, whatever the salt. */
  ghost predicate Sound(h: Hasher) {
    forall p, salt :: h.compare(p, h.hash(p, salt))
  }

  /** `bcrypt.hash(password, rounds)`: throws (None) when the password is undefined. */
  function Hash(h: Hasher, password: Option<string>, salt: string): (r: Option<string>)
    ensures r.Some? <==> password.Some?
  {
    if password.Some? then Some(h.hash(password.value, salt)) else None
  }

  /** `bcrypt.compare(password, stored)`: throws (None) when either argument is undefined. */
  function Compare(h: Hasher, password: Option<string>, stored: Option<string>): (r: Option<bool>)
    ensures r.Some? <==> password.Some? && stored.Some?
  {
    if password.Some? && stored.Some? then Some(h.compare(password.value, stored.value)) else None
  }

  /** A password checks against the hash made from it. */
  lemma CompareOwnHash(h: Hasher, password: string, salt: string)
    requires Sound(h)
    ensures Compare(h, Some(password), Hash(h, Some(password), salt)) == Some(true)
  {
  }
}
