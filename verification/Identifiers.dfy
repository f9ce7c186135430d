/** Identifiers as Hook and Silicon Accounts write them. */
module Identifiers {

  const MAX_ACCOUNT_UUID_LENGTH: nat := 64

  predicate LowerHex(c: char) {
    '0' <= c <= '9' || 'a' <= c <= 'f'
  }

  predicate Alphanumeric(c: char) {
    '0' <= c <= '9' || 'a' <= c <= 'z' || 'A' <= c <= 'Z'
  }

  /** A hyphenated lowercase UUID. */
  predicate CanonicalUuid(id: string) {
    |id| == 36 && forall i :: 0 <= i < 36 ==> if i in {8, 13, 18, 23} then id[i] == '-' else LowerHex(id[i])
  }

  /** An account's uuid: a legacy alphanumeric identifier, or a canonical UUID of the RFC 4122 variant. */
  predicate AccountUuid(id: string) {
    || (id != "" && |id| <= MAX_ACCOUNT_UUID_LENGTH && forall i :: 0 <= i < |id| ==> Alphanumeric(id[i]))
    || (CanonicalUuid(id) && id[19] in "89ab")
  }
}
