/**
 * The vault token codec. Signing and verification (HS512) are library
 * cryptography and are not modelled: verification of a token against the
 * secret at the current time is given as a function from the token text to
 * the vault id it carries, or None when the token is malformed, forged or
 * expired.
 */
module Jwt {
  import opened Wrappers

  /** The two results of `DecodeToken`: the id, and whether decoding failed. */
  datatype Decoded = Decoded(id: int, ok: bool)

  /** `DecodeToken`: on failure the id is 0, next to the error. */
  function DecodeToken(token: string, verify: string -> Option<int>): (d: Decoded)
    ensures d.ok <==> verify(token).Some?
    ensures d.ok ==> d.id == verify(token).value
    ensures !d.ok ==> d.id == 0
  {
    match verify(token)
    case Some(id) => Decoded(id, true)
    case None => Decoded(0, false)
  }
}
