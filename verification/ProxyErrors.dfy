/** The errors a responding proxy peer can cause, shared by every codec. */
module ProxyErrors {
  import opened Bytes

  datatype ProxyError =
    | Version(version: byte)
    | Denied
    | NoAcceptableMethod
    | UnexpectedMethod(chosen: byte)
    | AuthFailed
    | Refusal(code: byte)
    | Address
    | Crypto
    | Header
    | Stale(skew: nat)
    | SaltMismatch
    | Unframed
}
