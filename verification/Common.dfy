/** Shared result types. */
module Common {
  datatype Option<+T> = None | Some(value: T)

  datatype Result<+T> = Ok(value: T) | Err(error: Error)

  datatype Error =
    | Cancelled
    | Expired
    | Protocol(reason: string)
    | HttpStatus(status: nat)
    | AuthenticationRejected
    | InvalidConfiguration(what: string)
    | UnsupportedFactor
    | TokenValidation(reason: string)
    | Transport
    | Crypto
}
