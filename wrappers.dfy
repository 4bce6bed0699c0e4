/** Optional values, the fatal conditions of the tool, and results that carry one of them. */
module Wrappers {

  datatype Option<+T> = None | Some(value: T)

  /** Every way a run of the tool can abort (each is a panic, `assert!` or `unwrap` in the program). */
  datatype Error =
    | MissingThreshold    // generation asked for without both t and n
    | PathExists          // the key folder already exists when generating
    | PathMissing         // the key folder does not exist when loading
    | InvalidParams       // MultisigParams::new rejected (t, n, i)
    | CryptoFailure       // generate_coefficients, generate_secret_shares or complete failed
    | MissingShare        // a sender produced no share for some recipient
    | GroupKeyMismatch    // two completed bundles report different group keys
    | BadHex              // a record's `serialized` field is not hex
    | BadBundle           // the decoded bytes are not a serialized key bundle
    | RecoveryFailed      // the threshold recovery of the spend key failed
    | RoundTripMismatch   // the keys read back differ from the ones generated

  datatype Result<+T> = Ok(value: T) | Err(error: Error)
}
