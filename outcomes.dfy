/** Option and Result wrappers, and the kinds of exception the check can raise. */
module Outcomes {

  datatype Option<T> = None | Some(value: T)

  /** The exceptions extracting a record can raise in CachedGPPPassword.cs;
      like every other exception there, they land in the one `catch` of the
      constructor. An unset profile and a load failure end the scan before
      any record is read and are modelled where they occur (`Check`'s `None`
      case and `FileOutcome.Failed(false)`). */
  datatype Fault =
    | NullNode       // `SelectSingleNode` found nothing, then `.Attributes` on null
    | Base64Failure  // `Convert.FromBase64String` rejected the repaired string
    | CryptoFailure  // the AES decryptor rejected the bytes (length or padding)

  datatype Result<T> = Ok(value: T) | Err(fault: Fault)
}
