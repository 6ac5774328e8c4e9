/** A value that may be missing, and a digest of a value. */
module Wrappers {
  datatype Option<+T> = None | Some(value: T)

  /** A digest column. SHA-256 is taken to be injective, so the digest of a value determines the
      value; `OtherText` is any text that is no such digest. */
  datatype Hash<+T> = NoDigest | Sha256(preimage: T) | OtherText(text: string)
}
