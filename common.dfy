/** Values shared by every stage of the LCP resource transformer. */
module Common {

  /** One byte of a resource, as Node's Buffer holds it. */
  type byte = bv8

  datatype Option<T> = None | Some(value: T)

  /** The ways in which the transformer rejects. */
  datatype Error =
    | NotSupportedInBrowser   // the live build: "LCP not supported in a browser"; the probe's
                              // message ends with a period, which one constructor does not tell apart
    | CryptoErr               // "crypto err": ciphertext shorter than two AES blocks
    | ReadErr                 // reading the 16-byte IV found no data at all
    | InvalidIvLength         // createDecipheriv refuses an IV that is not 16 bytes long
    | WrongFinalBlockLength   // decipher.final() without auto-padding: a partial last block
    | InflateErr              // raw inflate refused the decrypted bytes
    | IoErr                   // the underlying source could not be reopened

  datatype Result<T> = Ok(value: T) | Err(error: Error)

  function Min(a: int, b: int): int { if a <= b then a else b }
}
