/**
 * What the transformer works on: the license (its readiness and content key), the foreign
 * cipher and inflate primitives, the ciphertext source, and the resource's `Encrypted`
 * descriptor with its three cache fields.
 */
module Resources {
  import opened Common
  import opened Cbc

  /** The LCP license object: whether it is ready, and the 32-byte content key it supplies. */
  datatype License = License(ready: bool, contentKey: seq<byte>)

  /** The foreign primitives: AES-256 block decryption and raw inflate (None: inflate failed). */
  datatype Codecs = Codecs(decipher: BlockCipher, inflateRaw: seq<byte> -> Option<seq<byte>>)

  /**
   * A ciphertext source (an IStreamAndLength from the storage layer): its bytes, whose count is
   * its declared length, and whether reopening it from byte zero succeeds.
   */
  datatype Source = Source(data: seq<byte>, canReset: bool)

  /** `stream.reset()`: a fresh handle on the same bytes, or an I/O failure. */
  function Reopen(s: Source): (r: Result<Source>)
    ensures r.Ok? <==> s.canReset
    ensures r.Ok? ==> r.value == s
    ensures r.Err? ==> r.error == IoErr
  {
    if s.canReset then Ok(s) else Err(IoErr)
  }

  /** The fields of the descriptor that the transformer reads and never writes. */
  datatype Declaration = Declaration(
    scheme: string, profile: string, algorithm: string,
    compression: string, originalLength: Option<int>)

  /** `OriginalLength` taken as a JavaScript condition: present and not zero. */
  predicate HasOriginalLength(d: Declaration) {
    d.originalLength.Some? && d.originalLength.value != 0
  }

  /** The three cache fields of the descriptor, as a value. */
  datatype Cache = Cache(
    decryptedLengthBeforeInflate: int,
    cypherBlockPadding: int,
    cypherBlockIV: Option<seq<byte>>)

  /** A descriptor that nothing has been cached on yet. */
  const InitialCache := Cache(-1, -1, None)

  /** `CypherBlockIV` taken as a JavaScript condition: present and not the empty string. */
  predicate IvCached(c: Cache) {
    c.cypherBlockIV.Some? && c.cypherBlockIV.value != []
  }

  /** The `Encrypted` properties of a publication resource link. */
  class Encrypted {
    const scheme: string
    const profile: string
    const algorithm: string
    const compression: string
    const originalLength: Option<int>
    var decryptedLengthBeforeInflate: int
    var cypherBlockPadding: int
    var cypherBlockIV: Option<seq<byte>>

    constructor (scheme: string, profile: string, algorithm: string,
                 compression: string, originalLength: Option<int>)
      ensures Declared() == Declaration(scheme, profile, algorithm, compression, originalLength)
      ensures Cached() == InitialCache
    {
      this.scheme, this.profile, this.algorithm := scheme, profile, algorithm;
      this.compression, this.originalLength := compression, originalLength;
      decryptedLengthBeforeInflate, cypherBlockPadding, cypherBlockIV := -1, -1, None;
    }

    function Declared(): Declaration {
      Declaration(scheme, profile, algorithm, compression, originalLength)
    }

    function Cached(): Cache
      reads this
    {
      Cache(decryptedLengthBeforeInflate, cypherBlockPadding, cypherBlockIV)
    }
  }
}
