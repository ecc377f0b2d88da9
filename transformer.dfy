/**
 * `transformStream`: the decryption pipeline of an LCP-protected resource. It resolves the
 * plaintext size (from the descriptor's cache, or by probing and caching), resolves the IV (cached,
 * or read from the first block and cached), decrypts in CBC mode without padding removal, trims to
 * the plaintext size, inflates when the resource is deflated, and serves the requested byte range.
 * `Transform` states the whole outcome as a function of the inputs and the old cache; the method
 * `TransformStream` performs it step by step on the descriptor.
 */
module Transformer {
  import opened Common
  import opened Cbc
  import opened RangeStreams
  import opened Resources
  import opened SizeProbe

  /** Whether a byte range was requested, and its inclusive bounds (negative: open). */
  datatype Request = Request(partial: bool, begin: int, end: int)

  /**
   * The IStreamAndLength the transformer resolves with: its declared length, its bytes, and what
   * its reset() reruns the transform on (the upstream source and the range with defaults applied).
   */
  datatype StreamAndLength = StreamAndLength(length: int, stream: seq<byte>, upstream: Source, replay: Request)

  /** The plaintext size and padding in force, and the source to decrypt from. */
  datatype SizeInfo = SizeInfo(plainTextSize: int, padding: int, source: Source)

  /** The IV and the ciphertext blocks that follow it. */
  datatype Cipher = Cipher(iv: seq<byte>, body: seq<byte>)

  /**
   * A positive cached length is used with the cached padding. Otherwise the probe runs, its
   * length and padding are written to the cache, and the source is reopened.
   */
  function ResolveSize(cache: Cache, decipher: BlockCipher, key: seq<byte>, src: Source): (Result<SizeInfo>, Cache) {
    if cache.decryptedLengthBeforeInflate > 0 then
      (Ok(SizeInfo(cache.decryptedLengthBeforeInflate, cache.cypherBlockPadding, src)), cache)
    else
      match DecryptedSize(decipher, key, src.data)
      case Err(e) => (Err(e), cache)
      case Ok(info) =>
        var written := cache.(decryptedLengthBeforeInflate := info.length, cypherBlockPadding := info.padding);
        match Reopen(src)
        case Err(e) => (Err(e), written)
        case Ok(reopened) => (Ok(SizeInfo(info.length, info.padding, reopened)), written)
  }

  /** Open bounds: begin from 0, end at the last byte of the declared original or the plaintext. */
  function DefaultRange(req: Request, plainTextSize: int, decl: Declaration): Request {
    var begin := if req.begin < 0 then 0 else req.begin;
    var end :=
      if req.end >= 0 then req.end
      else if HasOriginalLength(decl) then decl.originalLength.value - 1
      else plainTextSize - 1;
    Request(req.partial, begin, end)
  }

  /**
   * A cached IV is used and the first block of the source is skipped. Otherwise up to 16 bytes
   * are read (none at all is a read failure) and cached as the IV; the rest is the ciphertext.
   */
  function ResolveIv(cache: Cache, data: seq<byte>): (Result<Cipher>, Cache) {
    if IvCached(cache) then
      (Ok(Cipher(cache.cypherBlockIV.value, Range(data, AES_BLOCK_SIZE, |data| - 1))), cache)
    else if |data| == 0 then
      (Err(ReadErr), cache)
    else
      var iv := data[..Min(AES_BLOCK_SIZE, |data|)];
      (Ok(Cipher(iv, data[|iv|..])), cache.(cypherBlockIV := Some(iv)))
  }

  /** createDecipheriv with auto-padding off, fed the whole ciphertext. */
  function DecryptStage(decipher: BlockCipher, key: seq<byte>, c: Cipher): Result<seq<byte>> {
    if |c.iv| != AES_BLOCK_SIZE then Err(InvalidIvLength)
    else if |c.body| % AES_BLOCK_SIZE != 0 then Err(WrongFinalBlockLength)
    else Ok(DecryptBlocks(decipher, key, c.iv, c.body))
  }

  /** The trim stage, present when the cached padding is set (non-zero). */
  function Trim(decrypted: seq<byte>, cypherBlockPadding: int, plainTextSize: int): seq<byte> {
    if cypherBlockPadding != 0 then Range(decrypted, 0, plainTextSize - 1) else decrypted
  }

  /** The raw-inflate stage, present when the resource declares deflate compression. */
  function InflateStage(decl: Declaration, inflateRaw: seq<byte> -> Option<seq<byte>>, bytes: seq<byte>): Option<seq<byte>> {
    if decl.compression == "deflate" then inflateRaw(bytes) else Some(bytes)
  }

  /** The declared output length: the original length when declared, else the plaintext size. */
  function DeclaredLength(decl: Declaration, plainTextSize: int): int {
    if HasOriginalLength(decl) then decl.originalLength.value else plainTextSize
  }

  /** The range stage, present on a partial request. */
  function Select(req: Request, bytes: seq<byte>): seq<byte> {
    if req.partial then Range(bytes, req.begin, req.end) else bytes
  }

  /** The whole transform: its outcome and the descriptor's cache afterwards. */
  function Transform(decl: Declaration, cache: Cache, lcp: License, codecs: Codecs,
                     src: Source, req: Request): (Result<StreamAndLength>, Cache)
  {
    var sized := ResolveSize(cache, codecs.decipher, lcp.contentKey, src);
    if sized.0.Err? then (Err(sized.0.error), sized.1)
    else
      var size := sized.0.value;
      var range := DefaultRange(req, size.plainTextSize, decl);
      var ivd := ResolveIv(sized.1, size.source.data);
      if ivd.0.Err? then (Err(ivd.0.error), ivd.1)
      else
        var decrypted := DecryptStage(codecs.decipher, lcp.contentKey, ivd.0.value);
        if decrypted.Err? then (Err(decrypted.error), ivd.1)
        else
          var trimmed := Trim(decrypted.value, ivd.1.cypherBlockPadding, size.plainTextSize);
          var inflated := InflateStage(decl, codecs.inflateRaw, trimmed);
          if inflated.None? then (Err(InflateErr), ivd.1)
          else
            (Ok(StreamAndLength(DeclaredLength(decl, size.plainTextSize), Select(range, inflated.value),
                                size.source, range)),
             ivd.1)
  }

  /** reset() of the transformer's output: reopen the upstream source and run the transform again. */
  function ResetOutput(decl: Declaration, cache: Cache, lcp: License, codecs: Codecs,
                       sal: StreamAndLength): (Result<StreamAndLength>, Cache)
  {
    match Reopen(sal.upstream)
    case Err(e) => (Err(e), cache)
    case Ok(reopened) => Transform(decl, cache, lcp, codecs, reopened, sal.replay)
  }

  /**
   * The size step on the descriptor: the cached length and padding, or the probe's, written to
   * the cache before the source is reopened.
   */
  method ResolveSizeStep(lcp: License, enc: Encrypted, codecs: Codecs, stream: Source)
    returns (r: Result<SizeInfo>)
    modifies enc
    ensures (r, enc.Cached()) == ResolveSize(old(enc.Cached()), codecs.decipher, lcp.contentKey, stream)
  {
    if enc.decryptedLengthBeforeInflate > 0 {
      return Ok(SizeInfo(enc.decryptedLengthBeforeInflate, enc.cypherBlockPadding, stream));
    }
    var cryptoInfo := GetDecryptedSizeStream(lcp, codecs, stream);
    if cryptoInfo.Err? {
      return Err(cryptoInfo.error);
    }
    var plainTextSize := cryptoInfo.value.length;
    var cypherBlockPadding := cryptoInfo.value.padding;
    enc.decryptedLengthBeforeInflate := plainTextSize;
    enc.cypherBlockPadding := cypherBlockPadding;
    var reset := Reopen(stream);
    if reset.Err? {
      return Err(reset.error);
    }
    r := Ok(SizeInfo(plainTextSize, cypherBlockPadding, reset.value));
  }

  /** The IV step on the descriptor: the cached IV, or the first bytes of the source, cached. */
  method ResolveIvStep(enc: Encrypted, stream: Source) returns (r: Result<Cipher>)
    modifies enc
    ensures (r, enc.Cached()) == ResolveIv(old(enc.Cached()), stream.data)
  {
    if IvCached(enc.Cached()) {
      var ivBuffer := enc.cypherBlockIV.value;
      var cypherRangeStream := Range(stream.data, AES_BLOCK_SIZE, |stream.data| - 1);
      return Ok(Cipher(ivBuffer, cypherRangeStream));
    }
    if |stream.data| == 0 {
      return Err(ReadErr);
    }
    var ivBuffer := stream.data[..Min(AES_BLOCK_SIZE, |stream.data|)];
    enc.cypherBlockIV := Some(ivBuffer);
    r := Ok(Cipher(ivBuffer, stream.data[|ivBuffer|..]));
  }

  /**
   * The transform on the descriptor. Only its three cache fields can change (every other field
   * is constant), and the outcome and the new cache are those of `Transform`.
   */
  method TransformStream(lcp: License, linkHref: string, linkPropertiesEncrypted: Encrypted, codecs: Codecs,
                         stream: Source, isPartialByteRangeRequest: bool,
                         partialByteBegin: int, partialByteEnd: int)
    returns (r: Result<StreamAndLength>)
    modifies linkPropertiesEncrypted
    ensures (r, linkPropertiesEncrypted.Cached())
         == Transform(linkPropertiesEncrypted.Declared(), old(linkPropertiesEncrypted.Cached()), lcp, codecs,
                      stream, Request(isPartialByteRangeRequest, partialByteBegin, partialByteEnd))
  {
    var enc := linkPropertiesEncrypted;
    var isCompressionDeflate := enc.compression == "deflate";
    var sized := ResolveSizeStep(lcp, enc, codecs, stream);
    if sized.Err? {
      return Err(sized.error);
    }
    var plainTextSize := sized.value.plainTextSize;
    var src := sized.value.source;

    var partialByteBegin := partialByteBegin;
    var partialByteEnd := partialByteEnd;
    if partialByteBegin < 0 {
      partialByteBegin := 0;
    }
    if partialByteEnd < 0 {
      partialByteEnd := plainTextSize - 1;
      if HasOriginalLength(enc.Declared()) {
        partialByteEnd := enc.originalLength.value - 1;
      }
    }

    var cipher := ResolveIvStep(enc, src);
    if cipher.Err? {
      return Err(cipher.error);
    }
    var ivBuffer := cipher.value.iv;
    var rawDecryptStream := cipher.value.body;
    if |ivBuffer| != AES_BLOCK_SIZE {
      return Err(InvalidIvLength);
    }
    if |rawDecryptStream| % AES_BLOCK_SIZE != 0 {
      return Err(WrongFinalBlockLength);
    }
    var destStream := DecryptBlocks(codecs.decipher, lcp.contentKey, ivBuffer, rawDecryptStream);
    if enc.cypherBlockPadding != 0 {
      destStream := Range(destStream, 0, plainTextSize - 1);
    }
    if isCompressionDeflate {
      var inflated := codecs.inflateRaw(destStream);
      if inflated.None? {
        return Err(InflateErr);
      }
      destStream := inflated.value;
    }

    var l := if HasOriginalLength(enc.Declared()) then enc.originalLength.value else plainTextSize;
    if isPartialByteRangeRequest {
      destStream := Range(destStream, partialByteBegin, partialByteEnd);
    }
    r := Ok(StreamAndLength(l, destStream, src, Request(isPartialByteRangeRequest, partialByteBegin, partialByteEnd)));
  }

  /** The reset() closure of an output: reopen its upstream, then transform it again. */
  method Reset(lcp: License, linkHref: string, linkPropertiesEncrypted: Encrypted, codecs: Codecs,
               sal: StreamAndLength)
    returns (r: Result<StreamAndLength>)
    modifies linkPropertiesEncrypted
    ensures (r, linkPropertiesEncrypted.Cached())
         == ResetOutput(linkPropertiesEncrypted.Declared(), old(linkPropertiesEncrypted.Cached()), lcp, codecs, sal)
  {
    var resetedStream := Reopen(sal.upstream);
    if resetedStream.Err? {
      return Err(resetedStream.error);
    }
    r := TransformStream(lcp, linkHref, linkPropertiesEncrypted, codecs, resetedStream.value,
                         sal.replay.partial, sal.replay.begin, sal.replay.end);
  }
}

/** The build as it ships: both entry points reject at once and touch nothing. */
module BrowserBuild {
  import opened Common
  import opened Resources
  import SizeProbe
  import Transformer

  method TransformStream(lcp: License, linkHref: string, linkPropertiesEncrypted: Encrypted,
                         stream: Source, isPartialByteRangeRequest: bool,
                         partialByteBegin: int, partialByteEnd: int)
    returns (r: Result<Transformer.StreamAndLength>)
    ensures r == Err(NotSupportedInBrowser)
  {
    r := Err(NotSupportedInBrowser);
  }

  method GetDecryptedSizeStream(lcp: License, stream: Source) returns (r: Result<SizeProbe.CryptoInfo>)
    ensures r == Err(NotSupportedInBrowser)
  {
    r := Err(NotSupportedInBrowser);
  }
}
