/** What the transform guarantees: caching, range defaults, range composition, round trip, reset. */
module TransformProperties {
  import opened Common
  import opened Cbc
  import opened RangeStreams
  import opened Resources
  import opened SizeProbe
  import opened Transformer

  /**
   * A positive cached length is used as it is: the probe does not run (so a source too short for
   * it is no obstacle), the source is not reopened, and the cached length and padding stay.
   */
  lemma WarmCacheSkipsProbe(decl: Declaration, cache: Cache, lcp: License, codecs: Codecs,
                            src: Source, req: Request)
    requires cache.decryptedLengthBeforeInflate > 0
    ensures var (r, c) := Transform(decl, cache, lcp, codecs, src, req);
            c.decryptedLengthBeforeInflate == cache.decryptedLengthBeforeInflate
            && c.cypherBlockPadding == cache.cypherBlockPadding
            && r != Err(CryptoErr) && r != Err(IoErr)
            && (r.Ok? ==> r.value.upstream == src)
  {
  }

  /**
   * With no positive cached length the probe runs: its failure is the transform's, with the cache
   * untouched; its length and padding are written to the cache even when reopening then fails.
   */
  lemma ColdCacheProbes(decl: Declaration, cache: Cache, lcp: License, codecs: Codecs,
                        src: Source, req: Request)
    requires cache.decryptedLengthBeforeInflate <= 0
    ensures var probe := DecryptedSize(codecs.decipher, lcp.contentKey, src.data);
            var (r, c) := Transform(decl, cache, lcp, codecs, src, req);
            (probe.Err? ==> r == Err(CryptoErr) && c == cache)
            && (probe.Ok? ==> c.decryptedLengthBeforeInflate == probe.value.length
                              && c.cypherBlockPadding == probe.value.padding)
            && (probe.Ok? && !src.canReset ==> r == Err(IoErr))
  {
  }

  /**
   * A cached IV stays as it is; otherwise a transform that gets past the IV caches the first
   * 16 bytes of the source, and a successful one always has.
   */
  lemma IvIsCachedOnce(decl: Declaration, cache: Cache, lcp: License, codecs: Codecs,
                       src: Source, req: Request)
    ensures var (r, c) := Transform(decl, cache, lcp, codecs, src, req);
            (IvCached(cache) ==> c.cypherBlockIV == cache.cypherBlockIV)
            && (!IvCached(cache) && r.Ok? ==> |src.data| >= AES_BLOCK_SIZE
                                              && c.cypherBlockIV == Some(src.data[..AES_BLOCK_SIZE]))
  {
  }

  /**
   * After a successful transform the cache holds the plaintext size in force, and the range's
   * open bounds were filled in: begin from 0, end at the last byte of the declared original length
   * when there is one, else of that plaintext size.
   */
  lemma RangeDefaults(decl: Declaration, cache: Cache, lcp: License, codecs: Codecs,
                      src: Source, req: Request)
    requires Transform(decl, cache, lcp, codecs, src, req).0.Ok?
    ensures var (r, c) := Transform(decl, cache, lcp, codecs, src, req);
            r.value.replay.partial == req.partial
            && r.value.replay.begin == (if req.begin < 0 then 0 else req.begin)
            && r.value.replay.end == (if req.end >= 0 then req.end
                                      else if HasOriginalLength(decl) then decl.originalLength.value - 1
                                      else c.decryptedLengthBeforeInflate - 1)
  {
  }

  /**
   * The declared output length is the original length when declared, else the plaintext size in
   * force; a partial request does not reduce it.
   */
  lemma DeclaredLengthIgnoresRange(decl: Declaration, cache: Cache, lcp: License, codecs: Codecs,
                                   src: Source, req: Request)
    requires Transform(decl, cache, lcp, codecs, src, req).0.Ok?
    ensures var (r, c) := Transform(decl, cache, lcp, codecs, src, req);
            r.value.length == (if HasOriginalLength(decl) then decl.originalLength.value
                               else c.decryptedLengthBeforeInflate)
            && r.value.length == Transform(decl, cache, lcp, codecs, src, req.(partial := !req.partial)).0.value.length
  {
    PartialIsRangeOfWhole(decl, cache, lcp, codecs, src, req.begin, req.end);
  }

  /**
   * Without inflate or range, the trim stage (present when the cached padding is non-zero) limits
   * the decrypted bytes to the plaintext size in force; without it every ciphertext byte after the
   * IV block comes out decrypted, the padding included. The bytes served are the CBC decryption,
   * under the IV now cached, of everything after the first block, cut to that size.
   */
  lemma TrimLimitsToPlainTextSize(decl: Declaration, cache: Cache, lcp: License, codecs: Codecs,
                                  src: Source, req: Request)
    requires decl.compression != "deflate" && !req.partial
    requires Transform(decl, cache, lcp, codecs, src, req).0.Ok?
    ensures var (r, c) := Transform(decl, cache, lcp, codecs, src, req);
            var size := c.decryptedLengthBeforeInflate;
            var body := if |src.data| < AES_BLOCK_SIZE then 0 else |src.data| - AES_BLOCK_SIZE;
            |r.value.stream| == if c.cypherBlockPadding != 0 then (if size < 0 then 0 else Min(size, body)) else body
    ensures var (r, c) := Transform(decl, cache, lcp, codecs, src, req);
            var body := if |src.data| < AES_BLOCK_SIZE then [] else src.data[AES_BLOCK_SIZE..];
            && c.cypherBlockIV.Some? && |c.cypherBlockIV.value| == AES_BLOCK_SIZE
            && |body| % AES_BLOCK_SIZE == 0
            && var full := DecryptBlocks(codecs.decipher, lcp.contentKey, c.cypherBlockIV.value, body);
               r.value.stream == if c.cypherBlockPadding != 0 then Range(full, 0, c.decryptedLengthBeforeInflate - 1) else full
  {
    var sized := ResolveSize(cache, codecs.decipher, lcp.contentKey, src);
    if IvCached(sized.1) {
      if |src.data| < AES_BLOCK_SIZE {
        assert Range(src.data, AES_BLOCK_SIZE, |src.data| - 1) == [];
      } else {
        assert Range(src.data, AES_BLOCK_SIZE, |src.data| - 1) == src.data[AES_BLOCK_SIZE..];
      }
    }
  }

  /**
   * A partial request yields exactly the bytes [begin, end] (defaults applied) of what the same
   * request without a range yields, with the same declared length, the same failures and the
   * same cache.
   */
  lemma PartialIsRangeOfWhole(decl: Declaration, cache: Cache, lcp: License, codecs: Codecs,
                              src: Source, begin: int, end: int)
    ensures var (rp, cp) := Transform(decl, cache, lcp, codecs, src, Request(true, begin, end));
            var (rw, cw) := Transform(decl, cache, lcp, codecs, src, Request(false, begin, end));
            cp == cw
            && (rp.Err? <==> rw.Err?)
            && (rp.Err? ==> rp.error == rw.error)
            && (rp.Ok? ==> rp.value.length == rw.value.length
                           && rp.value.stream == Range(rw.value.stream, rp.value.replay.begin, rp.value.replay.end))
  {
    var sized := ResolveSize(cache, codecs.decipher, lcp.contentKey, src);
    if sized.0.Ok? {
      var size := sized.0.value;
      assert DefaultRange(Request(true, begin, end), size.plainTextSize, decl).begin
          == DefaultRange(Request(false, begin, end), size.plainTextSize, decl).begin;
    }
  }

  /**
   * A declared original length, matching the computed size or not, changes nothing but the
   * declared output length and the default end of a range: the bytes served of a request that is
   * not partial, or whose end is given, and the cache are the same.
   */
  lemma OriginalLengthOnlyDeclares(decl: Declaration, decl': Declaration, cache: Cache, lcp: License,
                                   codecs: Codecs, src: Source, req: Request)
    requires decl' == decl.(originalLength := decl'.originalLength)
    requires !req.partial || req.end >= 0
    ensures var (r, c) := Transform(decl, cache, lcp, codecs, src, req);
            var (r', c') := Transform(decl', cache, lcp, codecs, src, req);
            c == c' && (r.Ok? <==> r'.Ok?)
            && (r.Ok? ==> r.value.stream == r'.value.stream)
  {
  }

  /** What the cache may hold for a ciphertext: nothing, or what the probe and the first block give. */
  ghost predicate Coherent(cache: Cache, decipher: BlockCipher, key: seq<byte>, data: seq<byte>) {
    (cache.decryptedLengthBeforeInflate > 0 ==>
       DecryptedSize(decipher, key, data)
         == Ok(CryptoInfo(cache.decryptedLengthBeforeInflate, cache.cypherBlockPadding)))
    && (IvCached(cache) ==> |data| >= AES_BLOCK_SIZE && cache.cypherBlockIV.value == data[..AES_BLOCK_SIZE])
  }

  /** The transform keeps the cache coherent with the resource it serves; a fresh descriptor is. */
  lemma TransformKeepsCacheCoherent(decl: Declaration, cache: Cache, lcp: License, codecs: Codecs,
                                    src: Source, req: Request)
    requires Coherent(cache, codecs.decipher, lcp.contentKey, src.data)
    ensures Coherent(InitialCache, codecs.decipher, lcp.contentKey, src.data)
    ensures Coherent(Transform(decl, cache, lcp, codecs, src, req).1, codecs.decipher, lcp.contentKey, src.data)
  {
    var sized := ResolveSize(cache, codecs.decipher, lcp.contentKey, src);
    if sized.0.Ok? {
      assert DecryptedSize(codecs.decipher, lcp.contentKey, src.data).Ok?;
      assert sized.0.value.source.data == src.data;
    }
  }

  /**
   * The round trip: on a resource encrypted as LCP does it, with a coherent cache, the transform
   * serves the (inflated, when deflated) plaintext, sliced to the range when one is asked, with
   * the declared length, and leaves the plaintext size, the padding and the IV in the cache.
   */
  lemma {:induction false} TransformDecryptsResource(
    decl: Declaration, cache: Cache, lcp: License, codecs: Codecs, cipher: BlockCipher,
    iv: Block, content: seq<byte>, filler: seq<byte>, src: Source, req: Request)
    requires Inverts(codecs.decipher, cipher)
    requires |filler| >= AES_BLOCK_SIZE - 1
    requires src.data == EncryptResource(cipher, lcp.contentKey, iv, content, filler) && src.canReset
    requires Coherent(cache, codecs.decipher, lcp.contentKey, src.data)
    ensures var (r, c) := Transform(decl, cache, lcp, codecs, src, req);
            var range := DefaultRange(req, |content|, decl);
            c == Cache(|content|, PaddingLength(|content|), Some(iv))
            && match InflateStage(decl, codecs.inflateRaw, content)
               case None => r == Err(InflateErr)
               case Some(plain) =>
                 r == Ok(StreamAndLength(DeclaredLength(decl, |content|), Select(range, plain), src, range))
  {
    var key := lcp.contentKey;
    var ct := src.data;
    var pad := PaddingLength(|content|);
    var padded := Pad(content, filler);
    ProbeOfEncryptedResource(codecs.decipher, cipher, key, iv, content, filler);
    assert DecryptedSize(codecs.decipher, key, ct) == Ok(CryptoInfo(|content|, pad));
    var c1 := cache.(decryptedLengthBeforeInflate := |content|, cypherBlockPadding := pad);
    var sized := ResolveSize(cache, codecs.decipher, key, src);
    assert sized == (Ok(SizeInfo(|content|, pad, src)), c1);
    var body := ct[AES_BLOCK_SIZE..];
    assert Range(ct, AES_BLOCK_SIZE, |ct| - 1) == body;
    var c2 := Cache(|content|, pad, Some(iv));
    assert ResolveIv(c1, ct) == (Ok(Cipher(iv, body)), c2);
    DecryptEncrypt(codecs.decipher, cipher, key, iv, padded);
    assert DecryptStage(codecs.decipher, key, Cipher(iv, body)) == Ok(padded);
    assert Trim(padded, pad, |content|) == content;
  }

  /** The range law on a resource stored without compression: [begin, end] of its plaintext. */
  lemma RangeOfPlaintext(decl: Declaration, cache: Cache, lcp: License, codecs: Codecs, cipher: BlockCipher,
                         iv: Block, content: seq<byte>, filler: seq<byte>, src: Source, begin: int, end: int)
    requires Inverts(codecs.decipher, cipher)
    requires |filler| >= AES_BLOCK_SIZE - 1
    requires src.data == EncryptResource(cipher, lcp.contentKey, iv, content, filler) && src.canReset
    requires Coherent(cache, codecs.decipher, lcp.contentKey, src.data)
    requires decl.compression != "deflate"
    requires 0 <= begin <= end < |content|
    ensures var r := Transform(decl, cache, lcp, codecs, src, Request(true, begin, end)).0;
            r.Ok? && r.value.stream == content[begin..end + 1]
            && r.value.length == DeclaredLength(decl, |content|)
  {
    TransformDecryptsResource(decl, cache, lcp, codecs, cipher, iv, content, filler, src, Request(true, begin, end));
  }

  /**
   * A deflated resource whose declared original length is that of its inflated bytes: a request
   * with open bounds, ranged or not, serves those bytes in full, with that length.
   */
  lemma DeflatedResourceInflates(decl: Declaration, cache: Cache, lcp: License, codecs: Codecs, cipher: BlockCipher,
                                 iv: Block, deflated: seq<byte>, filler: seq<byte>, src: Source,
                                 original: seq<byte>, partial: bool)
    requires Inverts(codecs.decipher, cipher)
    requires |filler| >= AES_BLOCK_SIZE - 1
    requires src.data == EncryptResource(cipher, lcp.contentKey, iv, deflated, filler) && src.canReset
    requires Coherent(cache, codecs.decipher, lcp.contentKey, src.data)
    requires decl.compression == "deflate" && codecs.inflateRaw(deflated) == Some(original)
    requires decl.originalLength == Some(|original|) && |original| > 0
    ensures var r := Transform(decl, cache, lcp, codecs, src, Request(partial, -1, -1)).0;
            r.Ok? && r.value.stream == original && r.value.length == |original|
  {
    TransformDecryptsResource(decl, cache, lcp, codecs, cipher, iv, deflated, filler, src, Request(partial, -1, -1));
    assert Range(original, 0, |original| - 1) == original;
  }

  /**
   * reset() of a successful output, on a source that can be reopened, yields the very same output
   * (bytes, declared length, range) and leaves the cache as the first transform left it.
   */
  lemma ResetReproduces(decl: Declaration, cache: Cache, lcp: License, codecs: Codecs,
                        src: Source, req: Request)
    requires src.canReset
    requires Transform(decl, cache, lcp, codecs, src, req).0.Ok?
    ensures var (r, c) := Transform(decl, cache, lcp, codecs, src, req);
            ResetOutput(decl, c, lcp, codecs, r.value) == (r, c)
  {
    var key := lcp.contentKey;
    var sized := ResolveSize(cache, codecs.decipher, key, src);
    var size := sized.0.value;
    assert size.source == src;
    var range := DefaultRange(req, size.plainTextSize, decl);
    var ivd := ResolveIv(sized.1, src.data);
    var c := ivd.1;
    var r := Transform(decl, cache, lcp, codecs, src, req).0;
    assert r.value.replay == range && r.value.upstream == src;
    // the second run finds the same size, the same padding and the same IV
    var sized2 := ResolveSize(c, codecs.decipher, key, src);
    assert sized2 == (Ok(size), c);
    assert DefaultRange(range, size.plainTextSize, decl) == range;
    assert IvCached(c) && |c.cypherBlockIV.value| == AES_BLOCK_SIZE;
    if !IvCached(sized.1) {
      assert Range(src.data, AES_BLOCK_SIZE, |src.data| - 1) == src.data[AES_BLOCK_SIZE..];
    }
    assert ResolveIv(c, src.data) == ivd;
  }
}
