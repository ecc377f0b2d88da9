/**
 * `getDecryptedSizeStream`: the plaintext length of a ciphertext stream, found by decrypting
 * only its last block (with the block before it as IV) and reading the padding count there.
 */
module SizeProbe {
  import opened Common
  import opened Cbc
  import opened RangeStreams
  import opened Resources

  /** ICryptoInfo: the plaintext length before inflate and the padding count. */
  datatype CryptoInfo = CryptoInfo(length: int, padding: int)

  const TWO_AES_BLOCK_SIZE: nat := 2 * AES_BLOCK_SIZE

  /** The last plaintext block as the probe decrypts it. */
  function ProbedBlock(decipher: BlockCipher, key: seq<byte>, data: seq<byte>): Block
    requires |data| >= TWO_AES_BLOCK_SIZE
  {
    XorBlock(decipher(key, data[|data| - AES_BLOCK_SIZE..]),
             data[|data| - TWO_AES_BLOCK_SIZE..|data| - AES_BLOCK_SIZE])
  }

  /**
   * The probe's result on a ciphertext of |data| bytes. Shorter than two blocks: "crypto err".
   * Otherwise the padding count is byte 15 of the decrypted last block, taken as it is (no range
   * check), and the length is what remains after the IV block and the padding.
   */
  function DecryptedSize(decipher: BlockCipher, key: seq<byte>, data: seq<byte>): (r: Result<CryptoInfo>)
    ensures r.Err? <==> |data| < TWO_AES_BLOCK_SIZE
    ensures r.Err? ==> r.error == CryptoErr
    ensures r.Ok? ==> r.value.padding == ProbedBlock(decipher, key, data)[AES_BLOCK_SIZE - 1] as int
    ensures r.Ok? ==> 0 <= r.value.padding < 256
    ensures r.Ok? ==> r.value.length + r.value.padding + AES_BLOCK_SIZE == |data|
  {
    if |data| < TWO_AES_BLOCK_SIZE then Err(CryptoErr)
    else
      var readPos := |data| - TWO_AES_BLOCK_SIZE;
      var cypherRange := Range(data, readPos, readPos + TWO_AES_BLOCK_SIZE - 1);
      var ivBuffer: Block := cypherRange[..AES_BLOCK_SIZE];
      var encrypted: Block := cypherRange[AES_BLOCK_SIZE..];
      var decrypted := XorBlock(decipher(key, encrypted), ivBuffer);
      var nPaddingBytes := decrypted[AES_BLOCK_SIZE - 1] as int;
      Ok(CryptoInfo(|data| - AES_BLOCK_SIZE - nPaddingBytes, nPaddingBytes))
  }

  function Concat(chunks: seq<seq<byte>>): (r: seq<byte>)
    decreases |chunks|
  {
    if chunks == [] then [] else Concat(chunks[..|chunks| - 1]) + chunks[|chunks| - 1]
  }

  /**
   * The probe as the stream handler runs it: read the last two blocks, decrypt the second with
   * the first as IV (update, then final), collect the decrypted chunks, concatenate them.
   */
  method GetDecryptedSizeStream(lcp: License, codecs: Codecs, stream: Source) returns (r: Result<CryptoInfo>)
    ensures r == DecryptedSize(codecs.decipher, lcp.contentKey, stream.data)
  {
    var length := |stream.data|;
    if length < TWO_AES_BLOCK_SIZE {
      return Err(CryptoErr);
    }
    var readPos := length - TWO_AES_BLOCK_SIZE;
    var cypherRangeStream := Range(stream.data, readPos, readPos + TWO_AES_BLOCK_SIZE - 1);
    assert cypherRangeStream == stream.data[readPos..];
    var decrypteds: seq<seq<byte>> := [];
    var ivBuffer: Block := cypherRangeStream[..AES_BLOCK_SIZE];
    var encrypted: Block := cypherRangeStream[AES_BLOCK_SIZE..TWO_AES_BLOCK_SIZE];
    assert encrypted == cypherRangeStream[AES_BLOCK_SIZE..] == stream.data[length - AES_BLOCK_SIZE..];
    assert ivBuffer == stream.data[readPos..length - AES_BLOCK_SIZE];
    // update(): one whole block in, one block out; final(): nothing is held back without auto-padding
    var buff1: seq<byte> := XorBlock(codecs.decipher(lcp.contentKey, encrypted), ivBuffer);
    decrypteds := decrypteds + [buff1];
    var buff2: seq<byte> := [];
    decrypteds := decrypteds + [buff2];
    var decrypted := Concat(decrypteds);
    assert decrypted == buff1 by {
      assert decrypteds[..1] == [buff1];
      assert Concat([buff1]) == Concat([]) + buff1;
    }
    var nPaddingBytes := decrypted[AES_BLOCK_SIZE - 1] as int;
    var size := length - AES_BLOCK_SIZE - nPaddingBytes;
    r := Ok(CryptoInfo(size, nPaddingBytes));
  }

  /** The probe reads nothing but the length and the last two blocks of the ciphertext. */
  lemma ProbeReadsOnlyLastTwoBlocks(decipher: BlockCipher, key: seq<byte>, a: seq<byte>, b: seq<byte>)
    requires |a| == |b|
    requires |a| >= TWO_AES_BLOCK_SIZE ==> a[|a| - TWO_AES_BLOCK_SIZE..] == b[|b| - TWO_AES_BLOCK_SIZE..]
    ensures DecryptedSize(decipher, key, a) == DecryptedSize(decipher, key, b)
  {
    if |a| >= TWO_AES_BLOCK_SIZE {
      var readPos := |a| - TWO_AES_BLOCK_SIZE;
      assert Range(a, readPos, readPos + TWO_AES_BLOCK_SIZE - 1) == a[readPos..];
      assert Range(b, readPos, readPos + TWO_AES_BLOCK_SIZE - 1) == b[readPos..];
    }
  }

  /**
   * On a ciphertext of whole blocks, the padding count the probe reports is the last byte of the
   * full CBC decryption of everything after the IV block.
   */
  lemma ProbeMatchesFullDecryption(decipher: BlockCipher, key: seq<byte>, data: seq<byte>)
    requires |data| >= TWO_AES_BLOCK_SIZE && |data| % AES_BLOCK_SIZE == 0
    ensures DecryptedSize(decipher, key, data).Ok?
    ensures DecryptedSize(decipher, key, data).value.padding
         == DecryptBlocks(decipher, key, data[..AES_BLOCK_SIZE], data[AES_BLOCK_SIZE..])[|data| - AES_BLOCK_SIZE - 1] as int
  {
    var n := |data|;
    var iv: Block := data[..AES_BLOCK_SIZE];
    var ct := data[AES_BLOCK_SIZE..];
    var prev: Block := data[n - TWO_AES_BLOCK_SIZE..n - AES_BLOCK_SIZE];
    var last: Block := data[n - AES_BLOCK_SIZE..];
    var full := DecryptBlocks(decipher, key, iv, ct);
    assert Range(data, n - TWO_AES_BLOCK_SIZE, n - 1) == data[n - TWO_AES_BLOCK_SIZE..];
    assert data[n - TWO_AES_BLOCK_SIZE..][..AES_BLOCK_SIZE] == prev;
    assert data[n - TWO_AES_BLOCK_SIZE..][AES_BLOCK_SIZE..] == last;
    if n == TWO_AES_BLOCK_SIZE {
      assert ct == last && iv == prev;
      DecryptOneBlock(decipher, key, prev, last);
    } else {
      var k := |ct| - AES_BLOCK_SIZE;
      DecryptSuffix(decipher, key, iv, ct, k);
      assert ct[k - AES_BLOCK_SIZE..k] == prev;
      assert ct[k..] == last;
      DecryptOneBlock(decipher, key, prev, last);
      assert full[|full| - 1] == full[k..][AES_BLOCK_SIZE - 1];
    }
  }

  /**
   * The ciphertext length identity: when |data| is IV + block * (floor(P / block) + 1) and the
   * decrypted padding count is |data| - IV - P, that count lies in [1, 16] and the probe reports P.
   */
  lemma LengthIdentity(decipher: BlockCipher, key: seq<byte>, data: seq<byte>, p: nat)
    requires |data| == CipherTextLength(p)
    requires ProbedBlock(decipher, key, data)[AES_BLOCK_SIZE - 1] as int == |data| - AES_BLOCK_SIZE - p
    ensures 1 <= |data| - AES_BLOCK_SIZE - p <= AES_BLOCK_SIZE
    ensures DecryptedSize(decipher, key, data) == Ok(CryptoInfo(p, |data| - AES_BLOCK_SIZE - p))
  {
    CipherTextLengthIdentity(p);
    var n := |data|;
    assert Range(data, n - TWO_AES_BLOCK_SIZE, n - 1) == data[n - TWO_AES_BLOCK_SIZE..];
    assert data[n - TWO_AES_BLOCK_SIZE..][..AES_BLOCK_SIZE] == data[n - TWO_AES_BLOCK_SIZE..n - AES_BLOCK_SIZE];
    assert data[n - TWO_AES_BLOCK_SIZE..][AES_BLOCK_SIZE..] == data[n - AES_BLOCK_SIZE..];
  }

  /**
   * On a resource encrypted as LCP does it (IV block, padded plaintext in CBC mode) the probe
   * reports exactly the plaintext length and the padding count, 16 - |p| mod 16.
   */
  lemma ProbeOfEncryptedResource(decipher: BlockCipher, cipher: BlockCipher, key: seq<byte>,
                                 iv: Block, p: seq<byte>, filler: seq<byte>)
    requires Inverts(decipher, cipher)
    requires |filler| >= AES_BLOCK_SIZE - 1
    ensures |EncryptResource(cipher, key, iv, p, filler)| == CipherTextLength(|p|)
    ensures DecryptedSize(decipher, key, EncryptResource(cipher, key, iv, p, filler))
         == Ok(CryptoInfo(|p|, PaddingLength(|p|)))
  {
    var ct := EncryptResource(cipher, key, iv, p, filler);
    var padded := Pad(p, filler);
    CipherTextLengthIdentity(|p|);
    DecryptEncrypt(decipher, cipher, key, iv, padded);
    ProbeMatchesFullDecryption(decipher, key, ct);
    assert DecryptBlocks(decipher, key, ct[..AES_BLOCK_SIZE], ct[AES_BLOCK_SIZE..]) == padded;
  }

  /** asharedculture_soundtrack.mp3: 3265152 plaintext bytes, a full padding block, 3265184 in all. */
  lemma SoundtrackMp3Example(decipher: BlockCipher, cipher: BlockCipher, key: seq<byte>,
                             iv: Block, p: seq<byte>, filler: seq<byte>)
    requires Inverts(decipher, cipher)
    requires |filler| >= AES_BLOCK_SIZE - 1 && |p| == 3265152
    ensures |EncryptResource(cipher, key, iv, p, filler)| == 3265184
    ensures DecryptedSize(decipher, key, EncryptResource(cipher, key, iv, p, filler)) == Ok(CryptoInfo(3265152, 16))
  {
    ProbeOfEncryptedResource(decipher, cipher, key, iv, p, filler);
  }

  /** shared-culture.mp4: 21784780 plaintext bytes, 4 padding bytes, 21784800 in all. */
  lemma SharedCultureMp4Example(decipher: BlockCipher, cipher: BlockCipher, key: seq<byte>,
                                iv: Block, p: seq<byte>, filler: seq<byte>)
    requires Inverts(decipher, cipher)
    requires |filler| >= AES_BLOCK_SIZE - 1 && |p| == 21784780
    ensures |EncryptResource(cipher, key, iv, p, filler)| == 21784800
    ensures DecryptedSize(decipher, key, EncryptResource(cipher, key, iv, p, filler)) == Ok(CryptoInfo(21784780, 4))
  {
    ProbeOfEncryptedResource(decipher, cipher, key, iv, p, filler);
  }

  /** shared-culture.webm: 8330669 plaintext bytes, 3 padding bytes, 8330688 in all. */
  lemma SharedCultureWebmExample(decipher: BlockCipher, cipher: BlockCipher, key: seq<byte>,
                                 iv: Block, p: seq<byte>, filler: seq<byte>)
    requires Inverts(decipher, cipher)
    requires |filler| >= AES_BLOCK_SIZE - 1 && |p| == 8330669
    ensures |EncryptResource(cipher, key, iv, p, filler)| == 8330688
    ensures DecryptedSize(decipher, key, EncryptResource(cipher, key, iv, p, filler)) == Ok(CryptoInfo(8330669, 3))
  {
    ProbeOfEncryptedResource(decipher, cipher, key, iv, p, filler);
  }
}
