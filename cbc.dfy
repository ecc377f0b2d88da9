/**
 * AES-256-CBC as Node's `crypto.createDecipheriv("aes-256-cbc", key, iv)` applies it with
 * `setAutoPadding(false)`. The AES block primitive itself is a parameter (a foreign library);
 * the cipher-block chaining and the block padding are written out.
 */
module Cbc {
  import opened Common

  const AES_BLOCK_SIZE: nat := 16

  type Block = b: seq<byte> | |b| == AES_BLOCK_SIZE witness seq(16, _ => 0)

  /** AES applied to one block under a content key (decryption, or encryption for the reference side). */
  type BlockCipher = (seq<byte>, Block) -> Block

  function XorBlock(a: Block, b: Block): Block {
    seq(AES_BLOCK_SIZE, i requires 0 <= i < AES_BLOCK_SIZE => a[i] ^ b[i])
  }

  lemma XorCancel(a: Block, b: Block)
    ensures XorBlock(XorBlock(a, b), b) == a
  {
    forall i | 0 <= i < AES_BLOCK_SIZE ensures XorBlock(XorBlock(a, b), b)[i] == a[i] {
      assert (a[i] ^ b[i]) ^ b[i] == a[i];
    }
  }

  /**
   * CBC decryption of whole blocks, nothing removed: plaintext block j is the deciphered
   * ciphertext block j exclusive-or'ed with ciphertext block j - 1 (with the IV for j = 0).
   */
  function DecryptBlocks(decipher: BlockCipher, key: seq<byte>, iv: Block, ct: seq<byte>): (pt: seq<byte>)
    requires |ct| % AES_BLOCK_SIZE == 0
    ensures |pt| == |ct|
    decreases |ct|
  {
    if |ct| == 0 then []
    else
      var c: Block := ct[..AES_BLOCK_SIZE];
      XorBlock(decipher(key, c), iv) + DecryptBlocks(decipher, key, c, ct[AES_BLOCK_SIZE..])
  }

  /** CBC encryption of whole blocks: the publication author's side, used as the reference. */
  function EncryptBlocks(cipher: BlockCipher, key: seq<byte>, iv: Block, pt: seq<byte>): (ct: seq<byte>)
    requires |pt| % AES_BLOCK_SIZE == 0
    ensures |ct| == |pt|
    decreases |pt|
  {
    if |pt| == 0 then []
    else
      var c := cipher(key, XorBlock(pt[..AES_BLOCK_SIZE], iv));
      c + EncryptBlocks(cipher, key, c, pt[AES_BLOCK_SIZE..])
  }

  /** `decipher` undoes `cipher` under every key. */
  ghost predicate Inverts(decipher: BlockCipher, cipher: BlockCipher) {
    forall key, b :: decipher(key, cipher(key, b)) == b
  }

  lemma {:induction false} DecryptEncrypt(decipher: BlockCipher, cipher: BlockCipher, key: seq<byte>, iv: Block, pt: seq<byte>)
    requires Inverts(decipher, cipher)
    requires |pt| % AES_BLOCK_SIZE == 0
    ensures DecryptBlocks(decipher, key, iv, EncryptBlocks(cipher, key, iv, pt)) == pt
    decreases |pt|
  {
    if |pt| > 0 {
      var p: Block := pt[..AES_BLOCK_SIZE];
      var c := cipher(key, XorBlock(p, iv));
      var rest := EncryptBlocks(cipher, key, c, pt[AES_BLOCK_SIZE..]);
      var ct := EncryptBlocks(cipher, key, iv, pt);
      assert ct == c + rest;
      assert ct[..AES_BLOCK_SIZE] == c;
      assert ct[AES_BLOCK_SIZE..] == rest;
      DecryptEncrypt(decipher, cipher, key, c, pt[AES_BLOCK_SIZE..]);
      XorCancel(p, iv);
      assert DecryptBlocks(decipher, key, iv, ct) == p + pt[AES_BLOCK_SIZE..];
      assert pt == p + pt[AES_BLOCK_SIZE..];
    }
  }

  /**
   * CBC decryption can start at any block boundary k > 0, with ciphertext block k - 1 as the IV:
   * the fact the size probe relies on to decrypt only the last block.
   */
  lemma {:induction false} DecryptSuffix(decipher: BlockCipher, key: seq<byte>, iv: Block, ct: seq<byte>, k: nat)
    requires |ct| % AES_BLOCK_SIZE == 0 && k % AES_BLOCK_SIZE == 0
    requires AES_BLOCK_SIZE <= k <= |ct|
    ensures DecryptBlocks(decipher, key, iv, ct)[k..]
         == DecryptBlocks(decipher, key, ct[k - AES_BLOCK_SIZE..k], ct[k..])
    decreases k
  {
    var c: Block := ct[..AES_BLOCK_SIZE];
    var head: seq<byte> := XorBlock(decipher(key, c), iv);
    var tail: seq<byte> := ct[AES_BLOCK_SIZE..];
    var rest: seq<byte> := DecryptBlocks(decipher, key, c, tail);
    assert DecryptBlocks(decipher, key, iv, ct) == head + rest;
    assert (head + rest)[k..] == rest[k - AES_BLOCK_SIZE..];
    if k == AES_BLOCK_SIZE {
      assert ct[k - AES_BLOCK_SIZE..k] == c;
      assert ct[k..] == tail;
    } else {
      DecryptSuffix(decipher, key, c, tail, k - AES_BLOCK_SIZE);
      assert tail[k - 2 * AES_BLOCK_SIZE..k - AES_BLOCK_SIZE] == ct[k - AES_BLOCK_SIZE..k];
      assert tail[k - AES_BLOCK_SIZE..] == ct[k..];
    }
  }

  /** Decrypting a single block: the deciphered block exclusive-or'ed with the IV. */
  lemma DecryptOneBlock(decipher: BlockCipher, key: seq<byte>, iv: Block, c: Block)
    ensures DecryptBlocks(decipher, key, iv, c) == XorBlock(decipher(key, c), iv)
  {
    assert c[..AES_BLOCK_SIZE] == c;
    assert c[AES_BLOCK_SIZE..] == [];
  }

  /**
   * Number of padding bytes appended to a plaintext of n bytes so that it fills whole blocks:
   * a full block when n is already a multiple of the block size.
   */
  function PaddingLength(n: nat): (k: nat)
    ensures 1 <= k <= AES_BLOCK_SIZE
    ensures (n + k) % AES_BLOCK_SIZE == 0
  {
    AES_BLOCK_SIZE - n % AES_BLOCK_SIZE
  }

  /**
   * XML Encryption block padding: k - 1 arbitrary bytes (taken from `filler`) and, last, the count k.
   * PKCS#7 padding is the case where every filler byte is k.
   */
  function Pad(p: seq<byte>, filler: seq<byte>): (r: seq<byte>)
    requires |filler| >= AES_BLOCK_SIZE - 1
    ensures |r| == |p| + PaddingLength(|p|) && |r| % AES_BLOCK_SIZE == 0
    ensures r[..|p|] == p && r[|r| - 1] as int == PaddingLength(|p|)
  {
    var k := PaddingLength(|p|);
    p + filler[..k - 1] + [k as byte]
  }

  /** An LCP-protected resource: the IV block, then the padded plaintext encrypted in CBC mode. */
  function EncryptResource(cipher: BlockCipher, key: seq<byte>, iv: Block, p: seq<byte>, filler: seq<byte>): (ct: seq<byte>)
    requires |filler| >= AES_BLOCK_SIZE - 1
    ensures |ct| == AES_BLOCK_SIZE + |p| + PaddingLength(|p|)
    ensures ct[..AES_BLOCK_SIZE] == iv
    ensures ct[AES_BLOCK_SIZE..] == EncryptBlocks(cipher, key, iv, Pad(p, filler))
  {
    iv + EncryptBlocks(cipher, key, iv, Pad(p, filler))
  }

  /**
   * The ciphertext length identity: IV + plaintext + (block - plaintext mod block) equals
   * IV + block * (floor(plaintext / block) + 1).
   */
  function CipherTextLength(n: nat): nat {
    AES_BLOCK_SIZE + AES_BLOCK_SIZE * (n / AES_BLOCK_SIZE + 1)
  }

  lemma CipherTextLengthIdentity(n: nat)
    ensures CipherTextLength(n) == AES_BLOCK_SIZE + n + PaddingLength(n)
    ensures 1 <= CipherTextLength(n) - AES_BLOCK_SIZE - n <= AES_BLOCK_SIZE
  {
    assert n == AES_BLOCK_SIZE * (n / AES_BLOCK_SIZE) + n % AES_BLOCK_SIZE;
  }
}
