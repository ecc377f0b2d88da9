# LCP resource transformer — a Dafny model

This project models the LCP resource transformer of r2-lcp-js (`src/transform/transformer-lcp.ts`). The transformer serves the decrypted bytes of a publication resource that is protected with AES-256-CBC under Readium LCP. It has four parts:

- `supports`: the capability gate. It checks that the license is ready and that the resource's declared scheme, profile and algorithm are supported.
- `getDecryptedSizeStream`: the size probe. It finds the plaintext length by decrypting only the last cipher block, using the block before it as the IV, and reading the padding count from the last decrypted byte.
- `transformStream`: the pipeline. It takes the plaintext size, padding and IV from the resource's `Encrypted` descriptor when they are cached there, and otherwise probes and caches them. It then decrypts without padding removal, trims the output to the plaintext size, inflates it when the resource is deflated, applies the requested byte range, and returns an output whose `reset()` runs the whole transform again.
- `RangeStream`: the inclusive byte-range slice that the pipeline applies at several points.

In this build the two asynchronous entry points reject at once. Their real algorithm sits in block comments. Both are modelled:

- module `BrowserBuild` models the stubs that ship;
- modules `SizeProbe` and `Transformer` model the commented algorithm.

Modules:

- `Common`: bytes, `Option`, `Result`, and the ways the transformer rejects.
- `Cbc`: CBC chaining over an AES block primitive that is passed in as a parameter. It also holds the reference encryption side (XML Encryption block padding, then CBC) and the ciphertext length identity.
- `RangeStreams`: `Range`, the RangeStream stage.
- `Resources`: the license, the foreign primitives (`Codecs`), the ciphertext `Source`, and the `Encrypted` descriptor. The descriptor is a class whose fields are constant, except the three cache fields `decryptedLengthBeforeInflate`, `cypherBlockPadding` and `cypherBlockIV`.
- `Capability`: `supports`.
- `SizeProbe`: the probe as a function and as a method, and lemmas about it.
- `Transformer`: the pipeline. The function `Transform` gives both the outcome and the new cache. The method `TransformStream` updates the descriptor step by step and is proved equal to `Transform`.
- `TransformProperties`: lemmas about `Transform`.
- `BrowserBuild`: the live stubs.

Points where the code's behaviour differs from what LCP and PKCS#7 padding would lead one to expect:

- **Padding count.** The probe does not check that the padding count lies in [1, 16]. Any byte value is taken, and the length may come out negative.
- **Re-probing.** A cached length of 0 or less is not treated as cached, so the probe runs again on every request. This happens, for example, for an empty plaintext.
- **Declared length.** The declared output length of a partial request stays at the full length. It is not `end - begin + 1`.
- **Trim.** The trim stage is present only when the cached padding is non-zero.
- **Length of a deflated resource.** Without a truthy OriginalLength (absent, or 0), a deflated resource declares its plaintext size before inflate, the deflated size, as its output length (`DeclaredLength`, lines 403-404). This is why `DeflatedResourceInflates` asks for a non-zero OriginalLength.

## Model

| member | source | states |
|---|---|---|
| `Capability.Supports` | src/transform/transformer-lcp.ts:59-87 | true exactly when a license is given and ready, the scheme is the LCP namespace, the profile is basic-profile or profile-1.0, and the algorithm is xmlenc aes256-cbc; false when the license is absent or not ready |
| `Cbc.DecryptBlocks` | src/transform/transformer-lcp.ts:282-288 | CBC decryption with auto-padding off yields exactly as many bytes as it is given, padding included |
| `Cbc.DecryptSuffix` | src/transform/transformer-lcp.ts:494-520 | CBC decryption can restart at any block boundary, with the preceding ciphertext block as IV; this is why decrypting only the last block with the one before it is sound |
| `Cbc.DecryptEncrypt` | src/transform/transformer-lcp.ts:452-456 | deciphering the CBC encryption of whole blocks under the same key and IV gives back the plaintext, when the block decipher inverts the block cipher |
| `Cbc.CipherTextLengthIdentity` | src/transform/transformer-lcp.ts:448-450 | IV + block·(⌊P/block⌋ + 1) equals IV + P + (block − P mod block), and the padding it leaves lies in [1, 16] |
| `RangeStreams.Range` | src/transform/transformer-lcp.ts:464 | within the stream's bounds, the output is exactly bytes [begin, end]; an end past the stream yields everything from begin; a negative begin counts from 0; end < begin, or begin at or past the end of the stream, yields nothing |
| `Resources.Reopen` | src/transform/transformer-lcp.ts:183-188 | reset either fails with an I/O error or gives back a source of the same bytes |
| `SizeProbe.DecryptedSize` | src/transform/transformer-lcp.ts:457-554 | rejects with "crypto err" exactly when the ciphertext is shorter than 32 bytes; otherwise the padding is byte 15 of the probed block, unchecked (0..255), and length + padding + 16 equals the ciphertext length |
| `SizeProbe.GetDecryptedSizeStream` | src/transform/transformer-lcp.ts:489-554 | collecting the update and final chunks of the last-block decryption and concatenating them gives the result of `DecryptedSize` |
| `SizeProbe.ProbeReadsOnlyLastTwoBlocks` | src/transform/transformer-lcp.ts:462-465 | two ciphertexts of equal length that agree on their last 32 bytes get the same probe result; under 32 bytes, no content is read at all |
| `SizeProbe.ProbeMatchesFullDecryption` | src/transform/transformer-lcp.ts:494-545 | on whole blocks, the probed padding count is the last byte of the full CBC decryption of everything after the IV |
| `SizeProbe.LengthIdentity` | src/transform/transformer-lcp.ts:545-548 | when the length is IV + block·(⌊P/block⌋ + 1) and the decrypted count is length − 16 − P, that count is in [1, 16] and the probe reports length P |
| `SizeProbe.ProbeOfEncryptedResource` | src/transform/transformer-lcp.ts:448-456 | on any resource encrypted as LCP does it, the ciphertext length follows the identity, and the probe reports the plaintext length and padding 16 − P mod 16 |
| `SizeProbe.SoundtrackMp3Example` | src/transform/transformer-lcp.ts:564-571 | 3265152 plaintext bytes: ciphertext 3265184, probe reports 3265152 with padding 16 |
| `SizeProbe.SharedCultureMp4Example` | src/transform/transformer-lcp.ts:573-580 | 21784780 plaintext bytes: ciphertext 21784800, probe reports 21784780 with padding 4 |
| `SizeProbe.SharedCultureWebmExample` | src/transform/transformer-lcp.ts:582-589 | 8330669 plaintext bytes: ciphertext 8330688, probe reports 8330669 with padding 3 |
| `Transformer.ResolveSizeStep` | src/transform/transformer-lcp.ts:164-188 | on the descriptor: a positive cached length is used with the cached padding; otherwise the probe runs, its result is written to the two size fields, and the source is reset |
| `Transformer.ResolveIvStep` | src/transform/transformer-lcp.ts:227-276 | on the descriptor: a cached IV is used and the first block is skipped; otherwise up to 16 bytes are read and written to `cypherBlockIV` |
| `Transformer.TransformStream` | src/transform/transformer-lcp.ts:89-434 | only the three cache fields of the descriptor can change; the outcome and the new cache are those of `Transform` |
| `Transformer.Reset` | src/transform/transformer-lcp.ts:413-430 | the output's reset reopens the upstream source and reruns the transform with the stored range |
| `BrowserBuild.TransformStream` | src/transform/transformer-lcp.ts:89-107 | the shipped build always rejects with "LCP not supported in a browser" and changes nothing |
| `BrowserBuild.GetDecryptedSizeStream` | src/transform/transformer-lcp.ts:437-442 | the shipped probe always rejects and reads nothing |
| `TransformProperties.WarmCacheSkipsProbe` | src/transform/transformer-lcp.ts:165-167 | with a positive cached length, no probe runs and no reset happens: the transform never fails with "crypto err" or a reset error, and the cached length and padding stay |
| `TransformProperties.ColdCacheProbes` | src/transform/transformer-lcp.ts:168-188 | otherwise, a probe failure is the transform's, with the cache untouched; the probe's length and padding are written even when the reset then fails |
| `TransformProperties.IvIsCachedOnce` | src/transform/transformer-lcp.ts:228-276 | a cached IV is never replaced; a successful transform without one has cached the first 16 bytes of the source |
| `TransformProperties.RangeDefaults` | src/transform/transformer-lcp.ts:208-217 | begin < 0 becomes 0; end < 0 becomes OriginalLength − 1 when that is declared, else plaintext size − 1 |
| `TransformProperties.DeclaredLengthIgnoresRange` | src/transform/transformer-lcp.ts:403-411 | the declared length is OriginalLength when declared, else the plaintext size, and is the same with or without a partial request |
| `TransformProperties.TrimLimitsToPlainTextSize` | src/transform/transformer-lcp.ts:290-295 | the bytes served are the CBC decryption, under the 16-byte IV now cached, of everything after the first block; with non-zero cached padding they are cut to the plaintext size, with zero padding every decrypted byte passes, padding included |
| `TransformProperties.PartialIsRangeOfWhole` | src/transform/transformer-lcp.ts:406-411 | a partial request yields exactly bytes [begin, end] of what the full request yields, with the same length, the same failures and the same cache |
| `TransformProperties.OriginalLengthOnlyDeclares` | src/transform/transformer-lcp.ts:196-204 | whether or not a declared OriginalLength matches the computed size, it never changes the cache or the bytes served (apart from a range's default end) |
| `TransformProperties.TransformKeepsCacheCoherent` | src/transform/transformer-lcp.ts:179-181 | a fresh descriptor is coherent with its resource, and every transform keeps the cached length, padding and IV coherent with what the probe and the first block give |
| `TransformProperties.TransformDecryptsResource` | src/transform/transformer-lcp.ts:219-351 | on an LCP-encrypted resource with a coherent cache, the output is the plaintext (inflated when deflated), cut to the defaulted range on a partial request, with the declared length; the cache ends up holding the size, the padding and the IV |
| `TransformProperties.RangeOfPlaintext` | src/transform/transformer-lcp.ts:406-409 | range law: for 0 ≤ begin ≤ end < \|P\|, an uncompressed resource yields exactly bytes P[begin..end] |
| `TransformProperties.DeflatedResourceInflates` | src/transform/transformer-lcp.ts:346-351 | on a deflated resource whose OriginalLength matches the inflated bytes, a request with open bounds serves exactly those bytes, with that length |
| `TransformProperties.ResetReproduces` | src/transform/transformer-lcp.ts:413-430 | on a source that can be reopened, reset of a successful output gives the identical output and leaves the cache as it was |

## Left out

- The AES-256 block primitive (`crypto.createDecipheriv`) is a foreign library. It is a function parameter, and the CBC chaining on top of it is modelled. A content key that the primitive refuses is not modelled.
- Raw inflate (`zlib.createInflateRaw`) is a foreign library. It is a function parameter that may fail.
- The native-plugin path (`lcp.isNativeNodePlugin()` and `lcp.decrypt`) is a call into a native module. The model always takes the software path.
- Node stream plumbing (`readable`/`end`/`error` handlers, `pipe`, `resume`, the `readStream` helper) is I/O sequencing. A stream is its whole byte content; its declared length is its byte count; reading it never fails. Reopening it either succeeds or fails with an I/O error.
- Mid-stream failures are modelled as a rejected result. These are a partial last cipher block at `final()` (lines 282-286) and an inflate failure. The source resolves its promise before they occur, and because `pipe()` does not forward errors, such a failure shows on the returned stream only when the failing stage is the last one. Behind a trim (line 292), inflate (line 349) or range (line 407) stage, the output stalls or ends instead.
- The two browser stubs reject with slightly different messages; the probe's (line 442) ends with a period. Both are the one `NotSupportedInBrowser` error.
- `readStream` on a source of fewer than 16 bytes is modelled by Node's documented `read(n)` behaviour at end of stream: no data means a read failure, and a short IV is cached and then refused by the decipher.
- `RangeStream` is not part of this model; its effect is modelled as a clamped inclusive slice, and its total-length argument plays no part.
- The `Encrypted` class of the shared models package is not part of this model. A new descriptor starts with length −1, padding −1 and no IV.
- `supports` with a missing descriptor is not modelled, because the parameter is typed as always present.
- `debug` logging, including the OriginalLength mismatch diagnostic, has no behavioural effect.
- `src/lsd/lcpl-update.ts` and `src/lsd/return.ts` are left out. They are HTTP clients whose decisions depend on foreign libraries: date parsing, URI templates, and the request library.
- Concurrent first requests that write the cache twice are left out, because the model is sequential.
