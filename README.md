# Key-derived pixel-permutation image cipher

This project models the image "encryption" of the goruntu-sifreleme programs.
The scheme works as follows:

- The key is reduced to a seed: the sum of the code points of its characters.
- A generator seeded with that number shuffles the identity index list
  `0 .. height*width - 1` in place, Fisher–Yates style.
- Encryption gathers the flat pixel buffer through the shuffled list into a
  zero-filled buffer: `out[i] = flat[perm[i]]`.
- Decryption rebuilds the same list from the same key and scatters:
  `out[perm[i]] = flat[i]`.
- The result is reshaped to the input's height, width and channel count and
  re-encoded as PNG.

The same algorithm is written out four times:

- `app.py`: the web service's handlers, which raise on failure.
- `birlesik_uygulama.py`: the combined desktop program, which returns `False`
  on failure and whose save buttons check the form first.
- `sifreleme.py`: the stand-alone encryptor.
- `sifre_cozme.py`: the stand-alone decryptor.

Modules:

- `Wrappers`: Option and Result.
- `Pixels`: bytes, three-channel pixels, the zero pixel `Black`, decoded images
  (`Image`, a raster whose flat buffer has `height * width` pixels of 3 channels),
  and the image codec.
- `Seed`: the code-point sum and its lemmas.
- `Permutation`: the generator, the identity list, the Fisher–Yates shuffle as a
  function (`ShuffleFrom`) and as an in-place method on an `array<int>`
  (`Shuffle`), and the proof that the result is a permutation.
- `Transform`: the gather and scatter loops over fresh `array<Pixel>` buffers,
  their specification functions, and their inverse laws.
- `Cipher`: the pipeline all four programs share, at buffer and image level,
  plus the round-trip lemmas.
- `App`, `Birlesik`, `Sifreleme`, `SifreCozme`: the entry points of the four
  source files, each with its own error convention.

Boundaries that are parameters rather than code:

- **The generator.** `Permutation.Rng` is any function `(seed, n, i) -> j` with
  `j <= i`. It gives the partner of position `i` in a list of length `n`, as
  `random.shuffle` does after `random.seed(seed)` when it draws a number below
  `i + 1`. The shuffle visits `i = n-1` down to `1`, as CPython's does. The
  pick may depend on `n`, because CPython's draws at a position depend on the
  draws made before it. Every encryption and decryption lemma holds for every
  such generator, provided both sides use the same one.
- **The codec.** `Pixels.Codec` holds `decode` (bytes to an optional image) and
  `encode` (image to optional bytes), standing for `cv2.imdecode` in colour mode
  and `cv2.imencode('.png', ...)`. `Lossless(codec)` is the hypothesis that PNG
  encoding loses nothing. The byte-level round trips assume it.
- **Files.** A file the desktop programs read is passed in as `Option<Bytes>`
  (`None` when it cannot be read). What they write is returned as
  `Option<Bytes>` (`None` where the program returns `False`).
- **GUI text fields.** A field's value is a string. A missing value (`None` in
  the source) is the empty string.

Behaviour of the source the model keeps:

- No function checks that the index list's length equals the pixel count.
  `Generate` is proved to return a permutation of length `n`, so none is needed.
- The cipher functions themselves accept an empty key, which has seed 0 and
  encrypts like any other key. Every caller in the repository rejects an empty
  key before calling them:
  - The Flask endpoints refuse a missing or blank password (app.py:106-107,
    115-116, 149-150, 158-159). Their test is `not password.strip()`, so they
    also refuse a key made only of whitespace, which the combined desktop
    program accepts.
  - The stand-alone programs do not go on without a key (sifreleme.py:92,
    sifre_cozme.py:93).
  - The combined program's save buttons refuse an empty key field.

  Only the save buttons' checks are modelled (`Birlesik.SaveEncryptedImage`,
  `Birlesik.SaveDecryptedImage`). The Flask and stand-alone GUI checks are
  glue and are left out.
- The source seeds the process-wide generator and then shuffles. The model
  passes the generator as a value, so one call's seed and shuffle always run
  together. See "## Left out" for the concurrent case.

Determinism needs no lemma. The permutation, the transforms and the entry
points are functions of their inputs, or methods proved equal to such
functions.

## Model

The methods' contracts are stated through specification functions:

- `Shuffled` and `ShuffleFrom` for the shuffle;
- `Gathered` for the gather, and `Scattered` and `ScatterPrefix` for the scatter;
- `EncryptedData` and `DecryptedData` for the web handlers;
- `FileEncrypted` and `FileDecrypted` for the desktop programs.

"The key's permutation" in the rows below is `Cipher.KeyPermutation`. The
decryptor rebuilds the encryptor's permutation because both directions call
that one function.

| member | source | states |
|---|---|---|
| Seed.CodeSum | app.py:35-36 | the seed is a code-point sum: no character's code point exceeds it, and the empty key gives 0 |
| Seed.CodeSumAppend | birlesik_uygulama.py:31-32 | the sum over a concatenated key is the sum of the two parts' sums |
| Seed.CodeSumIgnoresOrder | sifreleme.py:30-31 | two keys with the same characters, each as often, in any order, have the same seed |
| Seed.SwappedPairCollides | sifre_cozme.py:30-31 | "ab" and "ba" both have seed 195 |
| Pixels.Flatten | app.py:42 | the flat buffer holds the image's `height * width` pixels in row-major order, in a fresh array |
| Permutation.IdentityIndices | app.py:39 | a fresh array holding `0, 1, ..., n-1` |
| Permutation.Shuffle | app.py:40 | the array afterwards equals the Fisher–Yates shuffle function of its old contents: positions `n-1` down to `1` are each swapped with the generator's pick in `[0, i]` |
| Permutation.SwapPreservesPermutation | app.py:40 | swapping two entries of a permutation of `[0, n)` leaves a permutation of `[0, n)` |
| Permutation.ShufflePreservesPermutation | app.py:39-40 | the shuffle of a permutation of `[0, n)` is a permutation of `[0, n)`, for any number of remaining steps |
| Permutation.IdentityIsPermutation | app.py:39 | the identity list of length n lists every integer of `[0, n)` exactly once |
| Permutation.Generate | birlesik_uygulama.py:35-36 | the shuffled identity list has length n, entries in `[0, n)`, no duplicates, and every value of `[0, n)` |
| Permutation.SinglePixel | sifreleme.py:34-35 | for one pixel the permutation is `[0]`, whatever the seed and generator |
| Transform.Gather | app.py:43-46 | a fresh zero-initialised buffer of the input's size whose slot i ends up holding `flat[perm[i]]` for every i |
| Transform.Scatter | app.py:80-84 | a fresh zero-initialised buffer whose contents are the in-order writes `out[perm[i]] := flat[i]` |
| Transform.ScatterPrefixAt | sifre_cozme.py:41-42 | with a permutation, no later write of the scatter lands on slot `perm[i]`, so it keeps `flat[i]` |
| Transform.ScatterPlacesEach | birlesik_uygulama.py:88-89 | after the scatter, `out[perm[i]] == flat[i]` for every i |
| Transform.ScatterFillsSlot | sifre_cozme.py:41-42 | slot `v` of the decrypted buffer holds exactly the input pixel `flat[i]` whose index entry `perm[i]` is `v` |
| Transform.ScatterCoversEverySlot | sifre_cozme.py:38-42 | every slot of the zeroed buffer receives an input pixel, so a zero pixel survives only if the input held one |
| Transform.ScatterUndoesGather | app.py:79-84 | scattering the gathered buffer through the same permutation gives back the original buffer |
| Transform.GatherUndoesScatter | app.py:42-46 | gathering the scattered buffer through the same permutation gives back the original buffer |
| Transform.GatherOfSwap | app.py:45-46 | gathering through a list with two entries exchanged exchanges the same two output slots |
| Transform.GatherShuffleKeepsPixels | birlesik_uygulama.py:41-42 | gathering through a shuffled list yields the same multiset of pixels as gathering through the list before the shuffle |
| Transform.GatherKeepsPixels | sifreleme.py:37-41 | the encrypted buffer holds exactly the input's pixels, each as often |
| Cipher.KeyPermutation | app.py:35-40 | the index list both directions rebuild from the key's code-point sum and the pixel count; a permutation of `[0, n)` |
| Cipher.EncryptImage | app.py:33-48 | same height, width and channels; `out[i] == in[perm[i]]` for the key's permutation; the same pixels, each as often |
| Cipher.DecryptImage | app.py:70-86 | same shape; `out[perm[i]] == in[i]` for the key's permutation; a zero pixel only if the input had one; the same pixels, each as often |
| Cipher.RoundTrip | birlesik_uygulama.py:81-89 | decrypting the encryption of an image with the same key gives back the image exactly |
| Cipher.RoundTripReversed | app.py:72-84 | encrypting the decryption of an image with the same key also gives back the image |
| Cipher.ReorderedKeysAgree | birlesik_uygulama.py:77-78 | keys with the same characters in any order give the same permutation, encryption and decryption |
| Cipher.EncryptFlat | birlesik_uygulama.py:31-42 | seeding, identity list, in-place shuffle and gather loop give the gather through the key's permutation |
| Cipher.DecryptFlat | birlesik_uygulama.py:77-89 | seeding, identity list, in-place shuffle and scatter loop give the scatter through the key's permutation |
| Cipher.EncryptDecoded | sifreleme.py:37-43 | flattening, encrypting the buffer and reshaping give the encrypted image of the same shape |
| Cipher.DecryptDecoded | sifre_cozme.py:37-44 | flattening, decrypting the buffer and reshaping give the decrypted image of the same shape |
| App.EncryptImageData | app.py:23-58 | undecodable bytes give `DecodeFailed` before any seed is made; otherwise the encoder's output for the encrypted image, or `EncodeFailed` |
| App.DecryptImageData | app.py:60-96 | undecodable bytes give `DecodeFailed` before any seed is made; otherwise the encoder's output for the decrypted image, or `EncodeFailed` |
| App.DataRoundTrip | app.py:86-91 | with a lossless encoder, decrypting the bytes encryption returned gives exactly the encoding of the original decoded image |
| Birlesik.EncryptImage | birlesik_uygulama.py:13-57 | an unreadable file or undecodable bytes give False with nothing written; otherwise the encoder's output for the encrypted image is written |
| Birlesik.DecryptImage | birlesik_uygulama.py:59-104 | an unreadable file or undecodable bytes give False with nothing written; otherwise the encoder's output for the decrypted image is written |
| Birlesik.SaveEncryptedImage | birlesik_uygulama.py:222-280 | the input field, output field and key are checked in that order; encryption runs exactly when all three are set, so an empty key never reaches it; the notice reports its outcome |
| Birlesik.SaveDecryptedImage | birlesik_uygulama.py:282-340 | the same checks, in the same order, before decryption runs; the notice reports its outcome |
| Sifreleme.EncryptImage | sifreleme.py:12-56 | an unreadable file or undecodable bytes give False with nothing written; otherwise the encoder's output for the encrypted image is written |
| SifreCozme.DecryptImage | sifre_cozme.py:12-57 | an unreadable file or undecodable bytes give False with nothing written; otherwise the encoder's output for the decrypted image is written |
| SifreCozme.DecryptsEncryptorOutput | sifre_cozme.py:34-42 | with a lossless encoder, decrypting the file the encryptor wrote, with the same key, writes the encoding of the original decoded image |

## Left out

- The Mersenne Twister, `random.seed` and `randbelow` are foreign library code. The generator is the parameter `Rng`, so the model keeps "same seed and size, same permutation" and "the result is a permutation". It does not keep the exact order CPython produces.
- Concurrent requests: app.py:37-40 and 74-77 seed the process-wide generator and then draw from it, and app.py:206-211 runs the server with `threaded=True`. Two requests can interleave their seed and draw calls. An encryption can then use a permutation not derived from its key, and decrypting with that key does not restore the image. The model assumes each call's seed-then-shuffle runs uninterrupted.
- The uniformity of the shuffle is a statistical property of the foreign generator and is not stated.
- Whether decrypting with a different key scrambles the image depends on the generator, so it is not stated for every `Rng`.
- `cv2.imdecode`, `cv2.imencode` and numpy's `reshape` and `zeros_like` are foreign calls. They are the `Codec` parameter, `Pixels.Flatten`, and the zero-filled arrays of `Transform`. The `Image` type fixes three channels, as colour-mode decoding guarantees.
- Writing the output file can fail in the desktop programs, and the programs then return `False`. The model treats the write as always succeeding.
- Printing, the wrapping of exceptions into messages and the locale setup are not modelled. The web handlers' error is returned as a `Result` value.
- The Flask routes, `send_file`, base64 previews, the flet GUI code other than the two save handlers' checks, and `script.js` are I/O and presentation glue, so they are left out.
- Non-ASCII keys: the source sums `ord`, the code point of each character, not the bytes of an encoding. The model sums Dafny `char` values, which are Unicode scalar values. So a key holding an unpaired surrogate, which a Python string can hold, has no counterpart in the model.
