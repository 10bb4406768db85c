/** The cipher all four programs share: seed from the key, permutation from the
    seed and the pixel count, then the gather (encryption) or the scatter
    (decryption) into a zero-filled buffer of the same shape. */
module Cipher {
  import opened Wrappers
  import opened Pixels
  import opened Seed
  import opened Permutation
  import opened Transform

  /** The permutation both directions rebuild from the key and the pixel count. */
  function KeyPermutation(key: string, n: nat, rng: Rng): (p: seq<int>)
    ensures IsPermutation(p, n)
  {
    Generate(CodeSum(key), n, rng)
  }

  /** Encryption of a decoded image: same shape, slot i holding the pixel found
      at the key permutation's i-th index, and the same pixels, each as often. */
  function EncryptImage(img: Image, key: string, rng: Rng): (out: Image)
    ensures SameShape(out, img) && |out.pixels| == |img.pixels|
    ensures forall i :: 0 <= i < |img.pixels| ==>
              out.pixels[i] == img.pixels[KeyPermutation(key, |img.pixels|, rng)[i]]
    ensures multiset(out.pixels) == multiset(img.pixels)
  {
    GatherKeepsPixels(img.pixels, CodeSum(key), rng);
    Raster(img.height, img.width, img.channels,
           Gathered(img.pixels, KeyPermutation(key, |img.pixels|, rng)))
  }

  /** Decryption of a decoded image: same shape, the pixel at slot i moved to
      the slot named by the key permutation's i-th index; every slot is written,
      so a zero pixel appears only if the input held one, and the pixels are
      the input's, each as often. */
  function DecryptImage(img: Image, key: string, rng: Rng): (out: Image)
    ensures SameShape(out, img) && |out.pixels| == |img.pixels|
    ensures forall i :: 0 <= i < |img.pixels| ==>
              out.pixels[KeyPermutation(key, |img.pixels|, rng)[i]] == img.pixels[i]
    ensures Black in out.pixels ==> Black in img.pixels
    ensures multiset(out.pixels) == multiset(img.pixels)
  {
    var p := KeyPermutation(key, |img.pixels|, rng);
    ScatterPlacesEach(img.pixels, p);
    ScatterCoversEverySlot(img.pixels, p);
    GatherUndoesScatter(img.pixels, p);
    GatherKeepsPixels(Scattered(img.pixels, p), CodeSum(key), rng);
    Raster(img.height, img.width, img.channels, Scattered(img.pixels, p))
  }

  /** Decrypting with the key that encrypted restores the image exactly: both
      sides rebuild the same permutation, and the scatter inverts the gather. */
  lemma RoundTrip(img: Image, key: string, rng: Rng)
    ensures DecryptImage(EncryptImage(img, key, rng), key, rng) == img
  {
    ScatterUndoesGather(img.pixels, KeyPermutation(key, |img.pixels|, rng));
  }

  /** The other order holds too: encrypting a decrypted image restores it. */
  lemma RoundTripReversed(img: Image, key: string, rng: Rng)
    ensures EncryptImage(DecryptImage(img, key, rng), key, rng) == img
  {
  }

  /** Keys holding the same characters in any order are interchangeable: they
      give the same seed, the same permutation and the same results. */
  lemma ReorderedKeysAgree(k1: string, k2: string, img: Image, rng: Rng)
    requires multiset(k1) == multiset(k2)
    ensures KeyPermutation(k1, |img.pixels|, rng) == KeyPermutation(k2, |img.pixels|, rng)
    ensures EncryptImage(img, k1, rng) == EncryptImage(img, k2, rng)
    ensures DecryptImage(img, k1, rng) == DecryptImage(img, k2, rng)
  {
    CodeSumIgnoresOrder(k1, k2);
  }

  /** Seed, identity index list, in-place shuffle, then the gather loop. */
  method EncryptFlat(flat: array<Pixel>, key: string, rng: Rng) returns (out: array<Pixel>)
    ensures fresh(out)
    ensures out[..] == Gathered(flat[..], KeyPermutation(key, flat.Length, rng))
  {
    var seed := CodeSum(key);
    var perm := IdentityIndices(flat.Length);
    Shuffle(perm, seed, rng);
    assert perm[..] == KeyPermutation(key, flat.Length, rng);
    out := Gather(flat, perm);
  }

  /** Seed, identity index list, in-place shuffle, then the scatter loop. */
  method DecryptFlat(flat: array<Pixel>, key: string, rng: Rng) returns (out: array<Pixel>)
    ensures fresh(out)
    ensures out[..] == Scattered(flat[..], KeyPermutation(key, flat.Length, rng))
  {
    var seed := CodeSum(key);
    var perm := IdentityIndices(flat.Length);
    Shuffle(perm, seed, rng);
    assert perm[..] == KeyPermutation(key, flat.Length, rng);
    out := Scatter(flat, perm);
  }

  /** Flattens a decoded image, encrypts its buffer and gives it the same shape again. */
  method EncryptDecoded(img: Image, key: string, rng: Rng) returns (out: Image)
    ensures out == EncryptImage(img, key, rng)
  {
    var flat := Flatten(img);
    var buffer := EncryptFlat(flat, key, rng);
    out := Raster(img.height, img.width, img.channels, buffer[..]);
  }

  /** Flattens a decoded image, decrypts its buffer and gives it the same shape again. */
  method DecryptDecoded(img: Image, key: string, rng: Rng) returns (out: Image)
    ensures out == DecryptImage(img, key, rng)
  {
    var flat := Flatten(img);
    var buffer := DecryptFlat(flat, key, rng);
    out := Raster(img.height, img.width, img.channels, buffer[..]);
  }

  /** What the desktop programs write to the output file, None when they
      return False instead: the input file could not be read, its bytes do not
      decode, or the encoder fails. */
  function FileEncrypted(input: Option<Bytes>, key: string, codec: Codec, rng: Rng): (written: Option<Bytes>) {
    match input
    case None => None
    case Some(data) =>
      match codec.decode(data)
      case None => None
      case Some(img) => codec.encode(EncryptImage(img, key, rng))
  }

  /** The decrypting counterpart of FileEncrypted. */
  function FileDecrypted(input: Option<Bytes>, key: string, codec: Codec, rng: Rng): (written: Option<Bytes>) {
    match input
    case None => None
    case Some(data) =>
      match codec.decode(data)
      case None => None
      case Some(img) => codec.encode(DecryptImage(img, key, rng))
  }
}
