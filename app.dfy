/** The web service's two handlers of image bytes: decode, transform, re-encode
    as PNG, raising an error when decoding or encoding fails. */
module App {
  import opened Wrappers
  import opened Pixels
  import opened Permutation
  import opened Cipher

  /** What the handlers raise: the bytes are not an image, or the encoder failed. */
  datatype Error = DecodeFailed | EncodeFailed

  /** The encoder's answer, an error when it fails. */
  function Encoded(codec: Codec, img: Image): (r: Result<Bytes, Error>) {
    match codec.encode(img)
    case None => Err(EncodeFailed)
    case Some(bytes) => Ok(bytes)
  }

  /** The result of encrypting image bytes with a key. */
  function EncryptedData(data: Bytes, key: string, codec: Codec, rng: Rng): (r: Result<Bytes, Error>) {
    match codec.decode(data)
    case None => Err(DecodeFailed)
    case Some(img) => Encoded(codec, EncryptImage(img, key, rng))
  }

  /** The result of decrypting image bytes with a key. */
  function DecryptedData(data: Bytes, key: string, codec: Codec, rng: Rng): (r: Result<Bytes, Error>) {
    match codec.decode(data)
    case None => Err(DecodeFailed)
    case Some(img) => Encoded(codec, DecryptImage(img, key, rng))
  }

  /** Encrypts image bytes: an error before any seed or permutation is made
      when the bytes do not decode, otherwise the encoding of the decoded image
      with its pixels gathered through the key's permutation. */
  method EncryptImageData(data: Bytes, key: string, codec: Codec, rng: Rng) returns (r: Result<Bytes, Error>)
    ensures codec.decode(data).None? ==> r == Err(DecodeFailed)
    ensures r == EncryptedData(data, key, codec, rng)
  {
    var image := codec.decode(data);
    if image.None? {
      return Err(DecodeFailed);
    }
    var encrypted := EncryptDecoded(image.value, key, rng);
    var result := codec.encode(encrypted);
    if result.Some? {
      r := Ok(result.value);
    } else {
      r := Err(EncodeFailed);
    }
  }

  /** Decrypts image bytes: an error before any seed or permutation is made
      when the bytes do not decode, otherwise the encoding of the decoded image
      with its pixels scattered back through the key's permutation. */
  method DecryptImageData(data: Bytes, key: string, codec: Codec, rng: Rng) returns (r: Result<Bytes, Error>)
    ensures codec.decode(data).None? ==> r == Err(DecodeFailed)
    ensures r == DecryptedData(data, key, codec, rng)
  {
    var image := codec.decode(data);
    if image.None? {
      return Err(DecodeFailed);
    }
    var decrypted := DecryptDecoded(image.value, key, rng);
    var result := codec.encode(decrypted);
    if result.Some? {
      r := Ok(result.value);
    } else {
      r := Err(EncodeFailed);
    }
  }

  /** With a lossless encoder, decrypting what encryption returned, with the
      same key, gives exactly what encoding the original decoded image gives. */
  lemma DataRoundTrip(data: Bytes, key: string, codec: Codec, rng: Rng)
    requires Lossless(codec)
    requires EncryptedData(data, key, codec, rng).Ok?
    ensures codec.decode(data).Some?
    ensures DecryptedData(EncryptedData(data, key, codec, rng).value, key, codec, rng)
            == Encoded(codec, codec.decode(data).value)
  {
    var img := codec.decode(data).value;
    var encrypted := EncryptImage(img, key, rng);
    assert codec.decode(codec.encode(encrypted).value) == Some(encrypted);
    RoundTrip(img, key, rng);
  }
}
