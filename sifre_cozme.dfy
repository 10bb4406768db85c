/** The stand-alone decryption program: file-to-file decryption only, meant for
    the files the stand-alone encryption program writes. */
module SifreCozme {
  import opened Wrappers
  import opened Pixels
  import opened Permutation
  import opened Cipher

  /** Decrypts the image read from the input file (`input`, None when it cannot
      be read); the result is what is written to the output file, None where
      the program returns False. */
  method DecryptImage(input: Option<Bytes>, key: string, codec: Codec, rng: Rng) returns (written: Option<Bytes>)
    ensures input.Some? && codec.decode(input.value).None? ==> written == None
    ensures written == FileDecrypted(input, key, codec, rng)
  {
    if input.None? {
      return None;
    }
    var image := codec.decode(input.value);
    if image.None? {
      return None;
    }
    var decrypted := DecryptDecoded(image.value, key, rng);
    written := codec.encode(decrypted);
  }

  /** With a lossless encoder, decrypting the file the encryption program wrote,
      with the same key, writes what encoding the original decoded image writes. */
  lemma DecryptsEncryptorOutput(data: Bytes, key: string, codec: Codec, rng: Rng)
    requires Lossless(codec)
    requires FileEncrypted(Some(data), key, codec, rng).Some?
    ensures codec.decode(data).Some?
    ensures FileDecrypted(FileEncrypted(Some(data), key, codec, rng), key, codec, rng)
            == codec.encode(codec.decode(data).value)
  {
    var img := codec.decode(data).value;
    var encrypted := EncryptImage(img, key, rng);
    assert codec.decode(codec.encode(encrypted).value) == Some(encrypted);
    RoundTrip(img, key, rng);
  }
}
