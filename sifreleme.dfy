/** The stand-alone encryption program: file-to-file encryption only. */
module Sifreleme {
  import opened Wrappers
  import opened Pixels
  import opened Permutation
  import opened Cipher

  /** Encrypts the image read from the input file (`input`, None when it cannot
      be read); the result is what is written to the output file, None where
      the program returns False. */
  method EncryptImage(input: Option<Bytes>, key: string, codec: Codec, rng: Rng) returns (written: Option<Bytes>)
    ensures input.Some? && codec.decode(input.value).None? ==> written == None
    ensures written == FileEncrypted(input, key, codec, rng)
  {
    if input.None? {
      return None;
    }
    var image := codec.decode(input.value);
    if image.None? {
      return None;
    }
    var encrypted := EncryptDecoded(image.value, key, rng);
    written := codec.encode(encrypted);
  }
}
