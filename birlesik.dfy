/** The combined desktop program: file-to-file encryption and decryption, and
    the two save handlers that check the form before calling them. */
module Birlesik {
  import opened Wrappers
  import opened Pixels
  import opened Permutation
  import opened Cipher

  /** Encrypts the image read from the input file. `input` is the file's
      contents, None when it cannot be read; the result is what is written to
      the output file, None where the program returns False. */
  method EncryptImage(input: Option<Bytes>, key: string, codec: Codec, rng: Rng) returns (written: Option<Bytes>)
    ensures input.Some? && codec.decode(input.value).None? ==> written == None
    ensures written == FileEncrypted(input, key, codec, rng)
  {
    if input.None? {
      return None;
    }
    var image := codec.decode(input.value);
    if image.None? {
      return None;
    }
    var encrypted := EncryptDecoded(image.value, key, rng);
    written := codec.encode(encrypted);
  }

  /** Decrypts the image read from the input file, in the same conventions. */
  method DecryptImage(input: Option<Bytes>, key: string, codec: Codec, rng: Rng) returns (written: Option<Bytes>)
    ensures input.Some? && codec.decode(input.value).None? ==> written == None
    ensures written == FileDecrypted(input, key, codec, rng)
  {
    if input.None? {
      return None;
    }
    var image := codec.decode(input.value);
    if image.None? {
      return None;
    }
    var decrypted := DecryptDecoded(image.value, key, rng);
    written := codec.encode(decrypted);
  }

  /** The placeholder an input file field shows before a file is picked. */
  const NoFileChosen: string := "Henüz dosya seçilmedi"

  /** The placeholder an output file field shows before a place is picked. */
  const NoPlaceChosen: string := "Henüz konum seçilmedi"

  /** The message a save handler ends with. */
  datatype Notice =
    | ChooseInput          // no input file picked
    | ChooseOutput         // no output place picked
    | EnterKey             // the key field is empty
    | Saved(bytes: Bytes)  // the program returned True, having written these bytes
    | Failed               // the program returned False

  /** A picked path: the field is neither empty nor still its placeholder. */
  predicate Picked(field: string, placeholder: string) {
    field != "" && field != placeholder
  }

  /** The encryption tab's save button: checks the input field, the output
      field and the key field in that order, and only then encrypts. `input`
      is the contents of the file the input field names. */
  method SaveEncryptedImage(inputField: string, outputField: string, keyField: string,
                            input: Option<Bytes>, codec: Codec, rng: Rng) returns (n: Notice)
    ensures !Picked(inputField, NoFileChosen) ==> n == ChooseInput
    ensures Picked(inputField, NoFileChosen) && !Picked(outputField, NoPlaceChosen) ==> n == ChooseOutput
    ensures Picked(inputField, NoFileChosen) && Picked(outputField, NoPlaceChosen) && keyField == [] ==> n == EnterKey
    ensures (n.Saved? || n.Failed?) <==>
              Picked(inputField, NoFileChosen) && Picked(outputField, NoPlaceChosen) && keyField != []
    ensures n.Saved? ==> FileEncrypted(input, keyField, codec, rng) == Some(n.bytes)
    ensures n.Failed? ==> FileEncrypted(input, keyField, codec, rng) == None
  {
    if !Picked(inputField, NoFileChosen) {
      return ChooseInput;
    }
    if !Picked(outputField, NoPlaceChosen) {
      return ChooseOutput;
    }
    if keyField == [] {
      return EnterKey;
    }
    var written := EncryptImage(input, keyField, codec, rng);
    if written.Some? {
      n := Saved(written.value);
    } else {
      n := Failed;
    }
  }

  /** The decryption tab's save button, checking the form the same way. */
  method SaveDecryptedImage(inputField: string, outputField: string, keyField: string,
                            input: Option<Bytes>, codec: Codec, rng: Rng) returns (n: Notice)
    ensures !Picked(inputField, NoFileChosen) ==> n == ChooseInput
    ensures Picked(inputField, NoFileChosen) && !Picked(outputField, NoPlaceChosen) ==> n == ChooseOutput
    ensures Picked(inputField, NoFileChosen) && Picked(outputField, NoPlaceChosen) && keyField == [] ==> n == EnterKey
    ensures (n.Saved? || n.Failed?) <==>
              Picked(inputField, NoFileChosen) && Picked(outputField, NoPlaceChosen) && keyField != []
    ensures n.Saved? ==> FileDecrypted(input, keyField, codec, rng) == Some(n.bytes)
    ensures n.Failed? ==> FileDecrypted(input, keyField, codec, rng) == None
  {
    if !Picked(inputField, NoFileChosen) {
      return ChooseInput;
    }
    if !Picked(outputField, NoPlaceChosen) {
      return ChooseOutput;
    }
    if keyField == [] {
      return EnterKey;
    }
    var written := DecryptImage(input, keyField, codec, rng);
    if written.Some? {
      n := Saved(written.value);
    } else {
      n := Failed;
    }
  }
}
