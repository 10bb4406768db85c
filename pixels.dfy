/** Pixels, decoded images and the image codec the cipher is wrapped in. */
module Pixels {
  import opened Wrappers

  /** One unsigned 8-bit value: a colour channel, or a byte of an encoded file. */
  type Byte = x: int | 0 <= x < 256

  type Bytes = seq<Byte>

  /** One pixel of an image decoded in colour mode: three 8-bit channels. */
  datatype Pixel = Pixel(c0: Byte, c1: Byte, c2: Byte)

  /** The pixel a freshly zero-filled buffer holds in every slot. */
  const Black: Pixel := Pixel(0, 0, 0)

  /** A raster as the decoder hands it over: its shape and its pixels flattened
      row by row, so that row r, column c is pixels[r * width + c]. */
  datatype Raster = Raster(height: nat, width: nat, channels: nat, pixels: seq<Pixel>)

  /** A decoded colour image: height * width pixels of three channels each. */
  type Image = r: Raster | |r.pixels| == r.height * r.width && r.channels == 3
    witness Raster(0, 0, 3, [])

  /** True when two images have the same height, width and channel count. */
  predicate SameShape(a: Image, b: Image) {
    a.height == b.height && a.width == b.width && a.channels == b.channels
  }

  /** The image codec: decoding fails on bytes that are not an image, and
      encoding may fail too. Both are foreign calls, so they are parameters. */
  datatype Codec = Codec(decode: Bytes -> Option<Image>, encode: Image -> Option<Bytes>)

  /** The encoder is lossless: whatever it produces decodes to the same image. */
  ghost predicate Lossless(codec: Codec) {
    forall img: Image :: codec.encode(img).Some? ==> codec.decode(codec.encode(img).value) == Some(img)
  }

  /** Copies the pixels of a decoded image into a flat buffer of its own. */
  method Flatten(img: Image) returns (flat: array<Pixel>)
    ensures fresh(flat)
    ensures flat.Length == img.height * img.width
    ensures flat[..] == img.pixels
  {
    flat := new Pixel[|img.pixels|](i requires 0 <= i < |img.pixels| => img.pixels[i]);
  }
}
