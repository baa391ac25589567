/** The boundary to the image codecs the system hands its pixel work to.
    Nothing here is interpreted: an image is opaque data, and the codecs are
    functions supplied from outside. */
module Media {
  import opened Wrappers

  newtype byte = b: int | 0 <= b < 256

  /** A decoded raster image. Only its shape is named; its samples are
      opaque. */
  datatype Image = Image(width: int, height: int, channels: int, depth: int, pixels: seq<int>)

  /** OpenCV's in-memory codec: `cvDecodeImage` (bytes and a colour request
      to an image, or null) and `cvEncodeImage` (an image to the bytes of the
      format a file name's extension selects). */
  datatype ImageCodec = ImageCodec(
    decode: (seq<byte>, int) -> Option<Image>,
    encode: (string, Image) -> seq<byte>)
}
