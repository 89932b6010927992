/**
 The codec collaborators (the openh264 decoder and encoder, the JPEG decoder, the
 RGB-to-YUV conversion) and the `YUVFrame` that can be re-encoded by any encoder.
 */
module Codecs {
  import opened Wrappers
  import opened Errors

  type Bytes = seq<bv8>

  /** An H.264 decoder instance. */
  datatype Decoder = Decoder(instance: nat)

  /** The size an H.264 encoder is configured for. */
  datatype EncoderConfig = EncoderConfig(width: nat, height: nat)

  /** An H.264 encoder instance with the configuration it was built from. */
  datatype Encoder = Encoder(config: EncoderConfig, instance: nat)

  /** A frame decoded from the native H.264 stream. */
  datatype DecodedYuv = DecodedYuv(planes: Bytes)

  /** A YUV frame converted from RGB pixels. */
  datatype YuvBuffer = YuvBuffer(planes: Bytes)

  /** Pixels decoded from one MJPEG frame. */
  datatype Rgb = Rgb(pixels: Bytes)

  /** A raw frame: decoded from native H.264, or converted from a decoded JPEG. */
  datatype YuvFrame =
    | Decoded(decoded: DecodedYuv)
    | Buffer(buffer: YuvBuffer)

  /**
   The codec libraries as uninterpreted operations. `newDecoder` and `newEncoder`
   yield instance numbers; `decodeH264` may legitimately yield no frame.
   */
  datatype CodecLib = CodecLib(
    newDecoder: Result<nat, CodecError>,
    newEncoder: EncoderConfig -> Result<nat, CodecError>,
    decodeH264: (Decoder, Bytes) -> Result<Option<DecodedYuv>, CodecError>,
    decodeJpeg: Bytes -> Result<Rgb, JpegError>,
    withRgb: (nat, nat, Rgb) -> YuvBuffer,
    encode: (Encoder, YuvFrame) -> Result<Bytes, CodecError>)

  /** One invocation of a codec operation. */
  datatype CodecCall =
    | DecodeH264(decoder: Decoder, input: Bytes)
    | DecodeJpeg(jpeg: Bytes)
    | ConvertRgb(width: nat, height: nat, rgb: Rgb)
    | Encode(encoder: Encoder, frame: YuvFrame)

  /** An encoding outcome together with the codec calls made to reach it. */
  datatype Encoded = Encoded(result: Result<Bytes, StreamError>, calls: seq<CodecCall>)

  /**
   `YUVFrame::encode_using`: either variant goes to the caller's encoder unchanged,
   in exactly one call; its bitstream is returned, or its error as `H264EncoderError`.
   */
  function EncodeUsing(frame: YuvFrame, encoder: Encoder, lib: CodecLib): (r: Encoded)
    ensures r.calls == [Encode(encoder, frame)]
    ensures r.result.Success? <==> lib.encode(encoder, frame).Success?
    ensures r.result.Success? ==> r.result.value == lib.encode(encoder, frame).value
    ensures r.result.Failure? ==> r.result.error == H264EncoderError(lib.encode(encoder, frame).error)
  {
    // Both variants are forwarded as they are; the source matches only to dispatch statically.
    match lib.encode(encoder, frame)
    case Success(bits) => Encoded(Success(bits), [Encode(encoder, frame)])
    case Failure(e) => Encoded(Failure(H264EncoderError(e)), [Encode(encoder, frame)])
  }
}
