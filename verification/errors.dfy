/** The error taxonomy of the library: `DeviceError` and `StreamError` with their underlying causes. */
module Errors {

  /** A `std::io::Error` from the capture device, identified by its OS error code. */
  datatype IoError = IoError(code: int)

  /** An `openh264::Error` from the H.264 decoder or encoder. */
  datatype CodecError = CodecError(code: int)

  /** A `jpeg_decoder::Error` from decoding one MJPEG frame. */
  datatype JpegError = JpegError(code: int)

  /** Failures while resolving a device path to an open device. */
  datatype DeviceError =
    | CouldNotOpen(cause: IoError)
    | DeviceNotFound

  /** Failures while configuring or reading from a capture stream. */
  datatype StreamError =
    | NoSupportedConfiguration
    | SettingsFailure(cause: IoError)
    | BufferStreamFailure(cause: IoError)
    | H264EncoderError(codec: CodecError)
    | JPEGDecoderError(jpeg: JpegError)
    | StreamFailure(cause: IoError)
}
