/**
 The per-frame pipeline (`next`): one buffer is read from the capture stream and,
 by the session's mode, either passed through as H.264 (optionally decoded to YUV)
 or transcoded from MJPEG to H.264.
 */
module Pipeline {
  import opened Wrappers
  import opened Errors
  import opened Codecs
  import opened Session

  /** What one call hands back: the H.264 bytes and, optionally, a YUV frame. */
  datatype Captured = Captured(bitstream: Bytes, frame: Option<YuvFrame>)

  /** A pipeline outcome together with the codec calls made, in order. */
  datatype Step = Step(result: Result<Captured, StreamError>, calls: seq<CodecCall>)

  /** The decoder's optional frame, wrapped as a `Decoded` YUV frame. */
  function WrapDecoded(o: Option<DecodedYuv>): Option<YuvFrame>
  {
    match o
    case None => None
    case Some(yuv) => Some(Decoded(yuv))
  }

  /**
   `next`. `read` is the outcome of the blocking read from the session's stream.
   A failed read is a `StreamFailure` and no codec is called. In `H264Native` mode
   the bytes returned are the captured buffer and only the H.264 decoder may be
   called, and only when a frame is asked for. In `MjpegNative` mode the JPEG
   decoder always runs first; on its success the pixels are converted at the
   session's size and encoded, and the frame handed back is the one encoded.
   */
  function Next(s: WebcamStream, lib: CodecLib, read: Result<Bytes, IoError>, getYuvFrame: bool): (r: Step)
    ensures read.Failure? ==> r == Step(Failure(StreamFailure(read.error)), [])
    ensures r.result.Success? && !getYuvFrame ==> r.result.value.frame.None?
    ensures read.Success? && s.mode.H264Native? ==>
      var decode := lib.decodeH264(s.mode.decoder, read.value);
      && r.calls == (if getYuvFrame then [DecodeH264(s.mode.decoder, read.value)] else [])
      && (r.result.Success? ==> r.result.value.bitstream == read.value)
      && (!getYuvFrame ==> r.result.Success?)
      && (getYuvFrame ==> (r.result.Success? <==> decode.Success?))
      && (r.result.Failure? ==> getYuvFrame && r.result.error == H264EncoderError(decode.error))
      && (r.result.Success? && getYuvFrame ==>
            (r.result.value.frame.Some? <==> decode.value.Some?)
            && (decode.value.Some? ==> r.result.value.frame == Some(Decoded(decode.value.value))))
    ensures read.Success? && s.mode.MjpegNative? ==>
      && 1 <= |r.calls| && r.calls[0] == DecodeJpeg(read.value)
      && (lib.decodeJpeg(read.value).Failure? ==>
            r == Step(Failure(JPEGDecoderError(lib.decodeJpeg(read.value).error)), [DecodeJpeg(read.value)]))
    ensures read.Success? && s.mode.MjpegNative? && lib.decodeJpeg(read.value).Success? ==>
      var rgb := lib.decodeJpeg(read.value).value;
      var yuv := Buffer(lib.withRgb(s.width, s.height, rgb));
      var encoded := lib.encode(s.mode.encoder, yuv);
      && r.calls == [DecodeJpeg(read.value), ConvertRgb(s.width, s.height, rgb), Encode(s.mode.encoder, yuv)]
      && (r.result.Success? <==> encoded.Success?)
      && (r.result.Failure? ==> r.result.error == H264EncoderError(encoded.error))
      && (r.result.Success? ==>
            && r.result.value.bitstream == encoded.value
            && r.result.value.frame == (if getYuvFrame then Some(yuv) else None))
  {
    match read
    case Failure(e) => Step(Failure(StreamFailure(e)), [])
    case Success(buf) =>
      match s.mode
      case H264Native(decoder) =>
        if getYuvFrame then
          match lib.decodeH264(decoder, buf)
          case Failure(e) => Step(Failure(H264EncoderError(e)), [DecodeH264(decoder, buf)])
          case Success(decoded) =>
            Step(Success(Captured(buf, WrapDecoded(decoded))), [DecodeH264(decoder, buf)])
        else
          Step(Success(Captured(buf, None)), [])
      case MjpegNative(encoder) =>
        match lib.decodeJpeg(buf)
        case Failure(e) => Step(Failure(JPEGDecoderError(e)), [DecodeJpeg(buf)])
        case Success(rgb) =>
          var yuv := lib.withRgb(s.width, s.height, rgb);
          var calls := [DecodeJpeg(buf), ConvertRgb(s.width, s.height, rgb), Encode(encoder, Buffer(yuv))];
          match lib.encode(encoder, Buffer(yuv))
          case Failure(e) => Step(Failure(H264EncoderError(e)), calls)
          case Success(bits) =>
            Step(Success(Captured(bits, if getYuvFrame then Some(Buffer(yuv)) else None)), calls)
  }

  /** The number of calls in `calls` that decode a JPEG. */
  function JpegDecodes(calls: seq<CodecCall>): nat
  {
    if |calls| == 0 then 0 else (if calls[0].DecodeJpeg? then 1 else 0) + JpegDecodes(calls[1..])
  }

  /** The number of calls in `calls` that encode H.264. */
  function Encodes(calls: seq<CodecCall>): nat
  {
    if |calls| == 0 then 0 else (if calls[0].Encode? then 1 else 0) + Encodes(calls[1..])
  }

  /**
   Mode exclusivity: a native-H.264 session never decodes JPEG or encodes; a
   successful MJPEG call decodes one JPEG and encodes exactly once.
   */
  lemma ModeExclusivity(s: WebcamStream, lib: CodecLib, read: Result<Bytes, IoError>, getYuvFrame: bool)
    ensures var r := Next(s, lib, read, getYuvFrame);
      s.mode.H264Native? ==> JpegDecodes(r.calls) == 0 && Encodes(r.calls) == 0
    ensures var r := Next(s, lib, read, getYuvFrame);
      s.mode.MjpegNative? && r.result.Success? ==> JpegDecodes(r.calls) == 1 && Encodes(r.calls) == 1
  {
    var r := Next(s, lib, read, getYuvFrame);
    if s.mode.MjpegNative? && r.result.Success? {
      var c := r.calls;
      assert c[1..][1..][1..] == [];
      assert JpegDecodes(c[1..][1..]) == 0 && Encodes(c[1..][1..]) == 1;
      assert JpegDecodes(c[1..]) == 0 && Encodes(c[1..]) == 1;
    } else if s.mode.H264Native? && r.calls != [] {
      assert r.calls[1..] == [];
    }
  }

  /**
   In `MjpegNative` mode the flag changes only the frame slot: the calls made, the
   error or the bitstream are the same with and without it.
   */
  lemma TranscodingIgnoresFlag(s: WebcamStream, lib: CodecLib, read: Result<Bytes, IoError>)
    requires s.mode.MjpegNative?
    ensures var with := Next(s, lib, read, true);
      var without := Next(s, lib, read, false);
      && with.calls == without.calls
      && with.result.Success? == without.result.Success?
      && (with.result.Failure? ==> with.result.error == without.result.error)
      && (with.result.Success? ==>
            && with.result.value.bitstream == without.result.value.bitstream
            && with.result.value.frame.Some? && without.result.value.frame.None?)
  {
  }

  /**
   The frame handed back, ready for `EncodeUsing` with another encoder: in
   `MjpegNative` mode it is the buffer the session encoded, in `H264Native` mode it
   is the decoder's frame.
   */
  lemma ReturnedFrameIsReusable(s: WebcamStream, lib: CodecLib, read: Result<Bytes, IoError>)
    requires Next(s, lib, read, true).result.Success?
    requires Next(s, lib, read, true).result.value.frame.Some?
    ensures var r := Next(s, lib, read, true);
      var f := r.result.value.frame.value;
      && (s.mode.MjpegNative? ==> f.Buffer? && Encode(s.mode.encoder, f) in r.calls)
      && (s.mode.H264Native? ==>
            f.Decoded? && lib.decodeH264(s.mode.decoder, read.value) == Success(Some(f.decoded)))
  {
  }
}
