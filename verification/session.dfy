/**
 Capture-session setup (`stream`): negotiate, apply the format and the frame
 period, open a four-buffer stream, then build the codec the native format needs.
 */
module Session {
  import opened Wrappers
  import opened Errors
  import opened Camera
  import opened Negotiation
  import opened Codecs

  /** The number of memory-mapped buffers the capture stream is opened with. */
  const BufferCount: nat := 4

  /** The codec the session owns: a decoder for native H.264, an encoder for MJPEG. */
  datatype EncoderMode =
    | H264Native(decoder: Decoder)
    | MjpegNative(encoder: Encoder)

  /** An open session: its stream, its mode and the negotiated resolution. */
  datatype WebcamStream = WebcamStream(stream: StreamHandle, mode: EncoderMode, width: nat, height: nat)

  /** One setup step, with the argument it was given. */
  datatype SetupCall =
    | SetFormat(format: Format)
    | SetParams(params: Parameters)
    | OpenStream(buffers: nat)
    | NewDecoder
    | NewEncoder(config: EncoderConfig)

  /** A setup outcome together with the steps that were attempted, in order. */
  datatype Setup = Setup(result: Result<WebcamStream, StreamError>, calls: seq<SetupCall>)

  /** The complete step chain for a negotiated configuration. */
  function Chain(cfg: Capability): seq<SetupCall>
  {
    [ SetFormat(Format(cfg.width, cfg.height, cfg.fourcc)),
      SetParams(Parameters(cfg.period)),
      OpenStream(BufferCount),
      if cfg.fourcc == H264 then NewDecoder else NewEncoder(EncoderConfig(cfg.width, cfg.height)) ]
  }

  /** The collaborator accepted the step. */
  predicate Succeeds(dev: Device, lib: CodecLib, call: SetupCall)
  {
    match call
    case SetFormat(f) => dev.setFormat(f).None?
    case SetParams(p) => dev.setParams(p).None?
    case OpenStream(n) => dev.openStream(n).Success?
    case NewDecoder => lib.newDecoder.Success?
    case NewEncoder(c) => lib.newEncoder(c).Success?
  }

  /** The collaborator rejected the step, and `e` is the error that failure maps to. */
  predicate FailsWith(dev: Device, lib: CodecLib, call: SetupCall, e: StreamError)
  {
    match call
    case SetFormat(f) => e.SettingsFailure? && dev.setFormat(f) == Some(e.cause)
    case SetParams(p) => e.SettingsFailure? && dev.setParams(p) == Some(e.cause)
    case OpenStream(n) => e.BufferStreamFailure? && dev.openStream(n) == Failure(e.cause)
    case NewDecoder => e.H264EncoderError? && lib.newDecoder == Failure(e.codec)
    case NewEncoder(c) => e.H264EncoderError? && lib.newEncoder(c) == Failure(e.codec)
  }

  /**
   Setup for a negotiated configuration. The steps run are a non-empty prefix of
   `Chain(cfg)`; every step but the last succeeded; on failure the last step failed
   and the error is its mapping; on success all four steps ran, the stored size is
   the negotiated one and the mode is `H264Native` exactly when the format is H264.
   */
  function Open(dev: Device, lib: CodecLib, cfg: Capability): (r: Setup)
    ensures 1 <= |r.calls| <= |Chain(cfg)| && r.calls == Chain(cfg)[..|r.calls|]
    ensures forall k :: 0 <= k < |r.calls| - 1 ==> Succeeds(dev, lib, r.calls[k])
    ensures r.result.Failure? ==> FailsWith(dev, lib, r.calls[|r.calls| - 1], r.result.error)
    ensures r.result.Success? ==> r.calls == Chain(cfg) && Succeeds(dev, lib, r.calls[3])
    ensures r.result.Success? ==>
      && r.result.value.width == cfg.width
      && r.result.value.height == cfg.height
      && dev.openStream(BufferCount) == Success(r.result.value.stream)
      && (r.result.value.mode.H264Native? <==> cfg.fourcc == H264)
    ensures r.result.Success? && r.result.value.mode.MjpegNative? ==>
      r.result.value.mode.encoder.config == EncoderConfig(cfg.width, cfg.height)
    ensures r.result.Success? && r.result.value.mode.H264Native? ==>
      lib.newDecoder == Success(r.result.value.mode.decoder.instance)
    ensures r.result.Success? && r.result.value.mode.MjpegNative? ==>
      lib.newEncoder(EncoderConfig(cfg.width, cfg.height)) == Success(r.result.value.mode.encoder.instance)
  {
    var fmt := Format(cfg.width, cfg.height, H264).(fourcc := cfg.fourcc);
    var params := Parameters(cfg.period);
    match dev.setFormat(fmt)
    case Some(e) => Setup(Failure(SettingsFailure(e)), [SetFormat(fmt)])
    case None =>
      match dev.setParams(params)
      case Some(e) => Setup(Failure(SettingsFailure(e)), [SetFormat(fmt), SetParams(params)])
      case None =>
        var attempted := [SetFormat(fmt), SetParams(params), OpenStream(BufferCount)];
        match dev.openStream(BufferCount)
        case Failure(e) => Setup(Failure(BufferStreamFailure(e)), attempted)
        case Success(stream) =>
          if cfg.fourcc == H264 then
            match lib.newDecoder
            case Failure(e) => Setup(Failure(H264EncoderError(e)), attempted + [NewDecoder])
            case Success(id) =>
              Setup(Success(WebcamStream(stream, H264Native(Decoder(id)), cfg.width, cfg.height)),
                    attempted + [NewDecoder])
          else
            var config := EncoderConfig(cfg.width, cfg.height);
            match lib.newEncoder(config)
            case Failure(e) => Setup(Failure(H264EncoderError(e)), attempted + [NewEncoder(config)])
            case Success(id) =>
              Setup(Success(WebcamStream(stream, MjpegNative(Encoder(config, id)), cfg.width, cfg.height)),
                    attempted + [NewEncoder(config)])
  }

  /** Setup succeeds exactly when every step of the chain is accepted. */
  lemma OpenSucceedsIffAllStepsSucceed(dev: Device, lib: CodecLib, cfg: Capability)
    ensures Open(dev, lib, cfg).result.Success? <==>
      forall k :: 0 <= k < |Chain(cfg)| ==> Succeeds(dev, lib, Chain(cfg)[k])
  {
  }

  /**
   `stream`: negotiation failure stops before any device command; otherwise setup
   runs on the negotiated configuration, whose size the session keeps.
   */
  function Stream(dev: Device, lib: CodecLib, maxFps: nat): (r: Setup)
    requires InU32Range(AsWritten, Gather(dev), maxFps)
    ensures r.calls == [] <==>
      forall c :: Advertised(dev, c) ==> c.period.numerator > maxFps * c.period.denominator
    ensures r.calls == [] ==> r.result == Failure(NoSupportedConfiguration)
    ensures r.calls != [] ==> Negotiate(dev, maxFps).Success?
    ensures r.calls != [] ==>
      var c := Negotiate(dev, maxFps).value;
      && r == Open(dev, lib, c)
      && Advertised(dev, c) && c.period.numerator <= maxFps * c.period.denominator
      && r.calls[0] == SetFormat(Format(c.width, c.height, c.fourcc))
      && (|r.calls| > 1 ==> r.calls[1] == SetParams(Parameters(c.period)))
      && (r.result.Success? ==> r.result.value.width == c.width && r.result.value.height == c.height)
      && (r.result.Success? ==> (r.result.value.mode.H264Native? <==> c.fourcc == H264))
  {
    match Negotiate(dev, maxFps)
    case Failure(e) => Setup(Failure(e), [])
    case Success(cfg) => Open(dev, lib, cfg)
  }
}
