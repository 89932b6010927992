/**
 The interface of a V4L2 capture device as the library uses it. Every query and
 command is a field of `Device`, so a device is any fixed choice of answers.
 */
module Camera {
  import opened Wrappers
  import opened Errors

  /** A four-character pixel-format code. */
  datatype FourCC = FourCC(c0: char, c1: char, c2: char, c3: char)

  const H264: FourCC := FourCC('H', '2', '6', '4')
  const MJPG: FourCC := FourCC('M', 'J', 'P', 'G')

  /** The largest value of a `u32`, the width of every integer the device reports. */
  const U32Max: nat := 0xFFFF_FFFF

  /** A frame period in seconds, `numerator / denominator`. */
  datatype Fraction = Fraction(numerator: nat, denominator: nat)

  /** One discrete resolution. */
  datatype Discrete = Discrete(width: nat, height: nat)

  /** One frame-size record of a format; stepwise ranges already expanded to discrete sizes. */
  datatype FrameSize = FrameSize(fourcc: FourCC, sizes: seq<Discrete>)

  /** The frame interval of one resolution: a single period or a stepwise range of periods. */
  datatype FrameIntervalKind =
    | DiscreteInterval(seconds: Fraction)
    | StepwiseInterval(min: Fraction, max: Fraction, step: Fraction)

  /** One frame-interval record, as the device reports it for a (format, width, height) query. */
  datatype FrameInterval = FrameInterval(fourcc: FourCC, width: nat, height: nat, interval: FrameIntervalKind)

  /** The capture format requested with `set_format`. */
  datatype Format = Format(width: nat, height: nat, fourcc: FourCC)

  /** The capture parameters requested with `set_params`: the frame period. */
  datatype Parameters = Parameters(interval: Fraction)

  /** An open memory-mapped buffer stream. */
  datatype StreamHandle = StreamHandle(instance: nat)

  /**
   A capture device. The two queries answer `None` when the ioctl fails;
   the two setters answer `Some(error)` when the device rejects the request;
   `openStream` opens a memory-mapped capture stream with the given number of buffers.
   */
  datatype Device = Device(
    framesizes: FourCC -> Option<seq<FrameSize>>,
    frameintervals: (FourCC, nat, nat) -> Option<seq<FrameInterval>>,
    setFormat: Format -> Option<IoError>,
    setParams: Parameters -> Option<IoError>,
    openStream: nat -> Result<StreamHandle, IoError>)
}
