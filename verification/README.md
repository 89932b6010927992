# h264_webcam_stream — a Dafny model of its core

This project models the library `src/lib.rs` of `h264_webcam_stream`. The library opens a V4L2 capture
device and produces an H.264 bitstream from it. If the camera emits H.264, the bytes pass through.
If it emits MJPEG, each frame is transcoded. Four parts are modelled:

- **Capability negotiation** (`Negotiation`). The device is queried for frame sizes of H264 and then
  MJPG, and each size for its frame intervals. Failed queries are skipped. A stepwise interval
  contributes its minimum. The resulting `(fourcc, period, width, height)` entries are filtered against
  `max_fps`. The maximum is kept under the key `(width, height, numerator*1_000_000/denominator,
  fourcc == H264)`; `max_by_key` keeps the last of equal keys. An empty result is
  `NoSupportedConfiguration`.
- **Session setup** (`Session`). `set_format`, then `set_params`, then a four-buffer memory-mapped
  stream, then the codec: an H.264 decoder when the format is H264, otherwise an H.264 encoder sized to
  the negotiated resolution. Each failure maps to its own `StreamError` and stops the chain.
- **The frame pipeline** (`Pipeline.Next`) and `YUVFrame::encode_using` (`Codecs.EncodeUsing`).
- **Device lookup** (`Devices.GetDevice`), a find-first over the enumerated device nodes.

The device (`Camera.Device`) and the codec libraries (`Codecs.CodecLib`) are records of total
functions, so every contract holds for every possible device and codec behaviour. Setup, the
pipeline and `encode_using` also return the sequence of collaborator calls they made. This is how
the contracts state which collaborator runs, with which argument, and that a failure stops the later
steps.

The model follows the code where it disagrees with the comments beside it. The comments at
`src/lib.rs:126` and `:136` speak of filtering out frame rates above `max_fps` and of preferring
higher frame rates. The code bounds the frame *period* by `max_fps` seconds and prefers the
*longest* period. `Negotiation.Negotiate` and `Session.Stream` model the code as written. The
section "Findings" records both discrepancies, with a corrected negotiation.

## Model

| member | source | states |
|---|---|---|
| `Devices.FindFirst` | src/lib.rs:79-82 | `None` exactly when no node's path equals the requested one; otherwise the index of a matching node with no match before it |
| `Devices.GetDevice` | src/lib.rs:76-85 | `DeviceNotFound` iff no node matches, and then nothing is opened; otherwise the index of the first matching node is opened, its device returned, or its failure returned as `CouldNotOpen` with the same cause |
| `Negotiation.GatherMembers` | src/lib.rs:92-125 | an entry is gathered iff a candidate format's frame-size query succeeds, one of its sizes has a successful interval query, and one of those intervals yields the entry; the format comes from the frame-size record, the size from the interval record, and the period is a discrete interval's value or a stepwise interval's minimum; failed queries add nothing and raise nothing |
| `Negotiation.GatherOrder` | src/lib.rs:92-96 | all H264 entries are enumerated before all MJPG entries |
| `Negotiation.FailedQueriesAreSkipped` | src/lib.rs:95-125 | on a device whose H264 query fails and one of whose MJPG interval queries fails, the other MJPG size is gathered alone, its stepwise interval giving its minimum, and it is selected |
| `Negotiation.Survivors` | src/lib.rs:127-129 | an entry survives the filter iff it is gathered and `numerator <= max_fps * denominator` |
| `Negotiation.SurvivorsAppend` | src/lib.rs:127-129 | the filter keeps enumeration order: the survivors of `a + b` are the survivors of `a` followed by those of `b` |
| `Negotiation.SurvivorsSingle` | src/lib.rs:127-129 | a single entry survives alone exactly when it passes the filter |
| `Negotiation.ArgMaxLast` | src/lib.rs:131-141 | the `max_by_key` fold returns a position whose key is maximal, and every later key is strictly smaller |
| `Negotiation.ArgMaxLastUnique` | src/lib.rs:131-141 | only one position is maximal with strictly smaller keys after it, so the fold's result is determined by the keys alone |
| `Negotiation.Select` | src/lib.rs:127-142 | fails, always with `NoSupportedConfiguration`, iff no entry passes the filter; otherwise the result is a gathered entry that passes the filter, and no passing entry has a larger key |
| `Negotiation.SelectPicksLastMaximal` | src/lib.rs:131-142 | the selected entry is the survivor with the maximal key after which every survivor's key is strictly smaller: among equal keys the last in enumeration order wins |
| `Negotiation.Negotiate` | src/lib.rs:92-142 | fails with `NoSupportedConfiguration` iff no advertised entry has `numerator <= max_fps * denominator`; the winner is advertised and passes that test; no passing entry is wider; none of equal width is taller; none of equal size has a larger scaled period; and on a tie of all three an H264 entry forces an H264 winner |
| `Negotiation.ResolutionDominatesRate` | src/lib.rs:131-141 | 1920x1080 at 24 fps beats 1280x720 at 60 fps |
| `Negotiation.H264WinsFullTie` | src/lib.rs:138-139 | with equal size and period, H264 beats an MJPG entry enumerated after it |
| `Negotiation.FilterAdmitsAboveCeiling` | src/lib.rs:126-129 | a 90 fps entry passes the filter under `max_fps` 60 and is selected |
| `Negotiation.SlowestRateWins` | src/lib.rs:136-137 | of 30 fps and 5 fps at one size under `max_fps` 30, the 5 fps entry is selected |
| `Negotiation.NegotiateIntended` | src/lib.rs:126-137 | corrected negotiation: the winner's frame rate `denominator/numerator` is at most `max_fps`; no admitted entry is wider; none of equal width is taller; none of equal size has a shorter scaled period |
| `Negotiation.IntendedRejectsAboveCeiling` | src/lib.rs:126-129 | under the corrected filter a lone 90 fps entry with `max_fps` 60 gives `NoSupportedConfiguration` |
| `Negotiation.IntendedPicksFastest` | src/lib.rs:136-137 | under the corrected key, 30 fps beats 5 fps at the same size |
| `Codecs.EncodeUsing` | src/lib.rs:183-191 | either frame variant goes unchanged to the caller's encoder in exactly one call; its bitstream is returned, or its error as `H264EncoderError` |
| `Session.Open` | src/lib.rs:144-173 | the steps run are a prefix of set_format(width, height, fourcc), set_params(period), open stream with 4 buffers, build codec; every step but the last succeeded; a failure is the last step's (`SettingsFailure`, `BufferStreamFailure`, `H264EncoderError`) with its cause; on success all four ran, the stored size is the negotiated one, the mode is `H264Native` iff the format is H264, an MJPEG encoder is configured with the negotiated size, and the session keeps exactly the decoder or encoder instance the codec library built |
| `Session.OpenSucceedsIffAllStepsSucceed` | src/lib.rs:149-166 | setup succeeds iff every step of the chain is accepted |
| `Session.Stream` | src/lib.rs:87-173 | no device command is issued iff no advertised entry passes the filter, and the result is then `NoSupportedConfiguration`; otherwise the outcome is exactly `Open` applied to the entry `Negotiate` selects, so `set_format` and `set_params` receive that winner's size, format and period, the session keeps its size, and the mode is `H264Native` iff it is H264 |
| `Pipeline.Next` | src/lib.rs:204-243 | a failed read is `StreamFailure` with no codec call; in `H264Native` mode the bytes are the captured buffer; without a frame request nothing is called and the call succeeds; with one the decoder is called once on the buffer, its error fails the call as `H264EncoderError`, and its `Some(yuv)` becomes `Some(Decoded(yuv))` while its `None` is a missing frame, not an error; in `MjpegNative` mode the JPEG decoder runs first, and its error is `JPEGDecoderError` with no further call; otherwise the pixels are converted at the session size and that exact buffer is encoded once; the call succeeds iff the encode does, an encode error becomes `H264EncoderError`, the bytes are the encoder's, and the frame slot is `Some(Buffer(yuv))` of the encoded buffer iff asked |
| `Pipeline.ModeExclusivity` | src/lib.rs:213-241 | an `H264Native` session never decodes JPEG or encodes; a successful `MjpegNative` call decodes one JPEG and encodes exactly once |
| `Pipeline.TranscodingIgnoresFlag` | src/lib.rs:225-241 | in `MjpegNative` mode the flag changes only the frame slot: calls, errors and bitstream are the same either way |
| `Pipeline.ReturnedFrameIsReusable` | src/lib.rs:183-241 | a returned frame is the buffer the session encoded (MJPEG) or the decoder's frame (H.264) |

## Left out

- Device I/O: `enum_devices`, `Device::new`, `enum_framesizes`, `enum_frameintervals`, `set_format`, `set_params` and `MmapStream` are fields of `Camera.Device` or parameters. The blocking stream read is the `read` argument of `Pipeline.Next`.
- `FrameSize::to_discrete` belongs to the v4l crate, which is not part of this model. Frame-size records carry their already-discrete sizes.
- Codec internals: the openh264 decoder and encoder, `jpeg_decoder` and `YUVBuffer::with_rgb` are uninterpreted fields of `Codecs.CodecLib`. Their state across calls is not modelled; for example, the decoder buffers access units. So is a panic of `with_rgb` on a pixel-count mismatch.
- `Format::new` also fills fields the library never sets, such as stride and colour space. `Camera.Format` keeps only width, height and fourcc.
- Rust lifetimes, borrows and buffer ownership have no counterpart. Causes of `std::io::Error`, `openh264::Error` and `jpeg_decoder::Error` are reduced to an error code. The `#[error]` display strings are not modelled.
- Text paths are not parsed into components. `Devices.Path` is already a component sequence, matching how Rust compares paths.
- Negotiation.Select: requires `InU32Range`, i.e. `max_fps * denominator` and `numerator * 1_000_000` fit in `u32` and every surviving denominator is positive. The code would wrap or panic instead, and that behaviour is not modelled.
- Negotiation.Negotiate: requires `InU32Range` over the gathered entries, for the same reason as `Select`.
- Negotiation.NegotiateIntended: requires the same kind of `InU32Range` bound for the corrected filter.
- Session.Stream: requires `InU32Range`, inherited from `Negotiate`.
- The `tracing::warn!` on a failed interval query is a side effect only. `list_devices` is a plain map over the foreign enumeration. The example binaries, including the wall-clock timelapse throttle, are caller code.

## Findings

| source | as written | input that shows it | evidently intended | confidence | as-written member | corrected member |
|---|---|---|---|---|---|---|
| src/lib.rs:126-129 | `numerator <= max_fps * denominator` keeps entries whose period is at most `max_fps` seconds | one H264 entry 1920x1080 at period 1/90 with `max_fps` 60 passes and is selected (90 fps) | drop entries faster than `max_fps`: keep `denominator <= max_fps * numerator` | high, not executed | Negotiation.FilterAdmitsAboveCeiling | Negotiation.NegotiateIntended |
| src/lib.rs:136-137 | the key `numerator*1_000_000/denominator` grows with the period, so the lowest frame rate wins | 640x480 at periods 1/30 and 1/5 with `max_fps` 30: period 1/5 (5 fps) is selected | prefer the highest frame rate, i.e. the shortest scaled period | high, not executed | Negotiation.SlowestRateWins | Negotiation.NegotiateIntended |

`Negotiation.Select` takes a policy argument. With `AsWritten` it is the code's filter and key. With
`Intended` it is the corrected pair, for which `Negotiation.IntendedRejectsAboveCeiling` and
`Negotiation.IntendedPicksFastest` show the corrected outcome on the same inputs. `Session.Open`
accepts the configuration from either negotiation. `Session.Stream` composes the as-written one,
because it models `stream` as the code runs it.
