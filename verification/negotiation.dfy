/**
 Capability negotiation: gather every (format, period, width, height) the device
 advertises for H264 and then MJPG, drop the entries the frame-rate filter rejects,
 and keep the maximum under a lexicographic key, the last one on ties.
 */
module Negotiation {
  import opened Wrappers
  import opened Errors
  import opened Camera
  import opened Seqs

  /** One candidate configuration: the `(fourcc, frame_period, width, height)` tuple. */
  datatype Capability = Capability(fourcc: FourCC, period: Fraction, width: nat, height: nat)

  /** The formats queried, in query order. */
  const Candidates: seq<FourCC> := [H264, MJPG]

  /** The period an interval contributes: a discrete one its own value, a stepwise one its `min`. */
  function PeriodOf(k: FrameIntervalKind): Fraction
  {
    match k
    case DiscreteInterval(seconds) => seconds
    case StepwiseInterval(min, _, _) => min
  }

  /** The entry for one interval record; the format comes from the frame-size record, not the interval record. */
  function CapabilityOf(fourcc: FourCC, iv: FrameInterval): Capability
  {
    Capability(fourcc, PeriodOf(iv.interval), iv.width, iv.height)
  }

  /** Entries for one discrete size; a failed interval query contributes nothing. */
  function AtSize(dev: Device, fourcc: FourCC, d: Discrete): seq<Capability>
  {
    Map(OrEmpty(dev.frameintervals(fourcc, d.width, d.height)), iv => CapabilityOf(fourcc, iv))
  }

  /** Entries for every size of one frame-size record. */
  function FromFrameSize(dev: Device, fs: FrameSize): seq<Capability>
  {
    FlatMap(fs.sizes, d => AtSize(dev, fs.fourcc, d))
  }

  /** Entries for one queried format; a failed frame-size query contributes nothing. */
  function FromFormat(dev: Device, fourcc: FourCC): seq<Capability>
  {
    FlatMap(OrEmpty(dev.framesizes(fourcc)), fs => FromFrameSize(dev, fs))
  }

  /** Every gathered entry, in enumeration order. */
  function Gather(dev: Device): seq<Capability>
  {
    FlatMap(Candidates, f => FromFormat(dev, f))
  }

  /**
   Independent description of the gathered set: `c` is advertised when a candidate
   format's frame-size query succeeds, one of its records has a size whose interval
   query succeeds, and one of those intervals yields `c`.
   */
  ghost predicate Advertised(dev: Device, c: Capability)
  {
    exists f :: f in Candidates && AdvertisedFor(dev, f, c)
  }

  ghost predicate AdvertisedFor(dev: Device, f: FourCC, c: Capability)
  {
    && dev.framesizes(f).Some?
    && exists fs :: fs in dev.framesizes(f).value && AdvertisedIn(dev, fs, c)
  }

  ghost predicate AdvertisedIn(dev: Device, fs: FrameSize, c: Capability)
  {
    exists d :: d in fs.sizes && AdvertisedAt(dev, fs.fourcc, d, c)
  }

  ghost predicate AdvertisedAt(dev: Device, fourcc: FourCC, d: Discrete, c: Capability)
  {
    && dev.frameintervals(fourcc, d.width, d.height).Some?
    && exists iv :: iv in dev.frameintervals(fourcc, d.width, d.height).value
                    && c == Capability(fourcc, PeriodOf(iv.interval), iv.width, iv.height)
  }

  lemma AtSizeMembers(dev: Device, fourcc: FourCC, d: Discrete, c: Capability)
    ensures c in AtSize(dev, fourcc, d) <==> AdvertisedAt(dev, fourcc, d, c)
  {
    var ivs := OrEmpty(dev.frameintervals(fourcc, d.width, d.height));
    MapIndex(ivs, iv => CapabilityOf(fourcc, iv));
    var es := AtSize(dev, fourcc, d);
    if c in es {
      var k :| 0 <= k < |es| && es[k] == c;
      assert ivs[k] in ivs;
    }
  }

  lemma FromFrameSizeMembers(dev: Device, fs: FrameSize, c: Capability)
    ensures c in FromFrameSize(dev, fs) <==> AdvertisedIn(dev, fs, c)
  {
    FlatMapMembers(fs.sizes, d => AtSize(dev, fs.fourcc, d), c);
    forall d | d in fs.sizes {
      AtSizeMembers(dev, fs.fourcc, d, c);
    }
  }

  lemma FromFormatMembers(dev: Device, f: FourCC, c: Capability)
    ensures c in FromFormat(dev, f) <==> AdvertisedFor(dev, f, c)
  {
    var fss := OrEmpty(dev.framesizes(f));
    FlatMapMembers(fss, fs => FromFrameSize(dev, fs), c);
    forall fs | fs in fss {
      FromFrameSizeMembers(dev, fs, c);
    }
  }

  /** The gathered entries are exactly the advertised ones: nothing is invented and no failure is fatal. */
  lemma GatherMembers(dev: Device)
    ensures forall c :: c in Gather(dev) <==> Advertised(dev, c)
  {
    forall c
      ensures c in Gather(dev) <==> Advertised(dev, c)
    {
      FlatMapMembers(Candidates, f => FromFormat(dev, f), c);
      FromFormatMembers(dev, H264, c);
      FromFormatMembers(dev, MJPG, c);
    }
  }

  /** Every H264 entry is enumerated before every MJPG entry. */
  lemma GatherOrder(dev: Device)
    ensures Gather(dev) == FromFormat(dev, H264) + FromFormat(dev, MJPG)
  {
    FlatMapAppend([H264], [MJPG], f => FromFormat(dev, f));
    assert Candidates == [H264] + [MJPG];
  }

  // ----- Filter and key -----

  /**
   `AsWritten` is the code's filter and key; `Intended` is what the comments beside
   them describe (a frame-rate ceiling, the highest frame rate preferred).
   */
  datatype Policy = AsWritten | Intended

  /** The filter. As written it bounds the period `num/den` by `maxFps` seconds; intended, it bounds `den/num` fps. */
  predicate Admits(p: Policy, c: Capability, maxFps: nat)
  {
    match p
    case AsWritten => c.period.numerator <= maxFps * c.period.denominator
    case Intended => c.period.denominator <= maxFps * c.period.numerator
  }

  /** The period scaled by one million with truncating division, the third key component. */
  function ScaledPeriod(f: Fraction): nat
    requires f.denominator > 0
  {
    f.numerator * 1_000_000 / f.denominator
  }

  /** A selection key, ordered lexicographically with `false < true` for the last component. */
  datatype Key = Key(width: nat, height: nat, rate: int, h264: bool)

  predicate KeyLe(a: Key, b: Key)
  {
    || a.width < b.width
    || (a.width == b.width && a.height < b.height)
    || (a.width == b.width && a.height == b.height && a.rate < b.rate)
    || (a.width == b.width && a.height == b.height && a.rate == b.rate && (!a.h264 || b.h264))
  }

  /** The key of an entry: as written the scaled period grows with the period, intended it shrinks. */
  function KeyOf(p: Policy, c: Capability): Key
    requires c.period.denominator > 0
  {
    var rate := match p
      case AsWritten => ScaledPeriod(c.period) as int
      case Intended => -(ScaledPeriod(c.period) as int);
    Key(c.width, c.height, rate, c.fourcc == H264)
  }

  /**
   The `u32` arithmetic of the filter and the key neither overflows nor divides by
   zero: the filter's product fits for every entry, and every entry the filter keeps
   has a positive denominator and a scaled numerator that fits.
   */
  predicate InU32Range(p: Policy, entries: seq<Capability>, maxFps: nat)
  {
    && maxFps <= U32Max
    && forall c :: c in entries ==>
         && (match p
             case AsWritten => maxFps * c.period.denominator <= U32Max
             case Intended => maxFps * c.period.numerator <= U32Max)
         && (Admits(p, c, maxFps) ==> 0 < c.period.denominator && c.period.numerator * 1_000_000 <= U32Max)
  }

  /** `.filter(...)`: the admitted entries, in order. */
  function Survivors(p: Policy, entries: seq<Capability>, maxFps: nat): (r: seq<Capability>)
    ensures forall c :: c in r <==> c in entries && Admits(p, c, maxFps)
    decreases |entries|
  {
    if |entries| == 0 then []
    else
      var rest := Survivors(p, entries[1..], maxFps);
      assert forall c :: c in entries <==> c == entries[0] || c in entries[1..];
      if Admits(p, entries[0], maxFps) then [entries[0]] + rest else rest
  }

  /**
   The filter keeps enumeration order: survivors of a concatenation are the
   survivors of each part, in turn, and a single entry survives alone or not at all.
   */
  lemma {:induction false} SurvivorsAppend(p: Policy, a: seq<Capability>, b: seq<Capability>, maxFps: nat)
    ensures Survivors(p, a + b, maxFps) == Survivors(p, a, maxFps) + Survivors(p, b, maxFps)
    decreases |a|
  {
    if |a| == 0 {
      assert a + b == b;
    } else {
      assert (a + b)[1..] == a[1..] + b;
      SurvivorsAppend(p, a[1..], b, maxFps);
    }
  }

  lemma SurvivorsSingle(p: Policy, c: Capability, maxFps: nat)
    ensures Survivors(p, [c], maxFps) == (if Admits(p, c, maxFps) then [c] else [])
  {
    assert [c][1..] == [];
  }

  function Keys(p: Policy, s: seq<Capability>): seq<Key>
    requires forall c :: c in s ==> c.period.denominator > 0
  {
    seq(|s|, i requires 0 <= i < |s| => KeyOf(p, s[i]))
  }

  lemma KeysIndex(p: Policy, s: seq<Capability>)
    requires forall c :: c in s ==> c.period.denominator > 0
    ensures |Keys(p, s)| == |s|
    ensures forall i :: 0 <= i < |s| ==> Keys(p, s)[i] == KeyOf(p, s[i])
  {
  }

  /**
   `max_by_key` as a left fold: a later element replaces the current maximum when
   its key is at least as large, so the winner is maximal and every later key is
   strictly smaller.
   */
  function ArgMaxLast(keys: seq<Key>): (i: nat)
    requires |keys| > 0
    ensures i < |keys|
    ensures forall j :: 0 <= j < |keys| ==> KeyLe(keys[j], keys[i])
    ensures forall j :: i < j < |keys| ==> keys[j] != keys[i]
    decreases |keys|
  {
    if |keys| == 1 then 0
    else
      var m := ArgMaxLast(keys[..|keys| - 1]);
      if KeyLe(keys[m], keys[|keys| - 1]) then |keys| - 1 else m
  }

  /** At most one index is maximal with only strictly smaller keys after it. */
  lemma ArgMaxLastUnique(keys: seq<Key>, i: nat)
    requires i < |keys|
    requires forall j :: 0 <= j < |keys| ==> KeyLe(keys[j], keys[i])
    requires forall j :: i < j < |keys| ==> keys[j] != keys[i]
    ensures ArgMaxLast(keys) == i
  {
  }

  /**
   Filter then take the maximum; with no survivor the result is `NoSupportedConfiguration`.
   The winner is admitted and no admitted entry has a larger key.
   */
  function Select(p: Policy, entries: seq<Capability>, maxFps: nat): (r: Result<Capability, StreamError>)
    requires InU32Range(p, entries, maxFps)
    ensures r.Failure? <==> forall c :: c in entries ==> !Admits(p, c, maxFps)
    ensures r.Failure? ==> r.error == NoSupportedConfiguration
    ensures r.Success? ==> r.value in entries && Admits(p, r.value, maxFps)
    ensures r.Success? ==>
      forall c :: c in entries && Admits(p, c, maxFps) ==> KeyLe(KeyOf(p, c), KeyOf(p, r.value))
  {
    var survivors := Survivors(p, entries, maxFps);
    if |survivors| == 0 then
      Failure(NoSupportedConfiguration)
    else
      var keys := Keys(p, survivors);
      KeysIndex(p, survivors);
      var i := ArgMaxLast(keys);
      assert forall c :: c in survivors ==> exists j :: 0 <= j < |survivors| && survivors[j] == c;
      Success(survivors[i])
  }

  /**
   Determinism and the tie-break: the winner is the survivor whose key is maximal
   and after which, in enumeration order, every survivor's key is strictly smaller.
   */
  lemma SelectPicksLastMaximal(p: Policy, entries: seq<Capability>, maxFps: nat, i: nat)
    requires InU32Range(p, entries, maxFps)
    requires i < |Survivors(p, entries, maxFps)|
    requires var s := Survivors(p, entries, maxFps);
      forall j :: 0 <= j < |s| ==> KeyLe(KeyOf(p, s[j]), KeyOf(p, s[i]))
    requires var s := Survivors(p, entries, maxFps);
      forall j :: i < j < |s| ==> KeyOf(p, s[j]) != KeyOf(p, s[i])
    ensures Select(p, entries, maxFps) == Success(Survivors(p, entries, maxFps)[i])
  {
    var s := Survivors(p, entries, maxFps);
    KeysIndex(p, s);
    ArgMaxLastUnique(Keys(p, s), i);
  }

  /**
   Negotiation as the code does it. The winner is advertised and passes the period
   filter; width dominates, then height, then the scaled period (longer wins), and
   H264 wins only a full tie of the other three.
   */
  function Negotiate(dev: Device, maxFps: nat): (r: Result<Capability, StreamError>)
    requires InU32Range(AsWritten, Gather(dev), maxFps)
    ensures r.Failure? <==>
      forall c :: Advertised(dev, c) ==> c.period.numerator > maxFps * c.period.denominator
    ensures r.Failure? ==> r.error == NoSupportedConfiguration
    ensures r.Success? ==>
      Advertised(dev, r.value) && r.value.period.numerator <= maxFps * r.value.period.denominator
    ensures r.Success? ==> r.value in Gather(dev)
    ensures r.Success? ==> forall c :: c in Gather(dev) && Admits(AsWritten, c, maxFps) ==>
      && c.width <= r.value.width
      && (c.width == r.value.width ==> c.height <= r.value.height)
      && (c.width == r.value.width && c.height == r.value.height ==>
            ScaledPeriod(c.period) <= ScaledPeriod(r.value.period))
      && (c.width == r.value.width && c.height == r.value.height
          && ScaledPeriod(c.period) == ScaledPeriod(r.value.period) && c.fourcc == H264 ==>
            r.value.fourcc == H264)
  {
    GatherMembers(dev);
    Select(AsWritten, Gather(dev), maxFps)
  }

  /**
   Negotiation as the comments describe it: the winner's frame rate `den/num` is at
   most `maxFps`, and among admitted entries of the winner's resolution none has a
   shorter scaled period.
   */
  function NegotiateIntended(dev: Device, maxFps: nat): (r: Result<Capability, StreamError>)
    requires InU32Range(Intended, Gather(dev), maxFps)
    ensures r.Failure? <==>
      forall c :: Advertised(dev, c) ==> c.period.denominator > maxFps * c.period.numerator
    ensures r.Failure? ==> r.error == NoSupportedConfiguration
    ensures r.Success? ==>
      Advertised(dev, r.value) && r.value.period.denominator <= maxFps * r.value.period.numerator
    ensures r.Success? ==> r.value in Gather(dev)
    ensures r.Success? ==> forall c :: c in Gather(dev) && Admits(Intended, c, maxFps) ==>
      && c.width <= r.value.width
      && (c.width == r.value.width ==> c.height <= r.value.height)
      && (c.width == r.value.width && c.height == r.value.height ==>
            ScaledPeriod(r.value.period) <= ScaledPeriod(c.period))
  {
    GatherMembers(dev);
    Select(Intended, Gather(dev), maxFps)
  }

  // ----- Concrete cases -----

  /** A 90 fps entry passes the code's filter under a 60 fps ceiling and is selected. */
  lemma FilterAdmitsAboveCeiling()
    ensures var c := Capability(H264, Fraction(1, 90), 1920, 1080);
      && Select(AsWritten, [c], 60) == Success(c)
      && c.period.denominator > 60 * c.period.numerator
  {
  }

  /** With 30 fps and 5 fps offered at one resolution under a 30 fps ceiling, the code picks 5 fps. */
  lemma SlowestRateWins()
    ensures var fast := Capability(H264, Fraction(1, 30), 640, 480);
      var slow := Capability(H264, Fraction(1, 5), 640, 480);
      Select(AsWritten, [fast, slow], 30) == Success(slow)
  {
    var fast := Capability(H264, Fraction(1, 30), 640, 480);
    var slow := Capability(H264, Fraction(1, 5), 640, 480);
    assert Survivors(AsWritten, [slow], 30) == [slow];
    assert [fast, slow][1..] == [slow];
    assert Survivors(AsWritten, [fast, slow], 30) == [fast, slow];
  }

  /** The intended policy rejects the 90 fps entry under a 60 fps ceiling. */
  lemma IntendedRejectsAboveCeiling()
    ensures Select(Intended, [Capability(H264, Fraction(1, 90), 1920, 1080)], 60)
      == Failure(NoSupportedConfiguration)
  {
  }

  /** The intended policy picks 30 fps over 5 fps under a 30 fps ceiling. */
  lemma IntendedPicksFastest()
    ensures var fast := Capability(H264, Fraction(1, 30), 640, 480);
      var slow := Capability(H264, Fraction(1, 5), 640, 480);
      Select(Intended, [fast, slow], 30) == Success(fast)
  {
  }

  /** Resolution dominates frame rate: 1920x1080 at 24 fps beats 1280x720 at 60 fps. */
  lemma ResolutionDominatesRate()
    ensures var small := Capability(H264, Fraction(1, 60), 1280, 720);
      var large := Capability(H264, Fraction(1, 24), 1920, 1080);
      Select(AsWritten, [small, large], 60) == Success(large)
  {
    var small := Capability(H264, Fraction(1, 60), 1280, 720);
    var large := Capability(H264, Fraction(1, 24), 1920, 1080);
    assert Survivors(AsWritten, [large], 60) == [large];
    assert [small, large][1..] == [large];
    assert Survivors(AsWritten, [small, large], 60) == [small, large];
  }

  /** On a full tie of size and period, H264 beats MJPG even though MJPG is enumerated later. */
  lemma H264WinsFullTie()
    ensures var h := Capability(H264, Fraction(1, 30), 1280, 720);
      var m := Capability(MJPG, Fraction(1, 30), 1280, 720);
      Select(AsWritten, [h, m], 60) == Success(h)
  {
  }

  /**
   End to end: the H264 query fails and one MJPG size's interval query fails, yet
   negotiation succeeds with the remaining MJPG size, whose stepwise interval
   contributes its minimum.
   */
  lemma FailedQueriesAreSkipped()
    ensures var dev := Device(
        f => if f == MJPG then Some([FrameSize(MJPG, [Discrete(1920, 1080), Discrete(640, 480)])]) else None,
        (f, w, h) => if w == 640 then Some([FrameInterval(MJPG, 640, 480,
                        StepwiseInterval(Fraction(1, 30), Fraction(1, 5), Fraction(1, 30)))]) else None,
        fmt => None, params => None, n => Failure(IoError(0)));
      var c := Capability(MJPG, Fraction(1, 30), 640, 480);
      Gather(dev) == [c] && Negotiate(dev, 60) == Success(c)
  {
    var dev := Device(
        f => if f == MJPG then Some([FrameSize(MJPG, [Discrete(1920, 1080), Discrete(640, 480)])]) else None,
        (f, w, h) => if w == 640 then Some([FrameInterval(MJPG, 640, 480,
                        StepwiseInterval(Fraction(1, 30), Fraction(1, 5), Fraction(1, 30)))]) else None,
        fmt => None, params => None, n => Failure(IoError(0)));
    var c := Capability(MJPG, Fraction(1, 30), 640, 480);
    assert H264 != MJPG;
    assert FromFormat(dev, H264) == [];
    var sizes := [Discrete(1920, 1080), Discrete(640, 480)];
    var fs := FrameSize(MJPG, sizes);
    assert AtSize(dev, MJPG, sizes[0]) == [];
    assert AtSize(dev, MJPG, sizes[1]) == [c];
    assert sizes[1..][1..] == [];
    assert FromFrameSize(dev, fs) == [c];
    assert [fs][1..] == [];
    assert FromFormat(dev, MJPG) == [c];
    GatherOrder(dev);
    assert Gather(dev) == [c];
    assert Survivors(AsWritten, [c], 60) == [c];
  }
}
