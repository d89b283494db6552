/**
 * The parameter rules of `VideoCompressor`: output resolution, output bitrate and
 * the combined progress it reports. `Float`, `Double` and `CGFloat` are taken as
 * exact reals; Swift's `Int(x)` conversion truncates toward zero.
 */
module VideoCompression {

  /** `MAX_BITRATE`, in bits per second. */
  const MaxBitrate: real := 2000000.0
  /** `MIN_HEIGHT` and `MIN_WIDTH`, the long and short side of the fixed middle tier. */
  const MinHeight: real := 640.0
  const MinWidth: real := 360.0

  /** Swift's `Int(x)` for a floating-point `x`: truncation toward zero. */
  function Trunc(x: real): (n: int)
    ensures 0.0 <= x ==> 0 <= n && n as real <= x < n as real + 1.0
    ensures x < 0.0 ==> n <= 0 && x <= n as real < x + 1.0
  {
    if x >= 0.0 then x.Floor else -((-x).Floor)
  }

  /** Truncation never decreases when its argument grows. */
  lemma TruncMonotonic(x: real, y: real)
    requires x <= y
    ensures Trunc(x) <= Trunc(y)
  {
  }

  /** `Int(x / 16) * 16`, as the source writes it: the multiple of 16 reached by truncating `x / 16`. */
  function SnapTo16(x: real): (n: int)
    ensures n % 16 == 0
    ensures 0.0 <= x ==> 0 <= n && n as real <= x < n as real + 16.0
  {
    Trunc(x / 16.0) * 16
  }

  /**
   * `generateWidthAndHeight(width:height:keepOriginalResolution:)`: the original
   * size, truncated, when it is to be kept; otherwise half of a side of 1920 or
   * more, three quarters of a side of 1280 or more, a fixed 608 by 336 (turned
   * upright for portrait and square input) for a side of 960 or more, and nine
   * tenths of smaller sizes, each rounded down to a multiple of 16.
   */
  method GenerateWidthAndHeight(width: real, height: real, keepOriginalResolution: bool)
    returns (newWidth: int, newHeight: int)
    ensures keepOriginalResolution ==> newWidth == Trunc(width) && newHeight == Trunc(height)
    ensures !keepOriginalResolution ==> newWidth % 16 == 0 && newHeight % 16 == 0
    ensures !keepOriginalResolution && (width >= 1920.0 || height >= 1920.0) ==>
      newWidth == SnapTo16(width * 0.5) && newHeight == SnapTo16(height * 0.5)
    ensures !keepOriginalResolution && (width >= 1920.0 || height >= 1920.0) && width >= 0.0 && height >= 0.0 ==>
      0 <= newWidth && newWidth as real <= width / 2.0 && 0 <= newHeight && newHeight as real <= height / 2.0
    ensures !keepOriginalResolution && width < 1920.0 && height < 1920.0 && (width >= 1280.0 || height >= 1280.0) ==>
      newWidth == SnapTo16(width * 0.75) && newHeight == SnapTo16(height * 0.75)
    ensures !keepOriginalResolution && width < 1280.0 && height < 1280.0 && (width >= 960.0 || height >= 960.0) ==>
      if width > height then newWidth == 608 && newHeight == 336 else newWidth == 336 && newHeight == 608
    ensures !keepOriginalResolution && width < 960.0 && height < 960.0 ==>
      newWidth == SnapTo16(width * 0.9) && newHeight == SnapTo16(height * 0.9)
    ensures !keepOriginalResolution && width < 960.0 && height < 960.0 && width >= 0.0 && height >= 0.0 ==>
      0 <= newWidth && newWidth as real <= width && 0 <= newHeight && newHeight as real <= height
  {
    if keepOriginalResolution {
      return Trunc(width), Trunc(height);
    }

    if width >= 1920.0 || height >= 1920.0 {
      newWidth := SnapTo16(width * 0.5);
      newHeight := SnapTo16(height * 0.5);
    } else if width >= 1280.0 || height >= 1280.0 {
      newWidth := SnapTo16(width * 0.75);
      newHeight := SnapTo16(height * 0.75);
    } else if width >= 960.0 || height >= 960.0 {
      FixedTierSize();
      if width > height {
        newWidth := SnapTo16(MinHeight * 0.95);
        newHeight := SnapTo16(MinWidth * 0.95);
      } else {
        newWidth := SnapTo16(MinWidth * 0.95);
        newHeight := SnapTo16(MinHeight * 0.95);
      }
    } else {
      newWidth := SnapTo16(width * 0.9);
      newHeight := SnapTo16(height * 0.9);
    }
  }

  /** The fixed middle-tier size: 95 percent of 640 by 360, snapped down to multiples of 16. */
  lemma FixedTierSize()
    ensures SnapTo16(MinHeight * 0.95) == 608 && SnapTo16(MinWidth * 0.95) == 336
  {
    assert MinHeight * 0.95 / 16.0 == 38.0;
    assert MinWidth * 0.95 / 16.0 == 21.375;
  }

  /** `getBitrate(bitrate:compressionPercentage:)`: the given percentage of a bitrate, truncated. */
  function GetBitrate(bitrate: real, compressionPercentage: real): (n: int)
    ensures 0.0 <= bitrate * (compressionPercentage / 100.0) ==>
      0 <= n && n as real <= bitrate * (compressionPercentage / 100.0) < n as real + 1.0
    ensures bitrate * (compressionPercentage / 100.0) < 0.0 ==>
      n <= 0 && bitrate * (compressionPercentage / 100.0) <= n as real < bitrate * (compressionPercentage / 100.0) + 1.0
  {
    Trunc(bitrate * (compressionPercentage / 100.0))
  }

  /** For non-negative inputs the bitrate is the integer part of the given percentage of the input. */
  lemma GetBitrateBounds(bitrate: real, compressionPercentage: real)
    requires 0.0 <= bitrate && 0.0 <= compressionPercentage
    ensures var n := GetBitrate(bitrate, compressionPercentage);
      0 <= n && n as real <= bitrate * (compressionPercentage / 100.0) < n as real + 1.0
  {
    MulNonnegative(bitrate, compressionPercentage / 100.0);
  }

  function Min(x: real, y: real): real {
    if x <= y then x else y
  }

  /**
   * The bitrate part of `getVideoSettings`: the track's estimated data rate,
   * capped at `MAX_BITRATE`, scaled by the compression percentage.
   */
  function VideoBitrate(estimatedDataRate: real, compressionPercentage: real): (n: int)
    ensures estimatedDataRate <= MaxBitrate ==> n == GetBitrate(estimatedDataRate, compressionPercentage)
    ensures estimatedDataRate >= MaxBitrate ==> n == GetBitrate(MaxBitrate, compressionPercentage)
  {
    GetBitrate(Min(estimatedDataRate, MaxBitrate), compressionPercentage)
  }

  /** For a percentage of at most 100 the bitrate never exceeds the data rate nor the cap. */
  lemma VideoBitrateBounds(estimatedDataRate: real, compressionPercentage: real)
    requires 0.0 <= estimatedDataRate && 0.0 <= compressionPercentage <= 100.0
    ensures var n := VideoBitrate(estimatedDataRate, compressionPercentage);
      0 <= n && n as real <= estimatedDataRate && n <= 2000000
  {
    var bitrate := Min(estimatedDataRate, MaxBitrate);
    ScaledBelow(bitrate, estimatedDataRate, compressionPercentage / 100.0);
    ScaledBelow(bitrate, 2000000.0, compressionPercentage / 100.0);
  }

  lemma MulNonnegative(x: real, y: real)
    requires 0.0 <= x && 0.0 <= y
    ensures 0.0 <= x * y
  {
  }

  /** A factor between 0 and 1 keeps a rate between 0 and any bound above it. */
  lemma ScaledBelow(b: real, bound: real, f: real)
    requires 0.0 <= b <= bound && 0.0 <= f <= 1.0
    ensures 0.0 <= b * f <= bound
  {
    MulNonnegative(b, f);
    MulNonnegative(b, 1.0 - f);
  }

  /** A higher compression percentage never gives a lower bitrate. */
  lemma VideoBitrateMonotonic(estimatedDataRate: real, p: real, q: real)
    requires 0.0 <= estimatedDataRate && 0.0 <= p <= q
    ensures VideoBitrate(estimatedDataRate, p) <= VideoBitrate(estimatedDataRate, q)
  {
    var b := Min(estimatedDataRate, MaxBitrate);
    ScaledMonotonic(b, p / 100.0, q / 100.0);
    TruncMonotonic(b * (p / 100.0), b * (q / 100.0));
  }

  lemma ScaledMonotonic(b: real, f: real, g: real)
    requires 0.0 <= b && f <= g
    ensures b * f <= b * g
  {
    MulNonnegative(b, g - f);
  }

  /** Above the cap the data rate plays no part: every such track gets the same bitrate. */
  lemma VideoBitrateCapped(estimatedDataRate: real, compressionPercentage: real)
    requires estimatedDataRate >= MaxBitrate
    ensures VideoBitrate(estimatedDataRate, compressionPercentage) == VideoBitrate(MaxBitrate, compressionPercentage)
  {
  }

  /**
   * The progress formula `($0 + $1) / ($1 > 0 ? 2 : 1)`: the video progress while
   * no audio progress has been reported, the mean of both afterwards.
   */
  function CombinedProgress(video: real, audio: real): (p: real)
    ensures audio == 0.0 ==> p == video
    ensures audio > 0.0 ==> Min(video, audio) <= p <= if video <= audio then audio else video
    ensures audio > 0.0 ==> p - video == audio - p
    ensures 0.0 <= video <= 1.0 && 0.0 <= audio <= 1.0 ==> 0.0 <= p <= 1.0
  {
    (video + audio) / (if audio > 0.0 then 2.0 else 1.0)
  }

  /**
   * The progress state of one compressor: the latest video and audio progress
   * sent to its two subjects, both starting at 0.
   */
  class VideoCompressor {
    var videoProgress: real
    var audioProgress: real

    constructor ()
      ensures videoProgress == 0.0 && audioProgress == 0.0
      ensures Progress() == 0.0
    {
      videoProgress := 0.0;
      audioProgress := 0.0;
    }

    /** The value of `compressionProgress`, which follows the latest pair of inputs. */
    function Progress(): real
      reads this
    {
      CombinedProgress(videoProgress, audioProgress)
    }

    /** `videoCompressionProgress.send(per)`. */
    method SendVideoProgress(per: real)
      modifies this
      ensures videoProgress == per && audioProgress == old(audioProgress)
      ensures Progress() == CombinedProgress(per, old(audioProgress))
    {
      videoProgress := per;
    }

    /** `audioCompressionProgress.send(per)`. */
    method SendAudioProgress(per: real)
      modifies this
      ensures audioProgress == per && videoProgress == old(videoProgress)
      ensures Progress() == CombinedProgress(old(videoProgress), per)
    {
      audioProgress := per;
    }
  }
}
