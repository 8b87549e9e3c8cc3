/**
 * The validated animation data model of pixelbuf_pi_animation/data.py.
 *
 * `Pixel`, `Frame` and `Animation` are Python dataclasses whose `__post_init__`
 * runs a fixed sequence of validators, each of which either raises `ValueError`
 * or returns. Here a dataclass is a plain datatype, each validator is a function
 * returning `Some(error)` where the source raises and `None` where it returns,
 * and each constructor (`NewPixel`, `NewFrame`, `NewAnimation`) runs the
 * validators in the source's order and yields `Ok` of the untouched record or
 * `Err` of the first failure. The `Valid*` predicates state the accepted values
 * directly, as ranges, and the constructors are proved to accept exactly them.
 */
module Data {
  import opened Wrappers

  /** One colour+brightness sample. Brightness only takes part in comparisons, so it is a real. */
  datatype Pixel = Pixel(brightness: real, red: int, green: int, blue: int)

  /**
   * One frame. The source types the pixels as `List[Pixel]` but never checks the
   * elements, and the player has a branch for absent (`None`) entries, so an
   * entry is optional.
   */
  datatype Frame = Frame(displayMs: int, pixels: seq<Option<Pixel>>)

  datatype Animation = Animation(
    frames: seq<Frame>,
    loopInfinitely: bool,
    pauseBetweenPlayMs: int,
    maxPlays: Option<int>)

  /** The colour channels, in the order `_validate_color` visits them. */
  datatype Channel = Red | Green | Blue

  /** The `ValueError`s raised by the validators, carrying the offending value. */
  datatype ValidationError =
    | BrightnessOutOfRange(brightness: real)
    | ColorOutOfRange(channel: Channel, value: int)
    | DisplayMsTooSmall(displayMs: int)
    | NoPixels
    | NoFrames
    | NegativePause(pause: int)
    | NegativeMaxPlays(maxPlays: int)
    | MaxPlaysWithInfiniteLoop(maxPlays: int)

  const MinBrightness: real := 0.0
  const MaxBrightness: real := 1.0
  const MinColor: int := 0
  const MaxColor: int := 255
  const MinDisplayMs: int := 1
  const MinPixels: int := 1
  const MinFrames: int := 1

  // ---------------------------------------------------------------------------
  // Reference predicates: what each constructor accepts, stated as ranges.
  // ---------------------------------------------------------------------------

  predicate InColorRange(v: int) {
    MinColor <= v <= MaxColor
  }

  predicate ValidPixel(p: Pixel) {
    MinBrightness <= p.brightness <= MaxBrightness
    && InColorRange(p.red) && InColorRange(p.green) && InColorRange(p.blue)
  }

  predicate ValidFrame(f: Frame) {
    f.displayMs >= MinDisplayMs && |f.pixels| >= MinPixels
  }

  /**
   * What `Animation.__post_init__` accepts: frames present, a non-negative pause,
   * a non-negative play count, and no non-zero play count alongside infinite
   * looping. A play count of 0 is accepted together with infinite looping,
   * because the source tests the count by truthiness.
   */
  predicate ValidAnimation(a: Animation) {
    |a.frames| >= MinFrames
    && a.pauseBetweenPlayMs >= 0
    && (a.maxPlays.Some? ==> a.maxPlays.value >= 0)
    && (a.maxPlays.Some? && a.loopInfinitely ==> a.maxPlays.value == 0)
  }

  /**
   * An animation whose every object went through its own constructor: the
   * animation, each of its frames and each present pixel of each frame.
   */
  predicate WellFormed(a: Animation) {
    ValidAnimation(a)
    && (forall i :: 0 <= i < |a.frames| ==> ValidFrame(a.frames[i]))
    && (forall i, j :: 0 <= i < |a.frames| && 0 <= j < |a.frames[i].pixels| && a.frames[i].pixels[j].Some?
          ==> ValidPixel(a.frames[i].pixels[j].value))
  }

  // ---------------------------------------------------------------------------
  // Pixel
  // ---------------------------------------------------------------------------

  /** `_validate_brightness`: raises when the brightness lies outside [0.0, 1.0]. */
  function ValidateBrightness(p: Pixel): (r: Option<ValidationError>)
    ensures r.None? <==> MinBrightness <= p.brightness <= MaxBrightness
    ensures r.Some? ==> r.value == BrightnessOutOfRange(p.brightness)
  {
    if p.brightness < MinBrightness || p.brightness > MaxBrightness then
      Some(BrightnessOutOfRange(p.brightness))
    else
      None
  }

  /** The `colors` dict of `_validate_color`, in its insertion order. */
  function Channels(p: Pixel): seq<(Channel, int)> {
    [(Red, p.red), (Green, p.green), (Blue, p.blue)]
  }

  /** The position of the first entry whose value is out of range, as the `for` over the dict finds it. */
  function FirstOutOfRange(cs: seq<(Channel, int)>): (r: Option<nat>)
    ensures r.None? <==> forall i :: 0 <= i < |cs| ==> InColorRange(cs[i].1)
    ensures r.Some? ==> r.value < |cs| && !InColorRange(cs[r.value].1)
    ensures r.Some? ==> forall i :: 0 <= i < r.value ==> InColorRange(cs[i].1)
  {
    if cs == [] then None
    else if cs[0].1 < MinColor || cs[0].1 > MaxColor then Some(0)
    else
      match FirstOutOfRange(cs[1..])
      case None => None
      case Some(k) => Some(k + 1)
  }

  /**
   * `_validate_color`: raises for the first out-of-range channel in the order
   * red, green, blue, naming that channel and its value.
   */
  function ValidateColor(p: Pixel): (r: Option<ValidationError>)
    ensures r.None? <==> InColorRange(p.red) && InColorRange(p.green) && InColorRange(p.blue)
    ensures !InColorRange(p.red) ==> r == Some(ColorOutOfRange(Red, p.red))
    ensures InColorRange(p.red) && !InColorRange(p.green) ==> r == Some(ColorOutOfRange(Green, p.green))
    ensures InColorRange(p.red) && InColorRange(p.green) && !InColorRange(p.blue) ==>
              r == Some(ColorOutOfRange(Blue, p.blue))
  {
    var cs := Channels(p);
    assert cs[0] == (Red, p.red) && cs[1] == (Green, p.green) && cs[2] == (Blue, p.blue);
    match FirstOutOfRange(cs)
    case None => None
    case Some(k) => Some(ColorOutOfRange(cs[k].0, cs[k].1))
  }

  /**
   * `Pixel(brightness, red, green, blue)`: accepts exactly the valid pixels,
   * returns them unaltered, and checks brightness before colour.
   */
  function NewPixel(brightness: real, red: int, green: int, blue: int): (r: Result<Pixel, ValidationError>)
    ensures r.Ok? <==> ValidPixel(Pixel(brightness, red, green, blue))
    ensures r.Ok? ==> r.value == Pixel(brightness, red, green, blue)
    ensures !(MinBrightness <= brightness <= MaxBrightness) ==> r == Err(BrightnessOutOfRange(brightness))
    ensures MinBrightness <= brightness <= MaxBrightness && r.Err? ==>
              Some(r.error) == ValidateColor(Pixel(brightness, red, green, blue))
  {
    var p := Pixel(brightness, red, green, blue);
    match ValidateBrightness(p)
    case Some(e) => Err(e)
    case None =>
      match ValidateColor(p)
      case Some(e) => Err(e)
      case None => Ok(p)
  }

  // ---------------------------------------------------------------------------
  // Frame
  // ---------------------------------------------------------------------------

  /** `_validate_display_ms`: raises when the duration is below 1 ms. */
  function ValidateDisplayMs(f: Frame): (r: Option<ValidationError>)
    ensures r.None? <==> f.displayMs >= MinDisplayMs
    ensures r.Some? ==> r.value == DisplayMsTooSmall(f.displayMs)
  {
    if f.displayMs < MinDisplayMs then Some(DisplayMsTooSmall(f.displayMs)) else None
  }

  /** `_validate_pixels`: raises when the frame has no pixel entries. */
  function ValidatePixels(f: Frame): (r: Option<ValidationError>)
    ensures r.None? <==> f.pixels != []
    ensures r.Some? ==> r.value == NoPixels
  {
    if |f.pixels| < MinPixels then Some(NoPixels) else None
  }

  /**
   * `Frame(display_ms, pixels)`: accepts exactly the valid frames, returns them
   * unaltered, and reports the duration before the pixel count.
   */
  function NewFrame(displayMs: int, pixels: seq<Option<Pixel>>): (r: Result<Frame, ValidationError>)
    ensures r.Ok? <==> ValidFrame(Frame(displayMs, pixels))
    ensures r.Ok? ==> r.value == Frame(displayMs, pixels)
    ensures displayMs < MinDisplayMs ==> r == Err(DisplayMsTooSmall(displayMs))
    ensures displayMs >= MinDisplayMs && pixels == [] ==> r == Err(NoPixels)
  {
    var f := Frame(displayMs, pixels);
    match ValidateDisplayMs(f)
    case Some(e) => Err(e)
    case None =>
      match ValidatePixels(f)
      case Some(e) => Err(e)
      case None => Ok(f)
  }

  // ---------------------------------------------------------------------------
  // Animation
  // ---------------------------------------------------------------------------

  /** Python truthiness of an `Optional[int]`: `None` and `0` are both false. */
  predicate Truthy(m: Option<int>) {
    m.Some? && m.value != 0
  }

  /** `_validate_frames`: raises when there are no frames. */
  function ValidateFrames(a: Animation): (r: Option<ValidationError>)
    ensures r.None? <==> a.frames != []
    ensures r.Some? ==> r.value == NoFrames
  {
    if |a.frames| < MinFrames then Some(NoFrames) else None
  }

  /** `_validate_pause_between_play_ms`: raises when the pause is negative. */
  function ValidatePause(a: Animation): (r: Option<ValidationError>)
    ensures r.None? <==> a.pauseBetweenPlayMs >= 0
    ensures r.Some? ==> r.value == NegativePause(a.pauseBetweenPlayMs)
  {
    if a.pauseBetweenPlayMs < 0 then Some(NegativePause(a.pauseBetweenPlayMs)) else None
  }

  /**
   * `_validate_max_plays`, with both of its `if self.max_plays and ...` tests
   * kept as truthiness tests: a negative count is refused first, then a
   * non-zero count together with infinite looping; `None` and `0` always pass.
   */
  function ValidateMaxPlays(a: Animation): (r: Option<ValidationError>)
    ensures r.None? <==> (a.maxPlays.Some? ==> a.maxPlays.value >= 0)
                         && (a.maxPlays.Some? && a.loopInfinitely ==> a.maxPlays.value == 0)
    ensures a.maxPlays.Some? && a.maxPlays.value < 0 ==> r == Some(NegativeMaxPlays(a.maxPlays.value))
    ensures a.maxPlays.Some? && a.maxPlays.value > 0 && a.loopInfinitely ==>
              r == Some(MaxPlaysWithInfiniteLoop(a.maxPlays.value))
    ensures a.maxPlays == None || a.maxPlays == Some(0) ==> r == None
  {
    if Truthy(a.maxPlays) && a.maxPlays.value < 0 then Some(NegativeMaxPlays(a.maxPlays.value))
    else if Truthy(a.maxPlays) && a.loopInfinitely then Some(MaxPlaysWithInfiniteLoop(a.maxPlays.value))
    else None
  }

  /**
   * `Animation(frames, loop_infinitely, pause_between_play_ms, max_plays)`:
   * accepts exactly the valid animations, returns them unaltered, and checks
   * frames, then pause, then the play count.
   */
  function NewAnimation(frames: seq<Frame>, loopInfinitely: bool, pauseBetweenPlayMs: int, maxPlays: Option<int>)
    : (r: Result<Animation, ValidationError>)
    ensures r.Ok? <==> ValidAnimation(Animation(frames, loopInfinitely, pauseBetweenPlayMs, maxPlays))
    ensures r.Ok? ==> r.value == Animation(frames, loopInfinitely, pauseBetweenPlayMs, maxPlays)
    ensures frames == [] ==> r == Err(NoFrames)
    ensures frames != [] && pauseBetweenPlayMs < 0 ==> r == Err(NegativePause(pauseBetweenPlayMs))
    ensures frames != [] && pauseBetweenPlayMs >= 0 && r.Err? ==>
              Some(r.error) == ValidateMaxPlays(Animation(frames, loopInfinitely, pauseBetweenPlayMs, maxPlays))
  {
    var a := Animation(frames, loopInfinitely, pauseBetweenPlayMs, maxPlays);
    match ValidateFrames(a)
    case Some(e) => Err(e)
    case None =>
      match ValidatePause(a)
      case Some(e) => Err(e)
      case None =>
        match ValidateMaxPlays(a)
        case Some(e) => Err(e)
        case None => Ok(a)
  }

  /** `Animation.__len__`: the number of frames, which is 0 exactly when the animation is falsy. */
  function Len(a: Animation): (n: nat)
    ensures n == |a.frames|
    ensures n == 0 <==> a.frames == []
  {
    |a.frames|
  }

  /** Reference definition of the total: the durations added up, the last frame's added last. */
  function SumDisplayMs(frames: seq<Frame>): int {
    if frames == [] then 0 else SumDisplayMs(frames[..|frames| - 1]) + frames[|frames| - 1].displayMs
  }

  lemma {:induction false} SumDisplayMsCons(f: Frame, frames: seq<Frame>)
    ensures SumDisplayMs([f] + frames) == f.displayMs + SumDisplayMs(frames)
    decreases |frames|
  {
    if frames != [] {
      var n := |frames|;
      assert ([f] + frames)[..n] == [f] + frames[..n - 1];
      SumDisplayMsCons(f, frames[..n - 1]);
    }
  }

  /**
   * The `functools.reduce` of `frame_total_time_ms`: a left fold adding each
   * frame's duration to `acc`, which adds exactly the sum of the durations.
   */
  function FoldDisplayMs(acc: int, frames: seq<Frame>): (r: int)
    ensures r == acc + SumDisplayMs(frames)
    decreases |frames|
  {
    if frames == [] then acc
    else
      SumDisplayMsCons(frames[0], frames[1..]);
      assert [frames[0]] + frames[1..] == frames;
      FoldDisplayMs(acc + frames[0].displayMs, frames[1..])
  }

  /** `frame_total_time_ms`: the fold started at 0, so the sum of the frames' durations. */
  function FrameTotalTime(a: Animation): (t: int)
    ensures t == SumDisplayMs(a.frames)
  {
    FoldDisplayMs(0, a.frames)
  }

  lemma {:induction false} SumDisplayMsAtLeastCount(frames: seq<Frame>)
    requires forall i :: 0 <= i < |frames| ==> ValidFrame(frames[i])
    ensures SumDisplayMs(frames) >= |frames|
  {
    if frames != [] {
      SumDisplayMsAtLeastCount(frames[..|frames| - 1]);
    }
  }

  /**
   * `frame_total_time_ms` is the sum of the frames' durations, and for an
   * animation built through the constructors it is at least `len(animation)`,
   * which is at least 1.
   */
  lemma FrameTotalTimeBound(a: Animation)
    requires WellFormed(a)
    ensures FrameTotalTime(a) == SumDisplayMs(a.frames)
    ensures FrameTotalTime(a) >= Len(a) >= 1
  {
    SumDisplayMsAtLeastCount(a.frames);
  }

  /** Frames lasting 10, 20 and 30 ms give a total of 60 ms. */
  lemma FrameTotalTimeExample(p: Pixel)
    ensures FrameTotalTime(Animation([Frame(10, [Some(p)]), Frame(20, [Some(p)]), Frame(30, [None])], false, 0, Some(1))) == 60
  {
    var f1, f2, f3 := Frame(10, [Some(p)]), Frame(20, [Some(p)]), Frame(30, [None]);
    assert [f1, f2, f3][1..] == [f2, f3] && [f2, f3][1..] == [f3];
    assert FoldDisplayMs(30, [f3]) == 60;
    assert FoldDisplayMs(10, [f2, f3]) == FoldDisplayMs(30, [f3]);
    assert FoldDisplayMs(0, [f1, f2, f3]) == FoldDisplayMs(10, [f2, f3]);
  }
}
