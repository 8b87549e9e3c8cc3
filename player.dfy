/**
 * The playback state machine of pixelbuf_pi_animation/player.py.
 *
 * `SimplePixelBufPlayer` holds a pixel controller and an optional loaded
 * animation. The Adafruit `PixelBuf` controller and `time.sleep` are replaced by
 * one `Sink` object that records, in order, every call the player makes on
 * them: a pixel assignment, `show()`, `fill()` and a sleep of so many
 * milliseconds. The trace a call to `play()` appends is specified by the
 * function `PlayRun`, built from `FrameTrace` (one frame), `PassTrace` (one pass
 * over all frames plus the inter-play pause) and `Repeat`; the lemmas below
 * count what such a trace contains.
 */
module Player {
  import opened Wrappers
  import opened Data

  /**
   * The tuple assigned to `controller[index]`: the three colour slots in the
   * order the driver reads them, then the brightness.
   */
  datatype SinkColor = SinkColor(r: int, g: int, b: int, brightness: real)

  /** One call on the controller or on `sleep`. */
  datatype Event =
    | Set(index: int, color: SinkColor)  // controller[index] = color
    | Show                                // controller.show()
    | Sleep(ms: int)                      // sleep(ms / 1000)
    | Fill(r: int, g: int, b: int)        // controller.fill((r, g, b))

  datatype Kind = SetKind | ShowKind | SleepKind | FillKind

  /** How `play()` ends: normally, with the `RuntimeError` for a missing animation, or with the `TypeError` of `loop_count >= None`. */
  datatype Outcome = Stopped | NotLoaded | MaxPlaysUnset

  /** The events one call to `play()` emits, and how it ends. */
  datatype Run = Run(trace: seq<Event>, outcome: Outcome)

  /** The colour written for an absent pixel entry: black at full brightness. */
  const Placeholder: SinkColor := SinkColor(0, 0, 0, 1.0)

  /** The final `fill((0, 0, 0))` that darkens the strand. */
  const Dark: Event := Fill(0, 0, 0)

  predicate InSinkRange(c: SinkColor) {
    InColorRange(c.r) && InColorRange(c.g) && InColorRange(c.b)
    && MinBrightness <= c.brightness <= MaxBrightness
  }

  /**
   * The tuple the player writes for one pixel entry. A present pixel goes out as
   * `(red, blue, green, brightness)`, so the driver's green slot receives the
   * pixel's blue and its blue slot the pixel's green.
   */
  function Rendered(p: Option<Pixel>): (c: SinkColor)
    ensures p.None? ==> c == Placeholder
    ensures p.Some? ==> c.r == p.value.red && c.g == p.value.blue && c.b == p.value.green
    ensures p.Some? ==> c.brightness == p.value.brightness
    ensures (p.Some? ==> ValidPixel(p.value)) ==> InSinkRange(c)
  {
    match p
    case None => Placeholder
    case Some(px) => SinkColor(px.red, px.blue, px.green, px.brightness)
  }

  // ---------------------------------------------------------------------------
  // The traces play() emits
  // ---------------------------------------------------------------------------

  /** The pixel writes of one frame: entry `i` written to index `i`, in order. */
  function FrameWrites(pixels: seq<Option<Pixel>>): seq<Event> {
    if pixels == [] then []
    else FrameWrites(pixels[..|pixels| - 1]) + [Set(|pixels| - 1, Rendered(pixels[|pixels| - 1]))]
  }

  /** One frame: its writes, then `show()`, then a sleep of its duration. */
  function FrameTrace(f: Frame): seq<Event> {
    FrameWrites(f.pixels) + [Show, Sleep(f.displayMs)]
  }

  /** The frames of a pass, in order. */
  function FramesTrace(frames: seq<Frame>): seq<Event> {
    if frames == [] then []
    else FramesTrace(frames[..|frames| - 1]) + FrameTrace(frames[|frames| - 1])
  }

  /** One pass: every frame in order, then the inter-play pause. */
  function PassTrace(a: Animation): seq<Event> {
    FramesTrace(a.frames) + [Sleep(a.pauseBetweenPlayMs)]
  }

  /** `n` copies of `t`, one after another. */
  function Repeat(t: seq<Event>, n: nat): seq<Event> {
    if n == 0 then [] else Repeat(t, n - 1) + t
  }

  /**
   * How many passes the `while True` loop runs before `loop_count >= max_plays`
   * breaks it: the least count of at least 1 (the test follows the first pass)
   * that reaches `maxPlays`.
   */
  function PassCount(maxPlays: int): (n: nat)
    ensures n >= 1 && n >= maxPlays
    ensures n > 1 ==> n - 1 < maxPlays
  {
    if maxPlays <= 1 then 1 else maxPlays
  }

  /** `not self._animation` is false: an animation is present and, by `__len__`, has frames. */
  predicate Loaded(anim: Option<Animation>)
    ensures Loaded(anim) ==> anim.Some? && anim.value.frames != []
    ensures anim.Some? && ValidAnimation(anim.value) ==> Loaded(anim)
  {
    anim.Some? && Len(anim.value) != 0
  }

  /** `play()` would never leave its loop: a truthy animation set to loop infinitely. */
  predicate LoopsForever(anim: Option<Animation>) {
    Loaded(anim) && anim.value.loopInfinitely
  }

  /**
   * What one call to `play()` emits and how it ends, for every loaded value
   * that does not loop forever: nothing and `NotLoaded` when nothing truthy is
   * loaded; one pass and the `TypeError` when `max_plays` is `None`; otherwise
   * `PassCount` passes followed by `fill((0, 0, 0))` and `show()`.
   */
  function PlayRun(anim: Option<Animation>): (run: Run)
    requires !LoopsForever(anim)
    ensures run.outcome == NotLoaded <==> !Loaded(anim)
    ensures run.outcome == NotLoaded ==> run.trace == []
    ensures run.outcome == Stopped ==>
              |run.trace| >= 2 && run.trace[|run.trace| - 2..] == [Dark, Show]
    ensures run.outcome == MaxPlaysUnset <==> Loaded(anim) && anim.value.maxPlays.None?
    ensures run.outcome == MaxPlaysUnset ==> run.trace == PassTrace(anim.value)
  {
    if !Loaded(anim) then Run([], NotLoaded)
    else
      var a := anim.value;
      match a.maxPlays
      case None => Run(PassTrace(a), MaxPlaysUnset)
      case Some(m) => Run(Repeat(PassTrace(a), PassCount(m)) + [Dark, Show], Stopped)
  }

  /** The first `k` passes of an animation that loops forever: `loop_count` never moves, so they are all alike. */
  function LoopingPrefix(a: Animation, k: nat): (t: seq<Event>)
    ensures |t| == k * |PassTrace(a)|
    ensures k > 0 ==> t == LoopingPrefix(a, k - 1) + PassTrace(a)
  {
    RepeatLength(PassTrace(a), k);
    Repeat(PassTrace(a), k)
  }

  // ---------------------------------------------------------------------------
  // Counting events
  // ---------------------------------------------------------------------------

  function KindOf(e: Event): Kind {
    match e
    case Set(_, _) => SetKind
    case Show => ShowKind
    case Sleep(_) => SleepKind
    case Fill(_, _, _) => FillKind
  }

  /** The number of events of kind `k` in `t`. */
  function Count(t: seq<Event>, k: Kind): nat {
    if t == [] then 0 else Count(t[..|t| - 1], k) + (if KindOf(t[|t| - 1]) == k then 1 else 0)
  }

  /** The number of events in `t` equal to `e`. */
  function Occurrences(t: seq<Event>, e: Event): nat {
    if t == [] then 0 else Occurrences(t[..|t| - 1], e) + (if t[|t| - 1] == e then 1 else 0)
  }

  /** The number of pixel entries over all the frames. */
  function PixelTotal(frames: seq<Frame>): nat {
    if frames == [] then 0 else PixelTotal(frames[..|frames| - 1]) + |frames[|frames| - 1].pixels|
  }

  /** The number of frames lasting exactly `ms`. */
  function FramesLasting(frames: seq<Frame>, ms: int): nat {
    if frames == [] then 0
    else FramesLasting(frames[..|frames| - 1], ms) + (if frames[|frames| - 1].displayMs == ms then 1 else 0)
  }

  lemma {:induction false} CountAppend(s: seq<Event>, t: seq<Event>, k: Kind)
    ensures Count(s + t, k) == Count(s, k) + Count(t, k)
    decreases |t|
  {
    if t == [] {
      assert s + t == s;
    } else {
      assert (s + t)[..|s + t| - 1] == s + t[..|t| - 1];
      CountAppend(s, t[..|t| - 1], k);
    }
  }

  lemma {:induction false} OccurrencesAppend(s: seq<Event>, t: seq<Event>, e: Event)
    ensures Occurrences(s + t, e) == Occurrences(s, e) + Occurrences(t, e)
    decreases |t|
  {
    if t == [] {
      assert s + t == s;
    } else {
      assert (s + t)[..|s + t| - 1] == s + t[..|t| - 1];
      OccurrencesAppend(s, t[..|t| - 1], e);
    }
  }

  lemma CountSingle(e: Event, k: Kind)
    ensures Count([e], k) == if KindOf(e) == k then 1 else 0
    ensures forall d :: Occurrences([e], d) == if e == d then 1 else 0
  {
  }

  /** A trace with no event of kind `k` has none at any position. */
  lemma {:induction false} CountZero(t: seq<Event>, k: Kind)
    requires Count(t, k) == 0
    ensures forall i :: 0 <= i < |t| ==> KindOf(t[i]) != k
    decreases |t|
  {
    if t != [] {
      CountZero(t[..|t| - 1], k);
      assert forall i :: 0 <= i < |t| - 1 ==> t[i] == t[..|t| - 1][i];
    }
  }

  // ---------------------------------------------------------------------------
  // The shape of one frame and one pass
  // ---------------------------------------------------------------------------

  /** Pixel entry `i` of a frame is written, as `Rendered`, to controller index `i`, in order. */
  lemma {:induction false} FrameWritesAt(pixels: seq<Option<Pixel>>, i: int)
    requires 0 <= i < |pixels|
    ensures |FrameWrites(pixels)| == |pixels|
    ensures FrameWrites(pixels)[i] == Set(i, Rendered(pixels[i]))
    decreases |pixels|
  {
    var n := |pixels|;
    if i < n - 1 {
      FrameWritesAt(pixels[..n - 1], i);
    } else if n > 1 {
      FrameWritesAt(pixels[..n - 1], 0);
    }
  }

  /**
   * One frame is exactly its pixel writes, index by index, followed by one
   * `show()` and one sleep of the frame's duration.
   */
  lemma FrameTraceShape(f: Frame)
    ensures |FrameTrace(f)| == |f.pixels| + 2
    ensures forall i :: 0 <= i < |f.pixels| ==> FrameTrace(f)[i] == Set(i, Rendered(f.pixels[i]))
    ensures FrameTrace(f)[|f.pixels|] == Show && FrameTrace(f)[|f.pixels| + 1] == Sleep(f.displayMs)
  {
    if f.pixels != [] {
      FrameWritesAt(f.pixels, 0);
    }
    forall i | 0 <= i < |f.pixels|
      ensures FrameTrace(f)[i] == Set(i, Rendered(f.pixels[i]))
    {
      FrameWritesAt(f.pixels, i);
    }
  }

  lemma {:induction false} FramesTraceAppend(xs: seq<Frame>, ys: seq<Frame>)
    ensures FramesTrace(xs + ys) == FramesTrace(xs) + FramesTrace(ys)
    decreases |ys|
  {
    if ys == [] {
      assert xs + ys == xs;
    } else {
      var n, zs := |ys|, xs + ys;
      assert zs[..|zs| - 1] == xs + ys[..n - 1] && zs[|zs| - 1] == ys[n - 1];
      assert FramesTrace(zs) == FramesTrace(xs + ys[..n - 1]) + FrameTrace(ys[n - 1]);
      FramesTraceAppend(xs, ys[..n - 1]);
      assert FramesTrace(ys) == FramesTrace(ys[..n - 1]) + FrameTrace(ys[n - 1]);
    }
  }

  /** Within a pass, frame `k` is rendered whole, after every earlier frame and before every later one. */
  lemma FrameInPass(a: Animation, k: int)
    requires 0 <= k < |a.frames|
    ensures PassTrace(a) ==
              FramesTrace(a.frames[..k]) + FrameTrace(a.frames[k]) + FramesTrace(a.frames[k + 1..])
              + [Sleep(a.pauseBetweenPlayMs)]
  {
    var fs := a.frames;
    assert fs == fs[..k] + [fs[k]] + fs[k + 1..];
    FramesTraceAppend(fs[..k] + [fs[k]], fs[k + 1..]);
    FramesTraceAppend(fs[..k], [fs[k]]);
    assert FramesTrace([fs[k]]) == FrameTrace(fs[k]) by {
      assert [fs[k]][..0] == [];
    }
  }

  // ---------------------------------------------------------------------------
  // Event counts of a frame, a pass, repeated passes and a whole play()
  // ---------------------------------------------------------------------------

  lemma {:induction false} FrameWritesCounts(pixels: seq<Option<Pixel>>, k: Kind, e: Event)
    requires !e.Set?
    ensures Count(FrameWrites(pixels), k) == if k == SetKind then |pixels| else 0
    ensures Occurrences(FrameWrites(pixels), e) == 0
    decreases |pixels|
  {
    if pixels != [] {
      var n := |pixels|;
      FrameWritesCounts(pixels[..n - 1], k, e);
      CountAppend(FrameWrites(pixels[..n - 1]), [Set(n - 1, Rendered(pixels[n - 1]))], k);
      OccurrencesAppend(FrameWrites(pixels[..n - 1]), [Set(n - 1, Rendered(pixels[n - 1]))], e);
    }
  }

  /** One frame holds one write per pixel entry, one `show()`, one sleep (of its duration) and no fill. */
  lemma FrameCounts(f: Frame, ms: int)
    ensures Count(FrameTrace(f), SetKind) == |f.pixels|
    ensures Count(FrameTrace(f), ShowKind) == 1
    ensures Count(FrameTrace(f), SleepKind) == 1
    ensures Count(FrameTrace(f), FillKind) == 0
    ensures Occurrences(FrameTrace(f), Sleep(ms)) == if ms == f.displayMs then 1 else 0
  {
    var w := FrameWrites(f.pixels);
    assert FrameTrace(f) == (w + [Show]) + [Sleep(f.displayMs)];
    CountSingle(Show, SetKind);
    CountSingle(Sleep(f.displayMs), SetKind);
    forall k: Kind
      ensures Count(FrameTrace(f), k) == Count(w, k) + Count([Show], k) + Count([Sleep(f.displayMs)], k)
    {
      CountAppend(w + [Show], [Sleep(f.displayMs)], k);
      CountAppend(w, [Show], k);
    }
    CountSingle(Show, ShowKind);
    CountSingle(Show, SleepKind);
    CountSingle(Show, FillKind);
    CountSingle(Sleep(f.displayMs), ShowKind);
    CountSingle(Sleep(f.displayMs), SleepKind);
    CountSingle(Sleep(f.displayMs), FillKind);
    FrameWritesCounts(f.pixels, SetKind, Sleep(ms));
    FrameWritesCounts(f.pixels, ShowKind, Sleep(ms));
    FrameWritesCounts(f.pixels, SleepKind, Sleep(ms));
    FrameWritesCounts(f.pixels, FillKind, Sleep(ms));
    OccurrencesAppend(w + [Show], [Sleep(f.displayMs)], Sleep(ms));
    OccurrencesAppend(w, [Show], Sleep(ms));
  }

  lemma {:induction false} FramesCounts(frames: seq<Frame>, ms: int)
    ensures Count(FramesTrace(frames), SetKind) == PixelTotal(frames)
    ensures Count(FramesTrace(frames), ShowKind) == |frames|
    ensures Count(FramesTrace(frames), SleepKind) == |frames|
    ensures Count(FramesTrace(frames), FillKind) == 0
    ensures Occurrences(FramesTrace(frames), Sleep(ms)) == FramesLasting(frames, ms)
    decreases |frames|
  {
    if frames != [] {
      var n := |frames|;
      var init, last := frames[..n - 1], frames[n - 1];
      FramesCounts(init, ms);
      FrameCounts(last, ms);
      CountAppend(FramesTrace(init), FrameTrace(last), SetKind);
      CountAppend(FramesTrace(init), FrameTrace(last), ShowKind);
      CountAppend(FramesTrace(init), FrameTrace(last), SleepKind);
      CountAppend(FramesTrace(init), FrameTrace(last), FillKind);
      OccurrencesAppend(FramesTrace(init), FrameTrace(last), Sleep(ms));
    }
  }

  /**
   * One pass writes every pixel entry of every frame once, shows once per
   * frame, sleeps once per frame and once more for the pause, and never fills.
   */
  lemma PassCounts(a: Animation, ms: int)
    ensures Count(PassTrace(a), SetKind) == PixelTotal(a.frames)
    ensures Count(PassTrace(a), ShowKind) == |a.frames|
    ensures Count(PassTrace(a), SleepKind) == |a.frames| + 1
    ensures Count(PassTrace(a), FillKind) == 0
    ensures Occurrences(PassTrace(a), Sleep(ms)) ==
              FramesLasting(a.frames, ms) + (if ms == a.pauseBetweenPlayMs then 1 else 0)
  {
    var tail := [Sleep(a.pauseBetweenPlayMs)];
    CountSingle(tail[0], SetKind);
    CountSingle(tail[0], ShowKind);
    CountSingle(tail[0], SleepKind);
    CountSingle(tail[0], FillKind);
    FramesCounts(a.frames, ms);
    CountAppend(FramesTrace(a.frames), tail, SetKind);
    CountAppend(FramesTrace(a.frames), tail, ShowKind);
    CountAppend(FramesTrace(a.frames), tail, SleepKind);
    CountAppend(FramesTrace(a.frames), tail, FillKind);
    OccurrencesAppend(FramesTrace(a.frames), tail, Sleep(ms));
  }

  lemma {:induction false} RepeatLength(t: seq<Event>, n: nat)
    ensures |Repeat(t, n)| == n * |t|
  {
    if n > 0 {
      RepeatLength(t, n - 1);
      assert n * |t| == (n - 1) * |t| + |t|;
    }
  }

  lemma {:induction false} RepeatCount(t: seq<Event>, n: nat, k: Kind)
    ensures Count(Repeat(t, n), k) == n * Count(t, k)
  {
    if n > 0 {
      RepeatCount(t, n - 1, k);
      CountAppend(Repeat(t, n - 1), t, k);
      assert n * Count(t, k) == (n - 1) * Count(t, k) + Count(t, k);
    }
  }

  lemma {:induction false} RepeatOccurrences(t: seq<Event>, n: nat, e: Event)
    ensures Occurrences(Repeat(t, n), e) == n * Occurrences(t, e)
  {
    if n > 0 {
      RepeatOccurrences(t, n - 1, e);
      OccurrencesAppend(Repeat(t, n - 1), t, e);
      assert n * Occurrences(t, e) == (n - 1) * Occurrences(t, e) + Occurrences(t, e);
    }
  }

  /**
   * A finite `play()` with `max_plays = m` runs `PassCount(m)` passes (`m`
   * passes when `m >= 1`, one when `m = 0`): one write per pixel entry per
   * pass, one `show()` per frame per pass plus the final one, the per-frame
   * and inter-play sleeps once per pass, and exactly one fill.
   */
  lemma PlayCounts(a: Animation, ms: int)
    requires Loaded(Some(a)) && !a.loopInfinitely && a.maxPlays.Some?
    ensures PlayRun(Some(a)).outcome == Stopped
    ensures var n, t := PassCount(a.maxPlays.value), PlayRun(Some(a)).trace;
            && Count(t, SetKind) == n * PixelTotal(a.frames)
            && Count(t, ShowKind) == n * |a.frames| + 1
            && Count(t, SleepKind) == n * (|a.frames| + 1)
            && Count(t, FillKind) == 1
            && Occurrences(t, Sleep(ms)) ==
                 n * (FramesLasting(a.frames, ms) + (if ms == a.pauseBetweenPlayMs then 1 else 0))
  {
    var n, p := PassCount(a.maxPlays.value), PassTrace(a);
    var r := Repeat(p, n);
    assert PlayRun(Some(a)).trace == (r + [Dark]) + [Show];
    PassCounts(a, ms);
    forall k: Kind
      ensures Count(PlayRun(Some(a)).trace, k) == n * Count(p, k) + Count([Dark], k) + Count([Show], k)
    {
      RepeatCount(p, n, k);
      CountAppend(r + [Dark], [Show], k);
      CountAppend(r, [Dark], k);
      CountSingle(Dark, k);
      CountSingle(Show, k);
    }
    CountSingle(Dark, SetKind);
    CountSingle(Dark, ShowKind);
    CountSingle(Dark, SleepKind);
    CountSingle(Dark, FillKind);
    CountSingle(Show, SetKind);
    CountSingle(Show, ShowKind);
    CountSingle(Show, SleepKind);
    CountSingle(Show, FillKind);
    RepeatOccurrences(p, n, Sleep(ms));
    OccurrencesAppend(r + [Dark], [Show], Sleep(ms));
    OccurrencesAppend(r, [Dark], Sleep(ms));
  }

  /**
   * The example of two frames of ten pixels (100 ms and 200 ms), no infinite
   * loop, three plays and a 50 ms pause: 60 writes, 6 frame shows plus the
   * final one, three sleeps each of 100, 200 and 50 ms, and one fill.
   */
  lemma PlaybackExample(p: Pixel)
    ensures var a := Animation([Frame(100, seq(10, _ => Some(p))), Frame(200, seq(10, _ => Some(p)))], false, 50, Some(3));
            var run := PlayRun(Some(a));
            && run.outcome == Stopped
            && Count(run.trace, SetKind) == 60
            && Count(run.trace, ShowKind) == 7
            && Occurrences(run.trace, Sleep(100)) == 3
            && Occurrences(run.trace, Sleep(200)) == 3
            && Occurrences(run.trace, Sleep(50)) == 3
            && Count(run.trace, FillKind) == 1
  {
    var a := Animation([Frame(100, seq(10, _ => Some(p))), Frame(200, seq(10, _ => Some(p)))], false, 50, Some(3));
    var f1, f2 := a.frames[0], a.frames[1];
    assert a.frames[..1] == [f1] && [f1][..0] == [];
    assert a.frames[..|a.frames| - 1] == [f1] && a.frames[|a.frames| - 1] == f2;
    assert PixelTotal([f1]) == 10;
    assert PixelTotal(a.frames) == PixelTotal([f1]) + 10;
    forall ms: int
      ensures FramesLasting(a.frames, ms) == (if ms == 100 then 1 else 0) + (if ms == 200 then 1 else 0)
    {
      assert FramesLasting([f1], ms) == if ms == 100 then 1 else 0;
    }
    PlayCounts(a, 100);
    PlayCounts(a, 200);
    PlayCounts(a, 50);
  }

  // ---------------------------------------------------------------------------
  // Loading, the missing-animation error, and infinite looping
  // ---------------------------------------------------------------------------

  /**
   * A valid animation is truthy (it has at least one frame), so loading one
   * never leads `play()` into the missing-animation error.
   */
  lemma ValidAnimationIsLoaded(a: Animation)
    requires ValidAnimation(a)
    ensures Loaded(Some(a))
    ensures !a.loopInfinitely ==> PlayRun(Some(a)).outcome != NotLoaded
  {
  }

  /**
   * Playing an animation that loops forever never reaches the final fill: no
   * event of its first `k` passes, for any `k`, is a fill, and those `k` passes
   * are `k` times as long as one pass, which is never empty.
   */
  lemma LoopingNeverFills(a: Animation, k: nat)
    requires LoopsForever(Some(a))
    ensures |PassTrace(a)| >= 1 && |LoopingPrefix(a, k)| == k * |PassTrace(a)|
    ensures forall i :: 0 <= i < |LoopingPrefix(a, k)| ==> !LoopingPrefix(a, k)[i].Fill?
  {
    PassCounts(a, 0);
    RepeatLength(PassTrace(a), k);
    RepeatCount(PassTrace(a), k, FillKind);
    CountZero(LoopingPrefix(a, k), FillKind);
  }

  // ---------------------------------------------------------------------------
  // Every write stays in the controller's ranges
  // ---------------------------------------------------------------------------

  /** Every pixel write in `t` goes to a non-negative index with in-range colour and brightness. */
  predicate WritesInRange(t: seq<Event>) {
    forall i :: 0 <= i < |t| && t[i].Set? ==> t[i].index >= 0 && InSinkRange(t[i].color)
  }

  lemma WritesInRangeAppend(s: seq<Event>, t: seq<Event>)
    requires WritesInRange(s) && WritesInRange(t)
    ensures WritesInRange(s + t)
  {
  }

  lemma {:induction false} FramesWritesInRange(frames: seq<Frame>)
    requires forall i, j :: 0 <= i < |frames| && 0 <= j < |frames[i].pixels| && frames[i].pixels[j].Some?
               ==> ValidPixel(frames[i].pixels[j].value)
    ensures WritesInRange(FramesTrace(frames))
    decreases |frames|
  {
    if frames != [] {
      var n := |frames|;
      var last := frames[n - 1];
      FramesWritesInRange(frames[..n - 1]);
      if last.pixels != [] {
        FrameWritesAt(last.pixels, 0);
      }
      forall j | 0 <= j < |last.pixels|
        ensures FrameWrites(last.pixels)[j] == Set(j, Rendered(last.pixels[j]))
      {
        FrameWritesAt(last.pixels, j);
      }
      assert WritesInRange(FrameWrites(last.pixels));
      WritesInRangeAppend(FrameWrites(last.pixels), [Show, Sleep(last.displayMs)]);
      WritesInRangeAppend(FramesTrace(frames[..n - 1]), FrameTrace(last));
    }
  }

  lemma {:induction false} RepeatWritesInRange(t: seq<Event>, n: nat)
    requires WritesInRange(t)
    ensures WritesInRange(Repeat(t, n))
  {
    if n > 0 {
      RepeatWritesInRange(t, n - 1);
      WritesInRangeAppend(Repeat(t, n - 1), t);
    }
  }

  /**
   * For an animation built through the constructors, every tuple `play()`
   * hands the controller has channels in [0, 255] and brightness in
   * [0.0, 1.0], and every index is non-negative.
   */
  lemma PlayWritesInRange(a: Animation)
    requires WellFormed(a) && !a.loopInfinitely
    ensures WritesInRange(PlayRun(Some(a)).trace)
  {
    FramesWritesInRange(a.frames);
    WritesInRangeAppend(FramesTrace(a.frames), [Sleep(a.pauseBetweenPlayMs)]);
    if a.maxPlays.Some? {
      RepeatWritesInRange(PassTrace(a), PassCount(a.maxPlays.value));
      WritesInRangeAppend(Repeat(PassTrace(a), PassCount(a.maxPlays.value)), [Dark, Show]);
    }
  }

  // ---------------------------------------------------------------------------
  // The controller and the player
  // ---------------------------------------------------------------------------

  /** The pixel controller together with `sleep`, reduced to the record of calls made on them. */
  class Sink {
    var trace: seq<Event>

    constructor ()
      ensures trace == []
    {
      trace := [];
    }

    /** `controller[index] = color` */
    method SetPixel(index: int, color: SinkColor)
      modifies this
      ensures trace == old(trace) + [Set(index, color)]
    {
      trace := trace + [Set(index, color)];
    }

    /** `controller.show()` */
    method Show()
      modifies this
      ensures trace == old(trace) + [Event.Show]
    {
      trace := trace + [Event.Show];
    }

    /** `controller.fill((r, g, b))` */
    method Fill(r: int, g: int, b: int)
      modifies this
      ensures trace == old(trace) + [Event.Fill(r, g, b)]
    {
      trace := trace + [Event.Fill(r, g, b)];
    }

    /** `sleep(ms / 1000)` */
    method Sleep(ms: int)
      modifies this
      ensures trace == old(trace) + [Event.Sleep(ms)]
    {
      trace := trace + [Event.Sleep(ms)];
    }
  }

  class SimplePixelBufPlayer {
    const controller: Sink
    var animation: Option<Animation>

    /** `__init__`: keeps the controller; nothing is loaded and the controller is not touched. */
    constructor (controller: Sink)
      ensures this.controller == controller && animation == None
      ensures controller.trace == old(controller.trace)
    {
      this.controller := controller;
      animation := None;
    }

    /** `load`: replaces the stored animation, without any check, and emits nothing. */
    method Load(animation: Animation)
      modifies this
      ensures this.animation == Some(animation)
      ensures controller.trace == old(controller.trace)
    {
      this.animation := Some(animation);
    }

    /** The body of the `for` over the frames in `play()`: write each pixel entry, show, then sleep. */
    method RenderFrame(f: Frame)
      modifies controller
      ensures controller.trace == old(controller.trace) + FrameTrace(f)
    {
      for i := 0 to |f.pixels|
        invariant controller.trace == old(controller.trace) + FrameWrites(f.pixels[..i])
      {
        var pixel := f.pixels[i];
        if pixel.None? {
          controller.SetPixel(i, SinkColor(0, 0, 0, 1.0));
        } else {
          controller.SetPixel(i, SinkColor(pixel.value.red, pixel.value.blue, pixel.value.green, pixel.value.brightness));
        }
        assert f.pixels[..i + 1][..i] == f.pixels[..i];
      }
      assert f.pixels[..|f.pixels|] == f.pixels;
      controller.Show();
      controller.Sleep(f.displayMs);
    }

    /** One pass of the `while True` loop of `play()`: every frame, then the inter-play pause. */
    method RenderPass(a: Animation)
      modifies controller
      ensures controller.trace == old(controller.trace) + PassTrace(a)
    {
      for i := 0 to |a.frames|
        invariant controller.trace == old(controller.trace) + FramesTrace(a.frames[..i])
      {
        RenderFrame(a.frames[i]);
        assert a.frames[..i + 1][..i] == a.frames[..i];
      }
      assert a.frames[..|a.frames|] == a.frames;
      controller.Sleep(a.pauseBetweenPlayMs);
    }

    /**
     * `play()` for every loaded value except a truthy animation that loops
     * forever. The loop counter starts at 0 on each call and the animation is
     * left as it was, so a later call replays the same run.
     */
    method Play() returns (outcome: Outcome)
      requires !LoopsForever(animation)
      modifies controller
      ensures animation == old(animation)
      ensures controller.trace == old(controller.trace) + PlayRun(animation).trace
      ensures outcome == PlayRun(animation).outcome
    {
      if !Loaded(animation) {
        return NotLoaded;
      }
      var a := animation.value;
      var loopCount := 0;
      while true
        invariant a.maxPlays.None? ==> loopCount == 0
        invariant a.maxPlays.Some? ==> loopCount < PassCount(a.maxPlays.value)
        invariant controller.trace == old(controller.trace) + Repeat(PassTrace(a), loopCount)
        decreases (if a.maxPlays.Some? then PassCount(a.maxPlays.value) else 1) - loopCount
      {
        RenderPass(a);
        // `if self._animation.loop_infinitely: continue` cannot fire: the precondition excludes it.
        loopCount := loopCount + 1;
        match a.maxPlays
        case None =>
          return MaxPlaysUnset;
        case Some(m) =>
          if loopCount >= m {
            break;
          }
      }
      controller.Fill(0, 0, 0);
      controller.Show();
      return Stopped;
    }
  }
}
