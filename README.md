# pixelbuf-pi-animation in Dafny

A model of the two parts of `pixelbuf_pi_animation` that hold logic: the
validated animation data model (`data.py`) and the `SimplePixelBufPlayer`
playback loop (`player.py`).

- `wrappers.dfy` — `Option` (Python's `Optional`) and `Result` (a constructor
  that returns or raises).
- `data.dfy`, module `Data` — `Pixel`, `Frame` and `Animation` as datatypes.
  Each `_validate_*` method is a function that returns `Some(error)` where the
  source raises `ValueError` and `None` where it returns. `NewPixel`,
  `NewFrame` and `NewAnimation` play the part of `__post_init__`: they run the
  validators in the source's order and return the record untouched or the first
  error. The predicates `ValidPixel`, `ValidFrame` and `ValidAnimation` state the
  accepted values as plain ranges, and each constructor is proved to accept
  exactly those. `WellFormed` describes an animation whose frames and pixels were
  all built through their own constructors. `frame_total_time_ms` is the left fold
  `FoldDisplayMs`, proved equal to the plain sum `SumDisplayMs`.
- `player.dfy`, module `Player` — `Sink` stands for the Adafruit `PixelBuf`
  controller and `time.sleep` together, and records every call as an `Event`:
  `Set(index, tuple)`, `Show`, `Sleep(ms)` or `Fill(r, g, b)`. The class
  `SimplePixelBufPlayer` keeps the controller and an optional animation.
  `Load` replaces the animation. `Play` runs the source's loops: the loop over
  frames is `RenderPass`, the loop over pixels is `RenderFrame`, and the
  `while True` loop is inside `Play`. `Play` is proved to append exactly
  `PlayRun(animation).trace` and to return `PlayRun(animation).outcome`.
  `PlayRun` is built from `FrameTrace`, `PassTrace` and `Repeat`. Lemmas then
  count writes, shows, sleeps and fills in those traces and locate each frame
  inside a pass.

Python's truthiness is kept where the source relies on it. `Truthy(max_plays)`
is false for both `None` and `0`, so `max_plays = 0` with `loop_infinitely = True`
is accepted. `Loaded` is false for `None` and for an animation with no frames,
because `not self._animation` goes through `Animation.__len__`.

`Play` accepts any animation value, valid or not, as the source does. The one
exception is a negative sleep duration, which Python refuses (see "## Left out").
With `max_plays = m` it runs `PassCount(m)` passes: `m` passes when `m >= 1`, and
one pass when `m <= 0`. With `max_plays = None` and no infinite looping it runs
one pass and then ends in `MaxPlaysUnset`. That outcome stands for the `TypeError`
that Python raises at `loop_count >= None`.

Three points of behaviour are kept exactly as the code has them:
- a play count of 0 is accepted together with infinite looping
  (`pixelbuf_pi_animation/data.py:124`). The docstring at
  `pixelbuf_pi_animation/data.py:93` asks for `None` in that case, but the check
  tests truthiness;
- the final fill is the three-tuple `(0, 0, 0)`, with no brightness, as at
  `pixelbuf_pi_animation/player.py:102`;
- the channels are written as `(red, blue, green, brightness)`, so green and blue
  trade places, and this swap from `pixelbuf_pi_animation/player.py:87` is kept.

## Model

| member | source | states |
|---|---|---|
| `Data.ValidateBrightness` | pixelbuf_pi_animation/data.py:28-33 | fails exactly when brightness lies outside [0.0, 1.0], both ends included, and reports that brightness |
| `Data.FirstOutOfRange` | pixelbuf_pi_animation/data.py:44-47 | the loop over the colour dict finds no entry exactly when every value is in [0, 255]; otherwise it finds the first out-of-range entry, and every earlier entry is in range |
| `Data.ValidateColor` | pixelbuf_pi_animation/data.py:35-47 | fails exactly when some channel is outside [0, 255]; the error names the first bad channel in the order red, green, blue, with its value |
| `Data.NewPixel` | pixelbuf_pi_animation/data.py:24-26 | accepts iff `ValidPixel`, so the boundaries 0, 255, 0.0 and 1.0 are accepted; returns the fields unchanged; a bad brightness is reported before any colour |
| `Data.ValidateDisplayMs` | pixelbuf_pi_animation/data.py:65-69 | fails exactly when `display_ms < 1`, reporting the value |
| `Data.ValidatePixels` | pixelbuf_pi_animation/data.py:71-74 | fails exactly when the pixel list is empty |
| `Data.NewFrame` | pixelbuf_pi_animation/data.py:61-63 | accepts iff `display_ms >= 1` and the pixels are non-empty; returns the fields unchanged; a bad duration is reported before an empty list |
| `Data.ValidateFrames` | pixelbuf_pi_animation/data.py:111-114 | fails exactly when there are no frames |
| `Data.ValidatePause` | pixelbuf_pi_animation/data.py:116-118 | fails exactly when the pause is negative, reporting it |
| `Data.ValidateMaxPlays` | pixelbuf_pi_animation/data.py:120-125 | passes exactly when the count is absent or non-negative and, under infinite looping, absent or 0; a negative count is reported before the clash with infinite looping; `None` and `0` always pass |
| `Data.NewAnimation` | pixelbuf_pi_animation/data.py:95-98 | accepts iff `ValidAnimation`; returns the fields unchanged; checks frames, then the pause, then the play count |
| `Data.Len` | pixelbuf_pi_animation/data.py:100-101 | `len(animation)` is the number of frames, and is 0 exactly when there are none |
| `Data.FoldDisplayMs` | pixelbuf_pi_animation/data.py:109 | the `reduce` fold started at `acc` equals `acc` plus the sum of the frame durations |
| `Data.FrameTotalTime` | pixelbuf_pi_animation/data.py:103-109 | `frame_total_time_ms` equals the sum of the frames' durations |
| `Data.FrameTotalTimeBound` | pixelbuf_pi_animation/data.py:100-109 | `frame_total_time_ms` is the sum of the durations, and for a well-formed animation it is at least `len(animation)`, which is at least 1 |
| `Data.FrameTotalTimeExample` | pixelbuf_pi_animation/data.py:103-109 | frames of 10, 20 and 30 ms total 60 ms |
| `Player.Rendered` | pixelbuf_pi_animation/player.py:84-87 | an absent entry is written as `(0, 0, 0, 1.0)`; a present pixel as `(red, blue, green, brightness)`; the tuple of a valid pixel is in range |
| `Player.FrameWritesAt` | pixelbuf_pi_animation/player.py:80-87 | within a frame, entry `i` is written to controller index `i`, in order, one write per entry |
| `Player.FrameTraceShape` | pixelbuf_pi_animation/player.py:80-91 | a frame is its writes followed by exactly one `show()` and one sleep of its `display_ms` |
| `Player.FrameInPass` | pixelbuf_pi_animation/player.py:77-94 | in a pass, frame `k` is emitted whole after all earlier frames and before all later ones, and the pass ends with the inter-play pause |
| `Player.FrameCounts` | pixelbuf_pi_animation/player.py:80-91 | a frame holds one write per entry, one show, one sleep (of its own duration) and no fill |
| `Player.FramesCounts` | pixelbuf_pi_animation/player.py:77-91 | the frames of a pass hold one write per entry of every frame, one show and one sleep per frame, and no fill |
| `Player.PassCounts` | pixelbuf_pi_animation/player.py:77-94 | a pass adds exactly one sleep of `pause_between_play_ms` after the frames, and no fill |
| `Player.PassCount` | pixelbuf_pi_animation/player.py:98-100 | the number of passes is the least count of at least 1 with `loop_count >= max_plays` |
| `Player.Loaded` | pixelbuf_pi_animation/player.py:70 | `not self._animation` is false only for an animation with frames, and always for a valid animation |
| `Player.LoopingPrefix` | pixelbuf_pi_animation/player.py:95-96 | under infinite looping, each `continue` adds one more pass of the same length: `k` passes are `k` copies of `PassTrace` |
| `Player.PlayRun` | pixelbuf_pi_animation/player.py:70-103 | nothing is emitted and `NotLoaded` results exactly when no truthy animation is loaded; a normal stop ends with `fill((0, 0, 0))` then `show()`; `None` as play count ends in the `TypeError` outcome after exactly one pass |
| `Player.PlayCounts` | pixelbuf_pi_animation/player.py:73-103 | a finite play with `max_plays = m` runs `PassCount(m)` passes: writes, shows, sleeps of each duration and the pause, each counted per pass, plus exactly one fill and one final show |
| `Player.PlaybackExample` | pixelbuf_pi_animation/player.py:73-103 | 2 frames of 10 pixels at 100 and 200 ms, pause 50, `max_plays = 3`: 60 writes, 7 shows, three sleeps each of 100, 200 and 50 ms, one fill |
| `Player.ValidAnimationIsLoaded` | pixelbuf_pi_animation/player.py:70-71 | a valid animation is truthy through `__len__`, so `play()` never raises the missing-animation error for it |
| `Player.LoopingNeverFills` | pixelbuf_pi_animation/player.py:95-96 | under infinite looping, no event of the first `k` passes is a fill, for every `k`, and the trace grows by a non-empty pass each time |
| `Player.PlayWritesInRange` | pixelbuf_pi_animation/player.py:84-87 | for a well-formed animation, every tuple written has channels in [0, 255], brightness in [0.0, 1.0] and a non-negative index |
| `Player.Sink.SetPixel` | pixelbuf_pi_animation/player.py:84-87 | `controller[index] = tuple` appends exactly one `Set(index, tuple)` event |
| `Player.Sink.Show` | pixelbuf_pi_animation/player.py:90 | `controller.show()` appends exactly one `Show` event |
| `Player.Sink.Sleep` | pixelbuf_pi_animation/player.py:91-94 | `sleep(ms / 1000)` appends exactly one `Sleep(ms)` event |
| `Player.Sink.Fill` | pixelbuf_pi_animation/player.py:102 | `controller.fill((r, g, b))` appends exactly one `Fill(r, g, b)` event |
| `Player.SimplePixelBufPlayer.constructor` | pixelbuf_pi_animation/player.py:38-45 | keeps the controller, loads nothing, emits nothing |
| `Player.SimplePixelBufPlayer.Load` | pixelbuf_pi_animation/player.py:47-56 | replaces the stored animation without checks; the controller receives no event |
| `Player.SimplePixelBufPlayer.RenderFrame` | pixelbuf_pi_animation/player.py:80-91 | appends exactly `FrameTrace(frame)` to the controller's record |
| `Player.SimplePixelBufPlayer.RenderPass` | pixelbuf_pi_animation/player.py:77-94 | appends exactly `PassTrace(animation)` |
| `Player.SimplePixelBufPlayer.Play` | pixelbuf_pi_animation/player.py:58-103 | appends exactly `PlayRun(animation).trace` and returns its outcome; `loop_count` restarts at 0 and the animation is unchanged, so a later call replays the same run; terminates because `PassCount(max_plays) - loop_count` decreases |

## Left out

- `pixelbuf_pi_animation/parser.py`, the JSON and MessagePack readers and writers, is not part of this model. Its behaviour lives in `json`, `msgpack`, `dacite` and `dataclasses.asdict`, whose source is not modelled.
- Player.SimplePixelBufPlayer.Play: requires that the loaded animation does not loop forever, because a Dafny method must terminate. The endless `continue` path of a truthy animation with `loop_infinitely = True` is modelled by `LoopingPrefix`, which gives the trace of its first `k` passes.
- Player.PlayRun and Player.SimplePixelBufPlayer.Play: a negative `display_ms` or `pause_between_play_ms` makes Python's `sleep` raise `ValueError` at `pixelbuf_pi_animation/player.py:91` or `:94`. Here it is recorded as a plain `Sleep` event and playback carries on. A validated animation cannot hold such a value; only a field reassigned after construction can.
- Real time: `sleep(ms / 1000)` becomes a `Sleep(ms)` event with integer milliseconds and no timing meaning.
- The Adafruit driver: its colour order, its brightness scaling, and the `IndexError` raised for a frame longer than the strand. The sink records writes and does not bound-check indices.
- Interruption and cancellation: the source has none.
- Data.ValidateBrightness: brightness is a real, so a float NaN is not modelled. Python would accept NaN, because both of its comparisons are false.
- Dataclass fields can be reassigned after construction in Python and then skip validation. Here the records are immutable values.
- Python's dynamic typing: a value of the wrong type, such as a string for `red`, is not modelled. Every field has its declared type.
