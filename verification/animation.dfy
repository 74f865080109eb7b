/** The animation timer of `src/Animation.py`: a sprite sheet cut into
    equal frames side by side, a time per frame, and a start time from
    which the frame to show is computed. Times are integer milliseconds;
    the sheet itself is reduced to its size. */
module Animations {
  import opened Options
  import opened Geometry
  import opened Globals

  datatype Animation = Animation(
    sheetWidth: nat, sheetHeight: nat,
    frameWidth: int, frameHeight: int,
    frameTime: int, frameCount: int, looping: bool,
    startTime: int)

  /** The start time of an animation that has not been started. */
  const NotStarted := -1

  /** The constructor's defaults: one frame, 33 ms per frame, no looping. */
  const DefaultFrameCount := 1
  const DefaultFrameTime := 33

  predicate Started(a: Animation)
  {
    a.startTime >= 0
  }

  /** `Animation(filename, frame_count, frame_time, is_looping)` over a
      sheet of the given size: the frames split the sheet's width evenly,
      rounding down. A zero frame count is a division by zero. */
  function New(sheetWidth: nat, sheetHeight: nat, frameCount: int, frameTime: int, looping: bool): (r: Option<Animation>)
    ensures r.Some? <==> frameCount != 0
    ensures r.Some? ==> !Started(r.value) && r.value.frameHeight == sheetHeight
    ensures r.Some? ==> r.value.sheetWidth == sheetWidth && r.value.sheetHeight == sheetHeight
    ensures r.Some? ==> r.value.frameCount == frameCount && r.value.frameTime == frameTime && r.value.looping == looping
    ensures r.Some? && frameCount > 0 ==>
      0 <= r.value.frameWidth && r.value.frameWidth * frameCount <= sheetWidth < (r.value.frameWidth + 1) * frameCount
  {
    if frameCount == 0 then None
    else
      var fw := FloorDiv(sheetWidth, frameCount);
      assert frameCount > 0 ==> fw * frameCount == frameCount * fw && (fw + 1) * frameCount == frameCount * fw + frameCount;
      Some(Animation(sheetWidth, sheetHeight, fw, sheetHeight, frameTime, frameCount, looping, NotStarted))
  }

  /** With the defaults the single frame is the whole sheet. */
  lemma DefaultIsWholeSheet(sheetWidth: nat, sheetHeight: nat)
    ensures New(sheetWidth, sheetHeight, DefaultFrameCount, DefaultFrameTime, false)
         == Some(Animation(sheetWidth, sheetHeight, sheetWidth, sheetHeight, 33, 1, false, NotStarted))
  {
    FloorDivUnique(sheetWidth, 1, sheetWidth);
  }

  /** `start(game_time)`: only the start time changes. */
  function Start(a: Animation, time: int): (r: Animation)
    ensures r.startTime == time && r.(startTime := a.startTime) == a
    ensures Started(r) <==> time >= 0
  {
    a.(startTime := time)
  }

  /** `end()`: the timer is reset to the not-started value, and nothing
      else changes. */
  function End(a: Animation): (r: Animation)
    ensures !Started(r) && r.(startTime := a.startTime) == a
  {
    a.(startTime := NotStarted)
  }

  /** Ending forgets when the animation was started, and starting again
      after an end is starting afresh. */
  lemma EndForgetsStart(a: Animation, time: int)
    ensures End(Start(a, time)) == End(a)
    ensures Start(End(a), time) == Start(a, time)
  {
  }

  /** Whether a frame number can be computed: a frame time to divide by,
      and a frame count to wrap by (looping) or a last frame to clamp to
      (not looping). */
  predicate Playable(a: Animation)
  {
    a.frameTime != 0 && (if a.looping then a.frameCount != 0 else a.frameCount >= 1)
  }

  /** `_get_frame_number(game_time)`: the number of whole frame times since
      the start, wrapped round the frame count when looping and held on
      the last frame otherwise. */
  function FrameNumber(a: Animation, time: int): (r: Option<int>)
    ensures r.Some? <==> Playable(a)
    ensures r.Some? && a.frameCount > 0 ==> 0 <= r.value < a.frameCount
  {
    if a.frameTime == 0 then None
    else
      var n := FloorDiv(time - a.startTime, a.frameTime);
      if a.looping then
        if a.frameCount == 0 then None else Some(FloorMod(n, a.frameCount))
      else if a.frameCount < 1 then None
      else Some(ClampInt(n, 0, a.frameCount - 1))
  }

  /** A looping animation shows frame `n` exactly during the `n`-th frame
      time of some pass through the sheet. */
  lemma LoopingFrameCoversElapsed(a: Animation, time: int)
    requires a.looping && a.frameTime > 0 && a.frameCount > 0 && time >= a.startTime
    ensures FrameNumber(a, time).Some?
    ensures var n := FrameNumber(a, time).value;
      exists k :: k >= 0 && (k * a.frameCount + n) * a.frameTime <= time - a.startTime < (k * a.frameCount + n + 1) * a.frameTime
  {
    var q := FloorDiv(time - a.startTime, a.frameTime);
    var n := FloorMod(q, a.frameCount);
    var k := FloorDiv(q, a.frameCount);
    assert q == k * a.frameCount + n;
    assert a.frameTime * q >= 0;
    assert q >= 0 by {
      if q < 0 {
        ScaleCancel(a.frameTime, q, 0);
      }
    }
    assert k >= 0;
    assert (k * a.frameCount + n) * a.frameTime <= time - a.startTime < (k * a.frameCount + n + 1) * a.frameTime;
  }

  /** A looping animation repeats after a whole pass through its frames. */
  lemma LoopingPeriodic(a: Animation, time: int, k: int)
    requires a.looping && a.frameTime > 0 && a.frameCount > 0
    ensures FrameNumber(a, time + k * (a.frameCount * a.frameTime)) == FrameNumber(a, time)
  {
    var e := time - a.startTime;
    assert time + k * (a.frameCount * a.frameTime) - a.startTime == e + (k * a.frameCount) * a.frameTime;
    FloorShift(e, a.frameTime, k * a.frameCount);
    FloorShift(FloorDiv(e, a.frameTime), a.frameCount, k);
  }

  /** A non-looping animation shows frame `n` during its `n`-th frame time
      and stays on the last frame from then on. */
  lemma HoldingFrameCoversElapsed(a: Animation, time: int)
    requires !a.looping && a.frameTime > 0 && a.frameCount > 0 && time >= a.startTime
    ensures FrameNumber(a, time).Some?
    ensures var n := FrameNumber(a, time).value;
      if time - a.startTime < a.frameCount * a.frameTime
      then n * a.frameTime <= time - a.startTime < (n + 1) * a.frameTime
      else n == a.frameCount - 1
  {
    HeldQuotient(time - a.startTime, a.frameTime, a.frameCount);
  }

  /** Clamping the frame quotient to the last frame changes it only once
      the elapsed time has run past the whole sheet. */
  lemma HeldQuotient(e: int, d: int, c: int)
    requires d > 0 && c > 0 && e >= 0
    ensures var n := ClampInt(FloorDiv(e, d), 0, c - 1);
      if e < c * d then n * d <= e < (n + 1) * d else n == c - 1
  {
    var q := FloorDiv(e, d);
    ScaleCancel(d, -1, q);
    NextMultiple(q, d);
    if e < c * d {
      ScaleCancel(d, q, c);
    } else {
      ScaleCancel(d, c, q + 1);
    }
  }

  /** The multiple after `q * d` is `d` further on. */
  lemma NextMultiple(q: int, d: int)
    ensures q * d == d * q && (q + 1) * d == d * q + d && d * (q + 1) == d * q + d
  {
  }

  /** A non-looping animation never goes back to an earlier frame. */
  lemma HoldingMonotone(a: Animation, t1: int, t2: int)
    requires !a.looping && a.frameTime > 0 && a.frameCount > 0 && t1 <= t2
    ensures FrameNumber(a, t1).value <= FrameNumber(a, t2).value
  {
    FloorDivMonotone(t1 - a.startTime, t2 - a.startTime, a.frameTime);
  }

  /** The part of the sheet `get_frame(game_time)` cuts out: the frame's
      slot in the row of frames. The source asserts the animation has been
      started. */
  function FrameRect(a: Animation, time: int): (r: Option<Rect>)
    ensures r.Some? <==> Started(a) && Playable(a)
    ensures r.Some? ==> r.value.y == 0 && r.value.w == a.frameWidth && r.value.h == a.frameHeight
  {
    if !Started(a) then None
    else match FrameNumber(a, time)
      case None => None
      case Some(n) => Some(Rect(n * a.frameWidth, 0, a.frameWidth, a.frameHeight))
  }

  /** Every frame of a started animation whose frames fit in the sheet
      lies within the sheet, in the slot of its frame number. */
  lemma FrameInSheet(a: Animation, time: int)
    requires Started(a) && a.frameTime != 0 && a.frameCount > 0
    requires 0 <= a.frameWidth && a.frameWidth * a.frameCount <= a.sheetWidth
    ensures FrameRect(a, time).Some?
    ensures var r := FrameRect(a, time).value;
      0 <= r.x && r.Right() <= a.sheetWidth && r.x == FrameNumber(a, time).value * r.w
  {
    var n := FrameNumber(a, time).value;
    MulMonotone(0, n, a.frameWidth);
    MulMonotone(n + 1, a.frameCount, a.frameWidth);
  }

  lemma MulMonotone(x: int, y: int, z: int)
    requires x <= y && 0 <= z
    ensures x * z <= y * z
  {
    assert y * z - x * z == (y - x) * z;
  }

  /** A freshly built animation with a positive frame count, once started,
      has its frames within the sheet and as tall as the sheet. */
  lemma NewFramesInSheet(sheetWidth: nat, sheetHeight: nat, frameCount: int, frameTime: int, looping: bool, start: nat, time: int)
    requires frameCount > 0 && frameTime != 0
    ensures var a := Start(New(sheetWidth, sheetHeight, frameCount, frameTime, looping).value, start);
      FrameRect(a, time).Some? && FrameRect(a, time).value.Right() <= sheetWidth
      && FrameRect(a, time).value.Bottom() == sheetHeight
  {
    var a := Start(New(sheetWidth, sheetHeight, frameCount, frameTime, looping).value, start);
    FrameInSheet(a, time);
  }

  /** `get_frame` as written calls `_get_frame_number` without `self`, a
      `NameError` on every call: no frame is ever returned. */
  function FrameRectAsWritten(a: Animation, time: int): (r: Option<Rect>)
    ensures r.None?
  {
    None
  }

  /** The written form fails on every animation the intended one answers
      for. */
  lemma AsWrittenNeverAnswers(a: Animation, time: int)
    requires Started(a) && Playable(a)
    ensures FrameRect(a, time).Some? && FrameRectAsWritten(a, time) != FrameRect(a, time)
  {
  }

  /** The animation tests' sheet: 20 by 10, two frames of 5 ms, started
      at time 0. */
  function TestAnimation(looping: bool): Animation
  {
    Start(New(20, 10, 2, 5, looping).value, 0)
  }

  /** The frames the animation tests expect of a looping animation: the
      first frame at the start, the second one frame time later, and the
      first again after two frame times. */
  lemma LoopingTestFrames()
    ensures FrameRect(TestAnimation(true), 0) == Some(Rect(0, 0, 10, 10))
    ensures FrameRect(TestAnimation(true), 9) == Some(Rect(10, 0, 10, 10))
    ensures FrameRect(TestAnimation(true), 11) == Some(Rect(0, 0, 10, 10))
  {
    TestAnimationBuilt(true);
    LoopingTestFrame(0, 0, 0);
    LoopingTestFrame(9, 1, 1);
    LoopingTestFrame(11, 2, 0);
  }

  lemma TestAnimationBuilt(looping: bool)
    ensures TestAnimation(looping) == Animation(20, 10, 10, 10, 5, 2, looping, 0)
  {
    FloorDivUnique(20, 2, 10);
  }

  lemma LoopingTestFrame(time: int, q: int, n: int)
    requires 5 * q <= time < 5 * q + 5 && 0 <= n < 2 && (q - n) % 2 == 0
    ensures FrameRect(Animation(20, 10, 10, 10, 5, 2, true, 0), time) == Some(Rect(n * 10, 0, 10, 10))
  {
    FloorDivUnique(time, 5, q);
    FloorDivUnique(q, 2, (q - n) / 2);
  }

  /** A non-looping animation shows the second frame one frame time after
      the start and stays on it. */
  lemma HoldingTestFrames()
    ensures FrameRect(TestAnimation(false), 5) == Some(Rect(10, 0, 10, 10))
    ensures FrameRect(TestAnimation(false), 11) == Some(Rect(10, 0, 10, 10))
  {
    FloorDivUnique(20, 2, 10);
    assert TestAnimation(false) == Animation(20, 10, 10, 10, 5, 2, false, 0);
    FloorDivUnique(5, 5, 1);
    FloorDivUnique(11, 5, 2);
  }
}
