/**
 * The recorder's clocks: nanoseconds, video ticks, 48 kHz audio frames and
 * 100-ns timestamps, related by floor divisions.
 */
module Timeline {
  import opened Arith

  const SAMPLE_RATE := 48_000
  const HNS_PER_SEC := 10_000_000
  const NS_PER_SEC := 1_000_000_000
  const MAX_FPS := 60
  /** How far behind real time silence is padded. */
  const AUDIO_LAG_FRAMES := SAMPLE_RATE / 5
  /** A longer stall than this is cut out of the recording. */
  const MAX_BACKLOG_NS := 2 * NS_PER_SEC
  const PCM_FRAME := 4
  const AUDIO_QUEUE_MAX_BYTES := 2 * SAMPLE_RATE * PCM_FRAME
  const MAX_STAGED_FRAMES := 2 * 2 * SAMPLE_RATE

  type Fps = f: int | 1 <= f <= MAX_FPS witness 30

  /** 48 kHz frames in a stretch of time. */
  function Frames(ns: nat): nat { ns * SAMPLE_RATE / NS_PER_SEC }

  /** Signed frame count from `t0` to `t`, rounding toward zero. */
  function FramesSince(t0: int, t: int): int {
    if t0 <= t then Frames(t - t0) else -(Frames(t0 - t) as int)
  }

  /** When tick `k` is due after tick 0, in nanoseconds. */
  function TickNs(k: nat, fps: Fps): nat { k * NS_PER_SEC / fps }

  /** Which tick is showing `ns` after tick 0. */
  function TickAt(ns: nat, fps: Fps): nat { ns * fps / NS_PER_SEC }

  function TickHns(k: nat, fps: Fps): nat { k * HNS_PER_SEC / fps }
  function AudioHns(n: nat): nat { n * HNS_PER_SEC / SAMPLE_RATE }

  /** Audio frames before tick `k`. */
  function TickFrames(k: nat, fps: Fps): nat { k * SAMPLE_RATE / fps }

  lemma TickFramesMono(j: nat, k: nat, fps: Fps)
    requires j <= k
    ensures TickFrames(j, fps) <= TickFrames(k, fps)
    ensures TickHns(j, fps) <= TickHns(k, fps)
    ensures TickNs(j, fps) <= TickNs(k, fps)
  {
    DivMono(j * SAMPLE_RATE, k * SAMPLE_RATE, fps);
    DivMono(j * HNS_PER_SEC, k * HNS_PER_SEC, fps);
    DivMono(j * NS_PER_SEC, k * NS_PER_SEC, fps);
  }

  lemma AudioHnsMono(a: nat, b: nat)
    requires a <= b
    ensures AudioHns(a) <= AudioHns(b)
  {
    DivMono(a * HNS_PER_SEC, b * HNS_PER_SEC, SAMPLE_RATE);
  }

  /** Audio that ends by the frame where video ends also ends by its timestamp, whatever the three roundings do. */
  lemma AudioEndsWithVideo(n: nat, k: nat, fps: Fps)
    requires n <= TickFrames(k, fps)
    ensures AudioHns(n) <= TickHns(k, fps)
  {
    var a := AudioHns(n);
    DivBounds(k * SAMPLE_RATE, fps);
    MulLe(n, TickFrames(k, fps), fps);
    DivBounds(n * HNS_PER_SEC, SAMPLE_RATE);
    MulLe(a * SAMPLE_RATE, n * HNS_PER_SEC, fps);
    assert a * SAMPLE_RATE * fps == a * fps * SAMPLE_RATE;
    assert n * HNS_PER_SEC * fps == n * fps * HNS_PER_SEC;
    DivGe(k * HNS_PER_SEC, fps, a);
  }

  /** Each tick is due strictly after the one before. */
  lemma TicksAdvance(k: nat, fps: Fps)
    ensures TickNs(k, fps) < TickNs(k + 1, fps)
  {
    DivBounds(k * NS_PER_SEC, fps);
    assert (TickNs(k, fps) + 1) * fps == TickNs(k, fps) * fps + fps;
    DivGe((k + 1) * NS_PER_SEC, fps, TickNs(k, fps) + 1);
  }

  /** At the very moment tick `k` is due, no later tick's period has begun. */
  lemma DueIsNotBehind(k: nat, fps: Fps)
    ensures TickAt(TickNs(k, fps), fps) <= k
  {
    DivBounds(k * NS_PER_SEC, fps);
    DivLt(TickNs(k, fps) * fps, NS_PER_SEC, k + 1);
  }

  /** Ticks `k` through `j` all due within the backlog are at most `2 * fps + 1`. */
  lemma BacklogTicks(k: nat, j: nat, fps: Fps)
    requires k <= j && TickNs(j, fps) <= TickNs(k, fps) + MAX_BACKLOG_NS
    ensures j - k <= 2 * fps
  {
    DivBounds(k * NS_PER_SEC, fps);
    DivBounds(j * NS_PER_SEC, fps);
    MulLe(TickNs(j, fps), TickNs(k, fps) + MAX_BACKLOG_NS, fps);
    assert (TickNs(k, fps) + MAX_BACKLOG_NS) * fps == TickNs(k, fps) * fps + MAX_BACKLOG_NS * fps;
    assert (TickNs(j, fps) + 1) * fps == TickNs(j, fps) * fps + fps;
  }

  /** Rounding the due time to nanoseconds loses at most one audio frame. */
  lemma DueFrames(k: nat, fps: Fps)
    ensures TickFrames(k, fps) - 1 <= Frames(TickNs(k, fps)) <= TickFrames(k, fps)
  {
    var d, f := TickNs(k, fps), TickFrames(k, fps);
    DivBounds(k * NS_PER_SEC, fps);
    DivBounds(k * SAMPLE_RATE, fps);
    assert (f + 1) * NS_PER_SEC * fps == (f * fps + fps) * NS_PER_SEC;
    assert (f - 1) * NS_PER_SEC * fps == (f * fps - fps) * NS_PER_SEC;
    assert d * SAMPLE_RATE * fps == d * fps * SAMPLE_RATE;
    MulCancel(d * SAMPLE_RATE, (f + 1) * NS_PER_SEC, fps);
    MulCancel((f - 1) * NS_PER_SEC - 1, d * SAMPLE_RATE, fps);
    DivLt(d * SAMPLE_RATE, NS_PER_SEC, f + 1);
    DivGe(d * SAMPLE_RATE, NS_PER_SEC, f - 1);
  }

  lemma FramesMono(a: nat, b: nat)
    requires a <= b
    ensures Frames(a) <= Frames(b)
  {
    DivMono(a * SAMPLE_RATE, b * SAMPLE_RATE, NS_PER_SEC);
  }

  /** Frames in the last `d` of `a` nanoseconds: one more than `d` alone holds when the remainders cross a frame. */
  lemma FramesDifference(a: nat, d: nat)
    requires d <= a
    ensures Frames(a) - Frames(a - d) ==
            Frames(d) + if a * SAMPLE_RATE % NS_PER_SEC < d * SAMPLE_RATE % NS_PER_SEC then 1 else 0
  {
    assert (a - d) * SAMPLE_RATE == a * SAMPLE_RATE - d * SAMPLE_RATE;
  }

  /** Every second holds `fps` ticks, 48,000 audio frames and 10,000,000 timestamp units, whatever the rate. */
  lemma WholeSeconds(s: nat, fps: Fps)
    ensures TickNs(s * fps, fps) == s * 1_000_000_000 && TickHns(s * fps, fps) == s * 10_000_000 && TickFrames(s * fps, fps) == s * 48_000
    ensures AudioHns(s * 48_000) == s * 10_000_000 && Frames(s * 1_000_000_000) == s * 48_000 && TickAt(s * 1_000_000_000, fps) == s * fps
  {
    DivMod(s * NS_PER_SEC, 0, fps, s * fps * NS_PER_SEC);
    DivMod(s * HNS_PER_SEC, 0, fps, s * fps * HNS_PER_SEC);
    DivMod(s * SAMPLE_RATE, 0, fps, s * fps * SAMPLE_RATE);
    DivMod(s * HNS_PER_SEC, 0, SAMPLE_RATE, s * SAMPLE_RATE * HNS_PER_SEC);
    DivMod(s * SAMPLE_RATE, 0, NS_PER_SEC, s * NS_PER_SEC * SAMPLE_RATE);
    DivMod(s * fps, 0, NS_PER_SEC, s * NS_PER_SEC * fps);
  }

  /** The tick showing at an instant is due by then, and the next one not before. */
  lemma TickShowing(ns: nat, fps: Fps)
    ensures TickNs(TickAt(ns, fps), fps) <= ns <= TickNs(TickAt(ns, fps) + 1, fps)
  {
    var k := TickAt(ns, fps);
    DivBounds(ns * fps, NS_PER_SEC);
    DivLt(k * NS_PER_SEC, fps, ns + 1);
    DivGe((k + 1) * NS_PER_SEC, fps, ns);
  }

  /** Positions before the start count down from it. */
  lemma FramesBothWays(t0: int, t: int)
    ensures FramesSince(t0, t) == -FramesSince(t, t0) && FramesSince(t0, t0) == 0
    ensures t0 <= t ==> FramesSince(t0, t) * 1_000_000_000 <= (t - t0) * 48_000 < (FramesSince(t0, t) + 1) * 1_000_000_000
  {
    if t0 <= t {
      DivBounds((t - t0) * SAMPLE_RATE, NS_PER_SEC);
    }
  }
}
