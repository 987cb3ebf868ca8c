/**
 * The encoder thread's timeline: one video sample per tick of a constant-rate
 * clock, short stalls caught up, long ones cut out of both tracks, and audio
 * committed alongside.
 */
module Encoder {
  import opened Arith
  import opened AudioTrack
  import opened Basics
  import opened PcmTrack
  import opened Recording
  import opened Timeline
  import opened TrackHistory

  /**
   * What a tick sees of the other threads: the number of the scanout's latest
   * picture (0 if none) and whether it converts, and the calls of the tap, up
   * to the moment the tick looks how late it is, and from then until it takes
   * the queued PCM.
   */
  datatype Surroundings = Surroundings(latest: nat, converts: bool, early: seq<Arrival>, between: seq<Arrival>) {
    function Taps(): seq<Arrival> { early + between }
  }

  /** The tap's calls around ticks `first` until `end`. */
  function TapsOf(around: nat -> Surroundings, first: nat, end: nat): seq<Arrival>
    requires first <= end
  {
    if first == end then [] else TapsOf(around, first, end - 1) + around(end - 1).Taps()
  }

  /** PCM after a cut: where the wall position of the resumption lands, against where the video resumes. */
  lemma CutLanding(t0: int, base: int, now: int, next: nat, fps: Fps)
    requires t0 <= base && now == base + TickNs(next, fps)
    ensures var lands := FramesSince(t0, now) - FramesSince(t0, base);
            var crossing := (now - t0) * SAMPLE_RATE % NS_PER_SEC < TickNs(next, fps) * SAMPLE_RATE % NS_PER_SEC;
            lands == Frames(TickNs(next, fps)) + (if crossing then 1 else 0) &&
            TickFrames(next, fps) - 1 <= lands <= TickFrames(next, fps) + 1 &&
            (lands == TickFrames(next, fps) <==> (crossing <==> Frames(TickNs(next, fps)) < TickFrames(next, fps)))
  {
    FramesDifference(now - t0, TickNs(next, fps));
    DueFrames(next, fps);
  }

  /**
   * It does not always land exactly there, even on the first cut: rounding to
   * nanoseconds can lose a frame. Recording at 30 fps from time 0, a stall after
   * tick 0 that ends at 3.000020833 s resumes the video at frame 1600 and the
   * PCM of that instant at frame 1599.
   */
  lemma CutLandingIsNotAlwaysExact()
    ensures var now, late := 3_000_020_833, 3_000_020_833 - TickNs(1, 30);
            late > MAX_BACKLOG_NS && TickFrames(1, 30) == 1600 && FramesSince(0, now) - FramesSince(0, late) == 1599
  {
    assert TickNs(1, 30) == 33_333_333;
  }

  /** How far behind the video the padding stops: a tick, the lag, and a frame of rounding. */
  lemma PaddingLag(base: int, now: int, next: nat, fps: Fps)
    requires next > 0 && base + TickNs(next - 1, fps) <= now
    ensures var end := TickFrames(next, fps);
            var pad := Min(FramesSince(base, now) - AUDIO_LAG_FRAMES, end);
            end - pad <= end - TickFrames(next - 1, fps) + AUDIO_LAG_FRAMES + 1
  {
    hide TickFrames, TickNs, Frames;
    FramesMono(TickNs(next - 1, fps), now - base);
    DueFrames(next - 1, fps);
    TickFramesMono(next - 1, next, fps);
  }

  /** The tap queues what it plays, in order. */
  method TapArrives(shared: Shared, arrivals: seq<Arrival>)
    requires shared.Valid()
    modifies shared
    ensures shared.Valid() && shared.handed == old(shared.handed) && shared.overflow >= old(shared.overflow)
    ensures Arrivals(shared.calls) == Arrivals(old(shared.calls)) + arrivals
    ensures Queued(shared.t0, old(shared.calls)) <= Queued(shared.t0, shared.calls)
  {
    hide Queued, TurnedAway, ChunksOf, Lengths;
    for i := 0 to |arrivals|
      invariant shared.Valid() && shared.handed == old(shared.handed) && shared.overflow >= old(shared.overflow)
      invariant Arrivals(shared.calls) == Arrivals(old(shared.calls)) + arrivals[..i]
      invariant Queued(shared.t0, old(shared.calls)) <= Queued(shared.t0, shared.calls)
    {
      ghost var calls := shared.calls;
      shared.QueuePcm(arrivals[i].epoch, arrivals[i].offset, arrivals[i].pcm);
      OneMoreCall(shared.t0, calls, shared.calls[|calls|]);
    }
  }

  // ---- Where recorded frames come from ----

  /** Frame `j` of the call, not from before the era's floor, is track frame `k` by the era's shift. */
  ghost predicate HeardAt(t0: int, a: Arrival, j: int, era: Era, sample: Sample, k: int) {
    var wall := FramesSince(t0, a.epoch) + a.offset + j;
    0 <= j < |a.pcm| / 4 && sample == a.pcm[4 * j..4 * j + 4] && wall >= era.floor && wall - FramesSince(t0, t0 + era.skip) == k
  }

  /** Silence, or a frame of a call of the tap that was queued, where the era its PCM was taken in puts it. */
  ghost predicate FrameIs(accepted: seq<Arrival>, eras: seq<Era>, t0: int, sample: Sample, k: int) {
    sample == SILENT ||
    exists c, j :: 0 <= c < |accepted| && c < |eras| && HeardAt(t0, accepted[c], j, eras[c], sample, k)
  }

  /** Each chunk's shift and floor are those of the era it was taken in. */
  ghost predicate ErasHold(heard: seq<Heard>, eras: seq<Era>, t0: int) {
    |eras| == |heard| &&
    forall c :: 0 <= c < |heard| ==> heard[c].shift == FramesSince(t0, t0 + eras[c].skip) && heard[c].floor == eras[c].floor
  }

  /** Chunks taken since, in one of two eras. */
  ghost predicate TakenSince(before: seq<Era>, now: seq<Era>, was: Era, era: Era) {
    before <= now && forall c :: |before| <= c < |now| ==> now[c] == was || now[c] == era
  }

  lemma TakenTwice(before: seq<Era>, n: nat, was: Era, m: nat, era: Era)
    ensures TakenSince(before, before + Repeat(n, was) + Repeat(m, era), was, era)
    ensures before + Repeat(n, was) + Repeat(0, era) == before + Repeat(n, was)
  {
  }

  /** Chunks taken now, in the era at hand. */
  lemma ErasMore(t: Track, chunks: seq<Chunk>, eras: seq<Era>, t0: int, era: Era)
    requires ErasHold(t.heard, eras, t0) && t.shift == FramesSince(t0, t0 + era.skip) && t.floor == era.floor
    ensures ErasHold(t.heard + HeardAll(t, chunks), eras + Repeat(|chunks|, era), t0)
  {
    hide FramesSince;
  }

  class Encoder {
    const t0: int
    const fps: Fps
    /** When tick 0 was due: `t0` plus the time cut so far. */
    var base: int
    /** How many ticks have been written. */
    var next: nat
    /** Whether the sink has a picture to repeat, and the number of the one in the buffer (0: black). */
    var pictured: bool
    var shown: nat
    /** The number of the last flush looked at. */
    var seen: nat
    var track: AudioTrack?
    var newFrames: nat
    var lateTicks: nat
    var skipped: nat
    /** The ticks written, and for each chunk taken its era. */
    ghost var history: seq<TickRecord>
    ghost var eras: seq<Era>

    ghost function Parts(): set<object>
      reads this
    {
      {this} + if track == null then {} else {track}
    }

    /**
     * What holds even after the writer failed: both tracks so far are on time
     * and accounted for, and the audio is what the tap was called with.
     */
    ghost predicate Consistent(shared: Shared, sink: Sink)
      reads this, track, shared, sink
    {
      shared.Valid() && shared.t0 == t0 && base == t0 + skipped && shown <= seen &&
      WellTimed(sink.log, fps) && VideoCount(sink.log) == next &&
      if track == null then AudioPcm(sink.log) == []
      else
        track.Valid() && track.Sent(sink, fps) && |track.model.out| <= TickFrames(next, fps) &&
        track.tapOverflow <= shared.overflow && track.InStep(shared) &&
        track.model.shift == FramesSince(t0, base) && ErasHold(track.model.heard, eras, t0)
    }

    /** Also: the sink's last picture is the one in the buffer. */
    ghost predicate Ready(shared: Shared, sink: Sink)
      reads this, track, shared, sink
    {
      Consistent(shared, sink) && LastPicture(sink.log) == if pictured then Some(shown) else None
    }

    ghost function Now(): Progress
      requires track != null
      reads this, track
    {
      Progress(base, next, track.model, track.tapOverflow, track.cutOverflow)
    }

    /** The clock is what the times of the ticks written make it. */
    ghost predicate OnTime()
      reads this
    {
      var c := ClockOf(t0, fps, TimesOf(history));
      c.base == base && c.next == next
    }

    ghost function EraNow(): Era
      reads this, track
    {
      Era(skipped, if track == null then 0 else track.model.floor)
    }

    /** Each chunk taken by the ticks written has its era, and any taken since that of before or after a cut. */
    ghost predicate ErasKnown()
      reads this, track
    {
      TakenSince(ErasOf(t0, fps, history), eras, EraAt(t0, fps, TimesOf(history)), EraNow())
    }

    /** Between ticks, also: the clock and the track are exactly what the history makes them. */
    ghost predicate Valid(shared: Shared, sink: Sink)
      reads this, track, shared, sink
    {
      Ready(shared, sink) && OnTime() &&
      (track != null ==>
         Possible(t0, fps, history) && Now() == Play(t0, fps, history) && eras == ErasOf(t0, fps, history) &&
         EraNow() == EraAt(t0, fps, TimesOf(history)))
    }

    constructor (shared: Shared, sink: Sink, fps: Fps, audio: bool)
      requires shared.Valid() && shared.handed == 0 && sink.log == []
      ensures Valid(shared, sink) && this.fps == fps && t0 == shared.t0 && next == 0 && skipped == 0 && history == []
      ensures fresh(Parts()) && (track != null <==> audio)
    {
      hide PcmTrack.Sound, FramesOf, Samples, Queued, TurnedAway, ChunksOf, Lengths, CutAt, AddAll, Commit;
      this.t0, this.fps := shared.t0, fps;
      base, next, pictured, shown, seen := shared.t0, 0, false, 0, 0;
      newFrames, lateTicks, skipped := 0, 0, 0;
      history, eras := [], [];
      track := null;
      new;
      if audio {
        track := new AudioTrack();
        assert FramesSince(t0, t0) == 0;
        assert ChunksHeard(EMPTY.heard) == [];
      }
    }

    /** The moment tick `next` belongs to. */
    function Due(): int
      reads this
    {
      base + TickNs(next, fps)
    }

    /** Whether a later tick's period has begun by `now`. */
    predicate Behind(now: int)
      reads this
    {
      TickAt(Max(now - base, 0), fps) > next
    }

    /** The tap is called at any moment: what it queues waits for the next take. */
    method Hear(shared: Shared, sink: Sink, arrivals: seq<Arrival>)
      requires Ready(shared, sink)
      modifies shared
      ensures Ready(shared, sink)
      ensures Arrivals(shared.calls) == Arrivals(old(shared.calls)) + arrivals
    {
      hide PcmTrack.Sound, FramesOf, Samples, Recording.WellTimed, Queued, TurnedAway, ChunksOf, Lengths, ErasHold;
      hide Recording.VideoCount, Recording.AudioPcm, Recording.LastPicture;
      ghost var before := Queued(shared.t0, shared.calls);
      TapArrives(shared, arrivals);
      ghost var after := Queued(shared.t0, shared.calls);
      assert after[..|before|] == before;
      assert after[..shared.handed] == before[..shared.handed];
    }

    /** What the take of PCM queued now takes. */
    ghost function Waiting(shared: Shared): Taken
      requires track != null && shared.Valid() && track.tapOverflow <= shared.overflow
      reads this, track, shared
    {
      Taken(ChunksOf(shared.queue), shared.overflow - track.tapOverflow)
    }

    /** Exactly when the period after the next tick's has begun. */
    lemma BehindMeans(now: int)
      ensures Behind(now) <==> (now - base) * fps >= (next + 1) * 1_000_000_000
    {
      var ns := Max(now - base, 0);
      if now < base {
        MulLe(now - base, 0, fps);
      }
      if ns * fps >= (next + 1) * NS_PER_SEC {
        DivGe(ns * fps, NS_PER_SEC, next + 1);
      } else {
        DivLt(ns * fps, NS_PER_SEC, next + 1);
      }
    }

    /** Leave a stall of `late` out of both tracks: the next tick becomes due now, and is not behind. */
    method Cut(shared: Shared, sink: Sink, now: int, late: nat)
      requires Ready(shared, sink) && late == now - Due()
      modifies this`base, this`skipped, this`eras, track, shared`queue, shared`handed
      ensures Ready(shared, sink) && Due() == now && !Behind(now)
      ensures base == old(base) + late && track == old(track)
      ensures track != null ==> Now() == AfterCut(old(Now()), t0, fps, now, old(Waiting(shared)))
      ensures track != null ==> shared.queue == NO_PCM && track.model.End() <= TickFrames(next, fps)
      ensures eras == old(eras) + if track == null then [] else Repeat(|old(Waiting(shared)).chunks|, old(EraNow()))
    {
      hide PcmTrack.Sound, PcmTrack.AddAll, PcmTrack.Truncate, FramesOf, Samples, Recording.WellTimed, FramesSince, TickFrames, TickNs, TickAt;
      hide Recording.VideoCount, Recording.AudioPcm, Recording.LastPicture, Queued, TurnedAway, ChunksOf, Lengths;
      ghost var era := EraNow();
      DueIsNotBehind(next, fps);
      base := base + late;
      skipped := skipped + late;
      var at := TickFrames(next, fps);
      if track != null {
        ghost var before, chunks := track.model, ChunksOf(shared.queue);
        ErasMore(before, chunks, eras, t0, era);
        eras := eras + Repeat(|chunks|, era);
        CutEnds(before, chunks, at, FramesSince(t0, now), FramesSince(t0, base));
        track.TakeAndCut(shared, at, FramesSince(t0, now), FramesSince(t0, base));
      }
    }

    /** Whether this tick sends a picture rather than a repeat. */
    predicate Pictures(now: int, around: Surroundings)
      reads this
    {
      !pictured || (!Behind(now) && around.latest > seen && around.converts)
    }

    /** Behind schedule a newer picture belongs to a later tick; on time it is converted, if it can be. */
    method LookAtScanout(now: int, around: Surroundings) returns (isNew: bool)
      requires shown <= seen
      modifies this`shown, this`seen
      ensures isNew == (!Behind(now) && around.latest > old(seen) && around.converts)
      ensures seen == (if Behind(now) then old(seen) else Max(old(seen), around.latest))
      ensures shown == (if isNew then seen else old(shown)) && shown <= seen
    {
      isNew := false;
      if !Behind(now) && around.latest > seen {
        seen := around.latest;
        if around.converts {
          isNew, shown := true, around.latest;
        }
      }
    }

    /** Send tick `next`, a new picture or the previous one again. */
    method SendTick(shared: Shared, sink: Sink, isNew: bool) returns (ok: bool)
      requires Consistent(shared, sink) && (LastPicture(sink.log).Some? <==> pictured)
      requires pictured && isNew ==> LastPicture(sink.log).value < shown
      requires pictured && !isNew ==> LastPicture(sink.log).value == shown
      modifies this`next, this`pictured, this`newFrames, sink
      ensures Consistent(shared, sink) && (ok ==> Ready(shared, sink) && pictured)
      ensures next == old(next) + (if ok then 1 else 0)
      ensures if ok then exists w :: sink.log == old(sink.log) + [w] && w.Video? &&
                                     (w.picture.Some? <==> isNew || !old(pictured))
              else sink.log == old(sink.log)
    {
      hide PcmTrack.Sound, FramesOf, Samples, TickHns, TickFrames, TickNs, AudioHns;
      hide Recording.WellTimed, Recording.VideoCount, Recording.AudioPcm, Recording.LastPicture;
      TickFramesMono(next, next + 1, fps);
      var t, end := TickHns(next, fps), TickHns(next + 1, fps);
      var w := Video(t, end - t, if isNew || !pictured then Some(shown) else None);
      Appended(sink.log, w, fps);
      ok := sink.Send(w);
      if ok {
        pictured := true;
        next := next + 1;
        newFrames := newFrames + if isNew then 1 else 0;
      }
    }

    /** Write tick `next`: a new picture only if the encoder is on time, else the previous one again. */
    method TickVideo(shared: Shared, sink: Sink, now: int, around: Surroundings) returns (ok: bool)
      requires Ready(shared, sink)
      modifies this`next, this`pictured, this`shown, this`seen, this`newFrames, this`lateTicks, sink
      ensures Consistent(shared, sink) && (ok ==> Ready(shared, sink) && pictured)
      ensures next == old(next) + (if ok then 1 else 0)
      ensures if ok then exists w :: sink.log == old(sink.log) + [w] && w.Video? &&
                                     (w.picture.Some? <==> old(Pictures(now, around)))
              else sink.log == old(sink.log)
      ensures seen == (if old(Behind(now)) then old(seen) else Max(old(seen), around.latest))
      ensures lateTicks == old(lateTicks) + if ok && old(Behind(now)) then 1 else 0
    {
      hide PcmTrack.Sound, FramesOf, Samples, TickFrames, TickNs, TickAt;
      hide Recording.WellTimed, Recording.VideoCount, Recording.AudioPcm, Recording.LastPicture;
      var behind := Behind(now);
      var isNew := LookAtScanout(now, around);
      ok := SendTick(shared, sink, isNew);
      if ok && behind {
        lateTicks := lateTicks + 1;
      }
    }

    /** Take what the tap queued and commit it as far as the video goes, with silence up to a little behind `now`. */
    method CommitAudio(shared: Shared, sink: Sink, now: int) returns (ok: bool)
      requires Ready(shared, sink) && next > 0 && base + TickNs(next - 1, fps) <= now
      modifies this`eras, track, shared`queue, shared`handed, sink
      ensures Ready(shared, sink) && old(sink.log) <= sink.log && track == old(track)
      ensures ok && track != null ==>
                Now() == AfterCommit(old(Now()).(next := next - 1), fps, now, old(Waiting(shared))) && Close()
      ensures eras == old(eras) + if track == null then [] else Repeat(|old(Waiting(shared)).chunks|, EraNow())
      ensures EraNow() == old(EraNow())
    {
      hide PcmTrack.Sound, PcmTrack.AddAll, PcmTrack.Commit, FramesOf, Samples, Recording.WellTimed;
      hide TickFrames, TickNs, Frames, FramesSince, Queued, TurnedAway, ChunksOf, Lengths, ErasHold;
      hide Recording.VideoCount, Recording.AudioPcm, Recording.LastPicture;
      if track == null {
        return true;
      }
      var videoEnd := TickFrames(next, fps);
      var pad := PadEnd(base, now, videoEnd);
      ghost var chunks := ChunksOf(shared.queue);
      ErasMore(track.model, chunks, eras, t0, EraNow());
      eras := eras + Repeat(|chunks|, EraNow());
      track.Take(shared);
      SoundIsBounded(track.model);
      CommitReaches(track.model, pad, videoEnd);
      ok := track.Commit(pad, videoEnd, sink, fps);
      PaddingLag(base, now, next, fps);
    }

    /** The audio committed trails the video written by at most a tick, the lag, and a frame of rounding. */
    ghost predicate Close()
      reads this, track
    {
      track != null && next > 0 ==>
        TickFrames(next, fps) - |track.model.out| <=
        TickFrames(next, fps) - TickFrames(next - 1, fps) + AUDIO_LAG_FRAMES + 1
    }

    /** Cut a stall that is too long to catch up. */
    method CutStall(shared: Shared, sink: Sink, now: int) returns (ghost atCut: Taken)
      requires Ready(shared, sink) && Due() <= now
      modifies this`base, this`skipped, this`eras, track, shared`queue, shared`handed
      ensures Ready(shared, sink) && Due() <= now && track == old(track)
      ensures if now - old(Due()) > MAX_BACKLOG_NS then base == old(base) + (now - old(Due())) && !Behind(now)
              else base == old(base) && atCut == NOTHING
      ensures track != null ==>
                Now() == if Stalled(old(Now()), fps, now) then AfterCut(old(Now()), t0, fps, now, atCut) else old(Now())
      ensures eras == old(eras) + Repeat(|atCut.chunks|, old(EraNow()))
    {
      hide AfterCut, TickNs, TickAt;
      atCut := NOTHING;
      var late := now - Due();
      if late > MAX_BACKLOG_NS {
        if track != null {
          atCut := Waiting(shared);
        }
        Cut(shared, sink, now, late);
      }
    }

    /** Up to the video sample: cut a long stall; the tap is called before and after. */
    method Prepare(shared: Shared, sink: Sink, now: int, around: Surroundings) returns (ghost atCut: Taken)
      requires Ready(shared, sink) && Due() <= now
      modifies this`base, this`skipped, this`eras, track, shared
      ensures Ready(shared, sink) && Due() <= now && track == old(track)
      ensures Arrivals(shared.calls) == Arrivals(old(shared.calls)) + around.Taps()
      ensures if now - old(Due()) > MAX_BACKLOG_NS then base == old(base) + (now - old(Due())) && !Behind(now)
              else base == old(base) && atCut == NOTHING
      ensures track != null ==>
                Now() == if Stalled(old(Now()), fps, now) then AfterCut(old(Now()), t0, fps, now, atCut) else old(Now())
      ensures eras == old(eras) + Repeat(|atCut.chunks|, old(EraNow()))
    {
      hide PcmTrack.Sound, FramesOf, Samples, TickFrames, TickNs, TickAt, FramesSince, Queued, TurnedAway, ChunksOf, Lengths;
      hide Recording.WellTimed, Recording.VideoCount, Recording.AudioPcm, Recording.LastPicture;
      hide AfterCut, ErasHold, Arrivals, Repeat;
      Hear(shared, sink, around.early);
      atCut := CutStall(shared, sink, now);
      Hear(shared, sink, around.between);
    }

    /** The tick itself: cut a long stall, write the video sample, commit audio; the tap is called all the while. */
    method TickOnce(shared: Shared, sink: Sink, now: int, around: Surroundings) returns (ok: bool, ghost tick: TickRecord)
      requires Ready(shared, sink) && Due() <= now
      modifies Parts(), shared, sink
      ensures Consistent(shared, sink) && track == old(track) && old(sink.log) <= sink.log && history == old(history)
      ensures ok ==> Ready(shared, sink) && Close() && next == old(next) + 1
      ensures Arrivals(shared.calls) == Arrivals(old(shared.calls)) + around.Taps()
      ensures if now - old(Due()) > MAX_BACKLOG_NS
              then base == old(base) + (now - old(Due())) && lateTicks == old(lateTicks)
              else base == old(base) && tick.atCut == NOTHING
      ensures tick.now == now
      ensures ok && track != null ==> Now() == AfterTick(old(Now()), t0, fps, tick)
      ensures TakenSince(old(eras), eras, old(EraNow()), EraNow())
      ensures ok ==> eras == old(eras) + Repeat(|tick.atCut.chunks|, old(EraNow())) + Repeat(|tick.atCommit.chunks|, EraNow())
    {
      hide PcmTrack.Sound, FramesOf, Samples, TickFrames, TickNs, TickAt, FramesSince, Queued, TurnedAway, ChunksOf, Lengths;
      hide Recording.WellTimed, Recording.VideoCount, Recording.AudioPcm, Recording.LastPicture;
      hide AfterCut, AfterCommit, ErasHold, Arrivals, Repeat, TakenSince;
      ghost var was, wasEra := eras, EraNow();
      ghost var atCut := Prepare(shared, sink, now, around);
      tick := TickRecord(now, atCut, if track == null then NOTHING else Waiting(shared));
      ok := TickVideo(shared, sink, now, around);
      TakenTwice(was, |atCut.chunks|, wasEra, 0, EraNow());
      if ok {
        ok := CommitAudio(shared, sink, now);
        TakenTwice(was, |atCut.chunks|, wasEra, |tick.atCommit.chunks|, EraNow());
      }
    }

    /** A tick that is due, put down in the history. */
    method Tick(shared: Shared, sink: Sink, now: int, around: Surroundings) returns (ok: bool)
      requires Valid(shared, sink) && Due() <= now
      modifies Parts(), shared, sink
      ensures Consistent(shared, sink) && track == old(track) && old(sink.log) <= sink.log
      ensures ok ==> Valid(shared, sink) && Close() && next == old(next) + 1
      ensures Arrivals(shared.calls) == Arrivals(old(shared.calls)) + around.Taps()
      ensures if now - old(Due()) > MAX_BACKLOG_NS
              then base == old(base) + (now - old(Due())) && lateTicks == old(lateTicks)
              else base == old(base)
      ensures ok ==> |history| == |old(history)| + 1 && old(history) <= history && history[|old(history)|].now == now
      ensures !ok ==> history == old(history)
      ensures track != null ==> ErasKnown()
    {
      hide PcmTrack.Sound, FramesOf, Samples, TickFrames, FramesSince, Queued, TurnedAway, ChunksOf, Lengths, ErasHold;
      hide Recording.WellTimed, Recording.VideoCount, Recording.AudioPcm, Recording.LastPicture;
      hide AfterTick, Play, Possible, TickNs, Arrivals, ClockOf, TimesOf, ErasOf, Repeat;
      ghost var before := history;
      ghost var tick;
      ok, tick := TickOnce(shared, sink, now, around);
      if ok {
        OneMoreTime(t0, fps, before, tick);
        OneMoreEra(t0, fps, before, tick);
        if track != null {
          OneMoreTick(t0, fps, before, tick);
          PlayKeepsTime(t0, fps, before + [tick]);
        }
        history := before + [tick];
      }
    }

    /** Take what is left and make the audio as long as the video. */
    method EndAudio(shared: Shared, sink: Sink, arrivals: seq<Arrival>) returns (ok: bool)
      requires Valid(shared, sink)
      modifies this`eras, track, shared, sink
      ensures Ready(shared, sink) && track == old(track) && old(sink.log) <= sink.log
      ensures Arrivals(shared.calls) == Arrivals(old(shared.calls)) + arrivals
      ensures ok && track != null ==>
                |track.model.out| == |AudioPcm(sink.log)| == TickFrames(next, fps) && track.model.staged == []
      ensures ok && track != null ==> EndedWell(shared)
      ensures track != null ==> ErasKnown()
    {
      hide PcmTrack.Sound, PcmTrack.AddAll, PcmTrack.Commit, PcmTrack.Truncate, FramesOf, Samples, Recording.WellTimed;
      hide TickFrames, FramesSince, Queued, TurnedAway, ChunksOf, Lengths, ErasHold, Play, ClockOf, TimesOf, ErasOf;
      hide Recording.VideoCount, Recording.AudioPcm, Recording.LastPicture;
      Hear(shared, sink, arrivals);
      if track == null {
        return true;
      }
      var end := TickFrames(next, fps);
      ghost var before, chunks := track.model, ChunksOf(shared.queue);
      ErasMore(before, chunks, eras, t0, EraNow());
      eras := eras + Repeat(|chunks|, EraNow());
      track.Take(shared);
      TruncateKeeps(track.model, end);
      track.Truncate(end);
      SoundIsBounded(track.model);
      CommitReaches(track.model, end, end);
      ok := track.Commit(end, end, sink, fps);
      RestOf(before, chunks, Queued(t0, shared.calls));
      PlayKeeps(t0, fps, history);
    }

    /** The track at the end: what the ticks made of it, the PCM queued since, cut or padded to the video's length. */
    ghost predicate EndedWell(shared: Shared)
      requires track != null
      reads this, track, shared
    {
      var p, all := Play(t0, fps, history), Queued(t0, shared.calls);
      Possible(t0, fps, history) && p.base == base && p.next == next &&
      |p.track.heard| <= |all| && AllChunks(history) == all[..|p.track.heard|] &&
      track.model == Ended(p, fps, all[|p.track.heard|..])
    }

    /** Write every tick due by `stop`, at most `2 * fps + 1` of them. */
    method TickThrough(shared: Shared, sink: Sink, stop: int, around: nat -> Surroundings) returns (ok: bool)
      requires Valid(shared, sink)
      modifies Parts(), shared, sink
      ensures Consistent(shared, sink) && track == old(track) && old(sink.log) <= sink.log
      ensures ok ==> Valid(shared, sink) && Due() > stop && old(next) <= next <= old(next) + 2 * fps + 1
      ensures Arrivals(old(shared.calls)) <= Arrivals(shared.calls)
      ensures ok ==> Arrivals(shared.calls) == Arrivals(old(shared.calls)) + TapsOf(around, old(next), next)
      ensures ok ==> TimesOf(history) == ReadAll(t0, fps, TimesOf(old(history)), Repeat(next - old(next), stop))
      ensures track != null ==> ErasKnown()
    {
      hide PcmTrack.Sound, FramesOf, Samples, TickFrames, TickNs, FramesSince, Queued, TurnedAway, ChunksOf, Lengths;
      hide Recording.WellTimed, Recording.VideoCount, Recording.AudioPcm, Recording.LastPicture;
      hide AddAll, CutAt, Commit, Play, Possible, AfterCut, AfterCommit, ErasHold, Arrivals, ClockOf, TimesOf, ErasOf, ReadAll, Repeat;
      ghost var first, start := next, Due();
      ghost var calls := Arrivals(shared.calls);
      NoReadings(t0, fps, TimesOf(history), stop);
      ok := true;
      while Due() <= stop
        invariant Valid(shared, sink) && track == old(track) && old(sink.log) <= sink.log && ok
        invariant next == first ==> base == old(base) && Due() == start
        invariant next > first ==>
                    if stop - start > MAX_BACKLOG_NS then next == first + 1 && Due() > stop
                    else base == old(base) && base + TickNs(next - 1, fps) <= stop
        invariant next >= first
        invariant Arrivals(shared.calls) == calls + TapsOf(around, first, next)
        invariant TimesOf(history) == ReadAll(t0, fps, TimesOf(old(history)), Repeat(next - first, stop))
        decreases stop - Due()
      {
        TicksAdvance(next, fps);
        ghost var before := history;
        ok := Tick(shared, sink, stop, around(next));
        if !ok {
          return;
        }
        TickedAt(t0, fps, before, history, stop);
        ReadAgain(t0, fps, TimesOf(old(history)), next - 1 - first, stop);
      }
      if next > first && stop - start <= MAX_BACKLOG_NS {
        BacklogTicks(first, next - 1, fps);
      }
    }

    /** Finish the recording: the ticks through the one on screen at `stop`, then audio to the same end. */
    method Finish(shared: Shared, sink: Sink, stop: int, around: nat -> Surroundings, last: seq<Arrival>) returns (ok: bool)
      requires Valid(shared, sink)
      modifies Parts(), shared, sink
      ensures Consistent(shared, sink) && track == old(track) && old(sink.log) <= sink.log
      ensures ok ==> Ready(shared, sink) && Due() > stop && old(next) <= next <= old(next) + 2 * fps + 1
      ensures ok && track != null ==> |AudioPcm(sink.log)| == TickFrames(next, fps) && track.model.staged == [] && EndedWell(shared)
      ensures Arrivals(old(shared.calls)) <= Arrivals(shared.calls)
      ensures ok ==> Arrivals(shared.calls) == Arrivals(old(shared.calls)) + TapsOf(around, old(next), next) + last
      ensures ok ==> OnTime() && TimesOf(history) == ReadAll(t0, fps, TimesOf(old(history)), Repeat(next - old(next), stop))
      ensures track != null ==> ErasKnown()
    {
      hide PcmTrack.Sound, FramesOf, Samples, TickFrames, TickNs, FramesSince, Queued, TurnedAway, ChunksOf, Lengths;
      hide Recording.WellTimed, Recording.VideoCount, Recording.AudioPcm, Recording.LastPicture;
      hide Play, Possible, ErasHold, Arrivals, ClockOf, TimesOf, ErasOf, ReadAll, Repeat, TapsOf;
      ok := TickThrough(shared, sink, stop, around);
      if ok {
        ok := EndAudio(shared, sink, last);
      }
    }

    /** At every moment each frame the tap offered was turned away, is queued, is on the track, or was dropped: one of them. */
    lemma EveryFrameCounted(shared: Shared, sink: Sink)
      requires Consistent(shared, sink) && track != null
      ensures Offered(shared.calls) ==
              shared.overflow + ChunkFrames(ChunksOf(shared.queue)) + TapCount(track.model.Cells()) +
              track.late + track.overflow + track.model.gap + track.model.cut
    {
      hide Queued, ChunksOf, FramesOf, Samples, Recording.WellTimed, FramesSince, TickFrames;
      var all := Queued(t0, shared.calls);
      OfferedIsSplit(t0, shared.calls);
      assert all == all[..shared.handed] + all[shared.handed..];
      ChunkFramesConcat(all[..shared.handed], all[shared.handed..]);
      HeardIsChunks(track.model.heard);
    }

    /**
     * Each frame in the recording is silence, or a frame the tap was called
     * with whose wall position, less the shift in force when it was taken, is
     * its index.
     */
    lemma WrittenIsExact(shared: Shared, sink: Sink, k: nat)
      requires Consistent(shared, sink) && track != null && k < |AudioPcm(sink.log)|
      ensures FrameIs(Accepted(shared.calls), eras, t0, AudioPcm(sink.log)[k], k)
    {
      hide Queued, ChunksOf, FramesOf, Recording.WellTimed, FramesSince, TickFrames, TurnedAway, Lengths;
      var t := track.model;
      var cell := t.Cells()[k];
      assert cell == t.out[k] && Samples(t.out)[k] == cell.sample;
      assert CellExact(t.heard, cell, 0 + k);
      if cell.from.Tap? {
        var c := cell.from.chunk;
        assert ChunksHeard(t.heard)[c] == (t.heard[c].wall, t.heard[c].pcm) == Queued(t0, shared.calls)[c];
        QueuedIsAccepted(t0, shared.calls, c);
        assert HeardAt(t0, Accepted(shared.calls)[c], cell.from.offset, eras[c], cell.sample, k);
      }
    }

    /** Every frame of PCM that has a place when it is taken, before the end and never cut, is in the recording. */
    ghost predicate AllWritten(sink: Sink)
      reads this, sink
    {
      forall n: nat, i: nat, j: nat :: Takes(history, n, i, j) && Lasting(t0, fps, history, n, i, j) ==>
        var k := PlaceOf(t0, fps, history, n, i, j);
        0 <= k < |AudioPcm(sink.log)| && AudioPcm(sink.log)[k] == history[n].atCommit.chunks[i].1[j]
    }

    lemma HeardIsWritten(shared: Shared, sink: Sink, n: nat, i: nat, j: nat)
      requires Consistent(shared, sink) && track != null && EndedWell(shared)
      requires Takes(history, n, i, j) && Lasting(t0, fps, history, n, i, j)
      ensures var k := PlaceOf(t0, fps, history, n, i, j);
              0 <= k < |AudioPcm(sink.log)| && AudioPcm(sink.log)[k] == history[n].atCommit.chunks[i].1[j]
    {
      hide Queued, ChunksOf, FramesOf, Recording.WellTimed, FramesSince, TickFrames, TurnedAway, Lengths, Lasting, PlaceOf, Play, Ended, Possible;
      var p, all := Play(t0, fps, history), Queued(t0, shared.calls);
      HeardIsRecorded(t0, fps, history, all[|p.track.heard|..], n, i, j);
      var k := PlaceOf(t0, fps, history, n, i, j);
      assert Samples(track.model.out)[k] == track.model.out[k].sample;
    }

    lemma AllAreWritten(shared: Shared, sink: Sink)
      requires Consistent(shared, sink) && track != null && EndedWell(shared)
      ensures AllWritten(sink)
    {
      hide Encoder.Consistent, Encoder.EndedWell, Lasting, PlaceOf, Recording.AudioPcm;
      forall n: nat, i: nat, j: nat | Takes(history, n, i, j) && Lasting(t0, fps, history, n, i, j)
        ensures var k := PlaceOf(t0, fps, history, n, i, j);
                0 <= k < |AudioPcm(sink.log)| && AudioPcm(sink.log)[k] == history[n].atCommit.chunks[i].1[j]
      {
        HeardIsWritten(shared, sink, n, i, j);
      }
    }

    /** The overflow the shutdown report shows: what the tap turned away outside cuts, and what staging dropped. */
    method OverflowReported(shared: Shared, sink: Sink) returns (frames: nat)
      requires Consistent(shared, sink)
      ensures frames == shared.overflow + if track == null then 0 else track.overflow - track.cutOverflow
      ensures track != null ==> frames >= track.overflow
    {
      if track == null {
        frames := shared.overflow;
      } else {
        frames := shared.overflow - track.cutOverflow + track.overflow;
      }
    }
  }

  /** Where the track ends after a cut at `at` that keeps what was committed by then. */
  lemma CutEnds(t: Track, chunks: seq<Chunk>, at: int, wallEnd: int, shift: int)
    requires PcmTrack.Sound(t) && |t.out| <= at
    ensures CutAt(AddAll(t, chunks), at, wallEnd, shift).End() <= at
  {
    hide AddAll, PcmTrack.Sound;
    AddAllKeeps(t, chunks);
    TruncateKeeps(AddAll(t, chunks), at);
  }

  /** The chunks waiting are those after the ones heard. */
  lemma RestOf(t: Track, chunks: seq<Chunk>, all: seq<Chunk>)
    requires ChunksHeard(t.heard + HeardAll(t, chunks)) == all
    ensures |t.heard| <= |all| && all[|t.heard|..] == chunks && all[..|t.heard|] == ChunksHeard(t.heard)
  {
    ChunksHeardMore(t, chunks);
  }

  lemma NoReadings(t0: int, fps: Fps, times: seq<int>, now: int)
    ensures ReadAll(t0, fps, times, Repeat(0, now)) == times
  {
  }

  lemma ReadAgain(t0: int, fps: Fps, times: seq<int>, n: nat, now: int)
    ensures ReadAll(t0, fps, times, Repeat(n + 1, now)) == Read(t0, fps, ReadAll(t0, fps, times, Repeat(n, now)), now)
  {
    hide Read;
    OneMoreReading(t0, fps, times, Repeat(n, now), now);
    assert Repeat(n, now) + [now] == Repeat(n + 1, now);
  }

  /** A tick that was due is what the reading at its time makes. */
  lemma TickedAt(t0: int, fps: Fps, before: seq<TickRecord>, after: seq<TickRecord>, now: int)
    requires |after| == |before| + 1 && before <= after && after[|before|].now == now
    requires DueAt(ClockOf(t0, fps, TimesOf(before)), fps) <= now
    ensures TimesOf(after) == Read(t0, fps, TimesOf(before), now)
  {
    hide ClockOf, TickNs;
    assert after == before + [after[|before|]];
    OneMoreTime(t0, fps, before, after[|before|]);
  }

  /** One round of the encoder thread: what it reads of the clock, and what happens around it. */
  datatype Round = Round(now: int, around: Surroundings)

  function RoundTaps(rounds: seq<Round>): seq<Arrival> {
    if rounds == [] then [] else RoundTaps(rounds[..|rounds| - 1]) + rounds[|rounds| - 1].around.Taps()
  }

  lemma NoRounds(t0: int, fps: Fps, rounds: seq<Round>, history: seq<TickRecord>)
    requires history == []
    ensures TimesOf(history) == ReadAll(t0, fps, [], NowsOf(rounds)[..0])
  {
  }

  function NowsOf(rounds: seq<Round>): (r: seq<int>)
    ensures |r| == |rounds|
  {
    seq(|rounds|, i requires 0 <= i < |rounds| => rounds[i].now)
  }

  /** The rounds until recording stops: a round before the next tick is due only waits, but the tap is called all the same. */
  method RunRounds(encoder: Encoder, shared: Shared, sink: Sink, rounds: seq<Round>) returns (ok: bool)
    requires encoder.Valid(shared, sink) && encoder.history == []
    modifies encoder.Parts(), shared, sink
    ensures encoder.track == old(encoder.track) && encoder.Consistent(shared, sink)
    ensures encoder.track != null ==> encoder.ErasKnown()
    ensures ok ==> encoder.Valid(shared, sink)
    ensures ok ==> TimesOf(encoder.history) == ReadAll(encoder.t0, encoder.fps, [], NowsOf(rounds))
    ensures ok ==> Arrivals(shared.calls) == Arrivals(old(shared.calls)) + RoundTaps(rounds)
  {
    hide PcmTrack.Sound, FramesOf, Samples, TickFrames, TickNs, FramesSince, ChunksOf, Queued, TurnedAway, Lengths, Arrivals;
    hide Recording.WellTimed, Recording.VideoCount, Recording.AudioPcm, Recording.LastPicture, Play, Possible, ErasHold;
    hide ClockOf, TimesOf, ErasOf, ReadAll, Repeat;
    ghost var calls, t0, fps := Arrivals(shared.calls), encoder.t0, encoder.fps;
    NoRounds(t0, fps, rounds, encoder.history);
    ok := true;
    for i := 0 to |rounds|
      invariant encoder.Valid(shared, sink) && encoder.track == old(encoder.track) && ok
      invariant TimesOf(encoder.history) == ReadAll(t0, fps, [], NowsOf(rounds)[..i])
      invariant Arrivals(shared.calls) == calls + RoundTaps(rounds[..i])
    {
      assert rounds[..i + 1][..i] == rounds[..i];
      ghost var before := encoder.history;
      OneMoreReading(t0, fps, [], NowsOf(rounds)[..i], rounds[i].now);
      assert NowsOf(rounds)[..i + 1] == NowsOf(rounds)[..i] + [rounds[i].now];
      if encoder.Due() <= rounds[i].now {
        ok := encoder.Tick(shared, sink, rounds[i].now, rounds[i].around);
        if !ok {
          return;
        }
        TickedAt(t0, fps, before, encoder.history, rounds[i].now);
      } else {
        encoder.Hear(shared, sink, rounds[i].around.Taps());
      }
    }
    assert rounds[..|rounds|] == rounds && NowsOf(rounds)[..|rounds|] == NowsOf(rounds);
  }

  /**
   * A whole recording, until the thread sees that it stopped at `stop`: the
   * ticks are written at the readings that found one due, then at `stop`, and
   * what is recorded is exactly what the tap was called with.
   */
  method Encode(shared: Shared, sink: Sink, fps: Fps, audio: bool, rounds: seq<Round>, stop: int, around: nat -> Surroundings, last: seq<Arrival>)
    returns (encoder: Encoder, ok: bool, ticked: nat)
    requires shared.Valid() && shared.handed == 0 && sink.log == []
    modifies shared, sink
    ensures fresh(encoder) && encoder.fps == fps && encoder.t0 == shared.t0 && encoder.Consistent(shared, sink)
    ensures forall k :: 0 <= k < |AudioPcm(sink.log)| ==> FrameIs(Accepted(shared.calls), encoder.eras, shared.t0, AudioPcm(sink.log)[k], k)
    ensures audio ==> encoder.track != null && encoder.ErasKnown()
    ensures ok ==> encoder.OnTime() && ticked == |ReadAll(shared.t0, fps, [], NowsOf(rounds))| <= encoder.next &&
                   TimesOf(encoder.history) == ReadAll(shared.t0, fps, [], NowsOf(rounds) + Repeat(encoder.next - ticked, stop))
    ensures ok ==> encoder.Due() > stop && VideoCount(sink.log) == encoder.next
    ensures ok ==> Arrivals(shared.calls) == Arrivals(old(shared.calls)) + RoundTaps(rounds) + TapsOf(around, ticked, encoder.next) + last
    ensures ok && audio ==> |AudioPcm(sink.log)| == TickFrames(VideoCount(sink.log), fps) && encoder.EndedWell(shared)
    ensures ok && audio ==> encoder.AllWritten(sink)
  {
    hide PcmTrack.Sound, FramesOf, Samples, TickFrames, TickNs, FramesSince, ChunksOf, Queued, TurnedAway, Lengths, Arrivals;
    hide Recording.WellTimed, Recording.VideoCount, Recording.AudioPcm, Recording.LastPicture, Play, Possible, ErasHold, FrameIs;
    hide ClockOf, TimesOf, ErasOf, ReadAll, Repeat, RoundTaps, TapsOf, Encoder.AllWritten, Ended, AllChunks;
    encoder := new Encoder(shared, sink, fps, audio);
    ok := RunRounds(encoder, shared, sink, rounds);
    ticked := encoder.next;
    if ok {
      ok := encoder.Finish(shared, sink, stop, around, last);
      if ok {
        ReadingsConcat(shared.t0, fps, [], NowsOf(rounds), Repeat(encoder.next - ticked, stop));
      }
    }
    if ok && audio {
      encoder.AllAreWritten(shared, sink);
    }
    forall k | 0 <= k < |AudioPcm(sink.log)|
      ensures FrameIs(Accepted(shared.calls), encoder.eras, shared.t0, AudioPcm(sink.log)[k], k)
    {
      if encoder.track != null {
        encoder.WrittenIsExact(shared, sink, k);
      }
    }
  }
}
