/** What the encoder sends to the writer, in order, and the writer as an append-only log that may fail. */
module Recording {
  import opened Basics
  import opened PcmTrack
  import opened Timeline

  /** A sample sent to the writer; a video sample without a picture repeats the previous one. */
  datatype Write =
    | Video(time: int, duration: int, picture: Option<nat>)
    | Audio(pcm: seq<Sample>, time: int, duration: int)

  function VideoCount(log: seq<Write>): nat {
    if log == [] then 0 else VideoCount(log[..|log| - 1]) + if log[|log| - 1].Video? then 1 else 0
  }

  /** The audio track as written. */
  function AudioPcm(log: seq<Write>): seq<Sample> {
    if log == [] then []
    else AudioPcm(log[..|log| - 1]) + if log[|log| - 1].Audio? then log[|log| - 1].pcm else []
  }

  /** The number of the last picture sent, if any was. */
  function LastPicture(log: seq<Write>): Option<nat> {
    if log == [] then None
    else
      var w := log[|log| - 1];
      if w.Video? && w.picture.Some? then w.picture else LastPicture(log[..|log| - 1])
  }

  /**
   * A sample that may follow `log`: video continues the tiling of the timeline
   * with one nominal period, and never repeats before there is a picture nor
   * goes back to an earlier one; audio continues where audio ended, in capped
   * pieces, and never runs past the video written.
   */
  predicate Follows(log: seq<Write>, w: Write, fps: Fps) {
    match w
    case Video(time, duration, picture) =>
      var k := VideoCount(log);
      time == TickHns(k, fps) && time + duration == TickHns(k + 1, fps) &&
      (picture.None? ==> LastPicture(log).Some?) &&
      (picture.Some? && LastPicture(log).Some? ==> LastPicture(log).value < picture.value)
    case Audio(pcm, time, duration) =>
      var n := |AudioPcm(log)|;
      time == AudioHns(n) && time + duration == AudioHns(n + |pcm|) &&
      0 < |pcm| <= MAX_STAGED_FRAMES &&
      time + duration <= TickHns(VideoCount(log), fps)
  }

  ghost predicate WellTimed(log: seq<Write>, fps: Fps) {
    log != [] ==> WellTimed(log[..|log| - 1], fps) && Follows(log[..|log| - 1], log[|log| - 1], fps)
  }

  lemma Appended(log: seq<Write>, w: Write, fps: Fps)
    ensures VideoCount(log + [w]) == VideoCount(log) + if w.Video? then 1 else 0
    ensures AudioPcm(log + [w]) == AudioPcm(log) + if w.Audio? then w.pcm else []
    ensures LastPicture(log + [w]) == if w.Video? && w.picture.Some? then w.picture else LastPicture(log)
    ensures WellTimed(log + [w], fps) <==> WellTimed(log, fps) && Follows(log, w, fps)
  {
    assert (log + [w])[..|log|] == log;
  }

  /** When the `j`th sample of a stream starts and ends, from the log alone: streams are contiguous from 0. */
  function VideoEnd(log: seq<Write>): int {
    if log == [] then 0
    else
      var w := log[|log| - 1];
      if w.Video? then w.time + w.duration else VideoEnd(log[..|log| - 1])
  }

  function AudioEnd(log: seq<Write>): int {
    if log == [] then 0
    else
      var w := log[|log| - 1];
      if w.Audio? then w.time + w.duration else AudioEnd(log[..|log| - 1])
  }

  lemma {:induction false} EndsAgree(log: seq<Write>, fps: Fps)
    requires WellTimed(log, fps)
    ensures VideoEnd(log) == TickHns(VideoCount(log), fps) && AudioEnd(log) == AudioHns(|AudioPcm(log)|)
    ensures AudioEnd(log) <= VideoEnd(log)
  {
    hide TickHns, AudioHns;
    TimesStartAtZero(fps);
    if log != [] {
      var n := |log| - 1;
      EndsAgree(log[..n], fps);
      TickFramesMono(VideoCount(log[..n]), VideoCount(log[..n]) + 1, fps);
    }
  }

  lemma TimesStartAtZero(fps: Fps)
    ensures TickHns(0, fps) == 0 && AudioHns(0) == 0
  {
  }

  /** Every sample of a well-timed log followed what was before it. */
  lemma {:induction false} EachFollows(log: seq<Write>, fps: Fps, i: nat)
    requires WellTimed(log, fps) && i < |log|
    ensures WellTimed(log[..i], fps) && Follows(log[..i], log[i], fps)
    decreases |log|
  {
    hide Follows;
    var n := |log| - 1;
    if i < n {
      EachFollows(log[..n], fps, i);
      assert log[..n][..i] == log[..i];
    }
  }

  /**
   * In every well-timed log each stream starts at 0 and continues exactly where
   * it left off, and audio never ends after the video already written.
   */
  lemma StreamsAreContiguous(log: seq<Write>, fps: Fps)
    requires WellTimed(log, fps)
    ensures VideoEnd(log) == TickHns(VideoCount(log), fps) && AudioEnd(log) == AudioHns(|AudioPcm(log)|)
    ensures AudioEnd(log) <= VideoEnd(log)
    ensures forall i :: 0 <= i < |log| ==>
              log[i].time == (if log[i].Video? then VideoEnd(log[..i]) else AudioEnd(log[..i])) &&
              log[i].duration >= 0
  {
    hide TickHns, AudioHns, VideoEnd, AudioEnd, VideoCount, AudioPcm, LastPicture, WellTimed;
    EndsAgree(log, fps);
    forall i | 0 <= i < |log|
      ensures log[i].time == (if log[i].Video? then VideoEnd(log[..i]) else AudioEnd(log[..i])) &&
              log[i].duration >= 0
    {
      EachFollows(log, fps, i);
      EndsAgree(log[..i], fps);
      var k, n := VideoCount(log[..i]), |AudioPcm(log[..i])|;
      TickFramesMono(k, k + 1, fps);
      if log[i].Audio? {
        AudioHnsMono(n, n + |log[i].pcm|);
      }
    }
  }

  /** The writer: it appends what it is sent, until it fails for good. */
  class Sink {
    var log: seq<Write>
    var room: nat

    constructor (room: nat)
      ensures log == [] && this.room == room
    {
      log, this.room := [], room;
    }

    method Send(w: Write) returns (ok: bool)
      modifies this
      ensures ok <==> old(room) > 0
      ensures log == if ok then old(log) + [w] else old(log)
    {
      ok := room > 0;
      if ok {
        log, room := log + [w], room - 1;
      }
    }
  }
}
