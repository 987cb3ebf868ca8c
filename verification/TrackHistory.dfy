/**
 * The audio track of a recording as a function of its history: when each tick
 * was written, and which chunks the tap had queued each time they were taken.
 */
module TrackHistory {
  import opened Basics
  import opened PcmTrack
  import opened Timeline

  /** PCM taken at one moment: the chunks, and the frames turned away since the last one. */
  datatype Taken = Taken(chunks: seq<Chunk>, lost: nat)

  const NOTHING := Taken([], 0)

  /** A tick: when it was written, what its cut took (if it cut) and what its commit took. */
  datatype TickRecord = TickRecord(now: int, atCut: Taken, atCommit: Taken)

  datatype Progress = Progress(base: int, next: nat, track: Track, tapOverflow: nat, cutOverflow: nat)

  function Start(t0: int): Progress { Progress(t0, 0, EMPTY, 0, 0) }

  function Late(p: Progress, fps: Fps, now: int): int { now - (p.base + TickNs(p.next, fps)) }

  /** A stall the encoder does not catch up. */
  predicate Stalled(p: Progress, fps: Fps, now: int) { Late(p, fps, now) > MAX_BACKLOG_NS }

  /** The stretch before `now` is cut; PCM queued by then goes on the track first, at the old shift. */
  function AfterCut(p: Progress, t0: int, fps: Fps, now: int, taken: Taken): Progress {
    var base := p.base + Late(p, fps, now);
    Progress(
      base, p.next,
      CutAt(AddAll(p.track, taken.chunks), TickFrames(p.next, fps), FramesSince(t0, now), FramesSince(t0, base)),
      p.tapOverflow + taken.lost, p.cutOverflow + taken.lost)
  }

  /** How far a tick at `now` that ends at frame `end` pads with silence. */
  function PadEnd(base: int, now: int, end: int): int { Min(FramesSince(base, now) - AUDIO_LAG_FRAMES, end) }

  function AfterCommit(p: Progress, fps: Fps, now: int, taken: Taken): Progress {
    var end := TickFrames(p.next + 1, fps);
    Progress(
      p.base, p.next + 1, Commit(AddAll(p.track, taken.chunks), PadEnd(p.base, now, end), end),
      p.tapOverflow + taken.lost, p.cutOverflow)
  }

  function AfterTick(p: Progress, t0: int, fps: Fps, tick: TickRecord): Progress {
    var ready := if Stalled(p, fps, tick.now) then AfterCut(p, t0, fps, tick.now, tick.atCut) else p;
    AfterCommit(ready, fps, tick.now, tick.atCommit)
  }

  function Play(t0: int, fps: Fps, history: seq<TickRecord>): Progress {
    if history == [] then Start(t0)
    else AfterTick(Play(t0, fps, history[..|history| - 1]), t0, fps, history[|history| - 1])
  }

  /** The track once the recording ends: what is left to take, then everything through the video's end. */
  function Ended(p: Progress, fps: Fps, last: seq<Chunk>): Track {
    var end := TickFrames(p.next, fps);
    Commit(Truncate(AddAll(p.track, last), end), end, end)
  }

  /** Every tick was due when it was written, and only a cut takes anything at a cut. */
  ghost predicate Possible(t0: int, fps: Fps, history: seq<TickRecord>) {
    history != [] ==>
      var before, last := history[..|history| - 1], history[|history| - 1];
      Possible(t0, fps, before) && Late(Play(t0, fps, before), fps, last.now) >= 0 &&
      (!Stalled(Play(t0, fps, before), fps, last.now) ==> last.atCut == NOTHING)
  }

  /** All chunks taken, in order. */
  function AllChunks(history: seq<TickRecord>): seq<Chunk> {
    if history == [] then []
    else
      var last := history[|history| - 1];
      AllChunks(history[..|history| - 1]) + last.atCut.chunks + last.atCommit.chunks
  }

  lemma OneMoreTick(t0: int, fps: Fps, history: seq<TickRecord>, tick: TickRecord)
    requires Possible(t0, fps, history) && Late(Play(t0, fps, history), fps, tick.now) >= 0
    requires !Stalled(Play(t0, fps, history), fps, tick.now) ==> tick.atCut == NOTHING
    ensures Possible(t0, fps, history + [tick])
    ensures Play(t0, fps, history + [tick]) == AfterTick(Play(t0, fps, history), t0, fps, tick)
  {
    assert (history + [tick])[..|history|] == history;
  }

  // ---- What every history leads to ----

  /** The track is exact and accounted for, has taken just these chunks, and its shift is the time cut. */
  ghost predicate InOrder(p: Progress, t0: int, fps: Fps, chunks: seq<Chunk>) {
    Sound(p.track) && ChunksHeard(p.track.heard) == chunks && t0 <= p.base &&
    p.track.shift == FramesSince(t0, p.base) && |p.track.out| <= TickFrames(p.next, fps) &&
    p.cutOverflow <= p.tapOverflow
  }

  lemma CutKeeps(p: Progress, t0: int, fps: Fps, now: int, taken: Taken, chunks: seq<Chunk>)
    requires InOrder(p, t0, fps, chunks) && Late(p, fps, now) >= 0
    ensures InOrder(AfterCut(p, t0, fps, now, taken), t0, fps, chunks + taken.chunks)
    ensures p.track.out == AfterCut(p, t0, fps, now, taken).track.out
  {
    hide AddAll, Truncate, FramesSince, TickFrames, TickNs, Exact, Balanced, TapCount;
    AddAllKeeps(p.track, taken.chunks);
    ChunksHeardMore(p.track, taken.chunks);
    var added := AddAll(p.track, taken.chunks);
    TruncateKeeps(added, TickFrames(p.next, fps));
    var cut := Truncate(added, TickFrames(p.next, fps));
    SoundWithShift(cut, FramesSince(t0, now), FramesSince(t0, p.base + Late(p, fps, now)));
  }

  /** Moving the floor and the shift touches nothing on the track. */
  lemma SoundWithShift(t: Track, floor: int, shift: int)
    requires Sound(t)
    ensures Sound(t.(floor := floor, shift := shift))
  {
  }

  lemma AfterCommitKeeps(p: Progress, t0: int, fps: Fps, now: int, taken: Taken, chunks: seq<Chunk>)
    requires InOrder(p, t0, fps, chunks)
    ensures InOrder(AfterCommit(p, fps, now, taken), t0, fps, chunks + taken.chunks)
    ensures p.track.out <= AfterCommit(p, fps, now, taken).track.out
  {
    hide AddAll, Commit, FramesSince, TickFrames, Exact, Balanced;
    AddAllKeeps(p.track, taken.chunks);
    ChunksHeardMore(p.track, taken.chunks);
    var added, end := AddAll(p.track, taken.chunks), TickFrames(p.next + 1, fps);
    var pad := PadEnd(p.base, now, end);
    CommitKeeps(added, pad, end);
    CommitReaches(added, pad, end);
    TickFramesMono(p.next, p.next + 1, fps);
  }

  lemma TickKeeps(p: Progress, t0: int, fps: Fps, tick: TickRecord, chunks: seq<Chunk>)
    requires InOrder(p, t0, fps, chunks) && Late(p, fps, tick.now) >= 0
    requires !Stalled(p, fps, tick.now) ==> tick.atCut == NOTHING
    ensures InOrder(AfterTick(p, t0, fps, tick), t0, fps, chunks + tick.atCut.chunks + tick.atCommit.chunks)
    ensures p.track.out <= AfterTick(p, t0, fps, tick).track.out
  {
    hide AfterCut, AfterCommit, InOrder, Late;
    if Stalled(p, fps, tick.now) {
      CutKeeps(p, t0, fps, tick.now, tick.atCut, chunks);
      AfterCommitKeeps(AfterCut(p, t0, fps, tick.now, tick.atCut), t0, fps, tick.now, tick.atCommit, chunks + tick.atCut.chunks);
    } else {
      assert chunks + tick.atCut.chunks == chunks;
      AfterCommitKeeps(p, t0, fps, tick.now, tick.atCommit, chunks);
    }
  }

  /** Every history keeps the track exact, with every chunk taken on it or counted. */
  lemma {:induction false} PlayKeeps(t0: int, fps: Fps, history: seq<TickRecord>)
    requires Possible(t0, fps, history)
    ensures InOrder(Play(t0, fps, history), t0, fps, AllChunks(history))
  {
    hide AfterTick, Late, Stalled, InOrder;
    if history == [] {
      StartIsKept(t0, fps);
    } else {
      var k := |history| - 1;
      PlayKeeps(t0, fps, history[..k]);
      TickKeeps(Play(t0, fps, history[..k]), t0, fps, history[k], AllChunks(history[..k]));
    }
  }

  /** What was committed at any time is never taken back or altered. */
  lemma {:induction false} CommittedStays(t0: int, fps: Fps, history: seq<TickRecord>, n: nat)
    requires Possible(t0, fps, history) && n <= |history|
    ensures Play(t0, fps, history[..n]).track.out <= Play(t0, fps, history).track.out
  {
    hide AfterTick, Late, Stalled, InOrder;
    if n == |history| {
      assert history[..n] == history;
    } else {
      var k := |history| - 1;
      CommittedStays(t0, fps, history[..k], n);
      assert history[..k][..n] == history[..n];
      PlayKeeps(t0, fps, history[..k]);
      TickKeeps(Play(t0, fps, history[..k]), t0, fps, history[k], AllChunks(history[..k]));
    }
  }

  lemma StartIsKept(t0: int, fps: Fps)
    ensures InOrder(Start(t0), t0, fps, [])
  {
    hide Sound;
    EmptyIsSound();
    assert FramesSince(t0, t0) == 0;
    assert ChunksHeard(EMPTY.heard) == [];
  }

  // ---- Ticks and the clock ----

  /** When tick 0 was due, the next tick, and the wall position recording last went on from. */
  datatype Clock = Clock(base: int, next: nat, floor: int)

  function DueAt(c: Clock, fps: Fps): int { c.base + TickNs(c.next, fps) }

  function AfterTickAt(c: Clock, t0: int, fps: Fps, now: int): Clock {
    var late := now - DueAt(c, fps);
    if late > MAX_BACKLOG_NS then Clock(c.base + late, c.next + 1, FramesSince(t0, now)) else c.(next := c.next + 1)
  }

  /** The clock after ticks written at these times. */
  function ClockOf(t0: int, fps: Fps, times: seq<int>): (c: Clock)
    ensures c.base >= t0 && c.next == |times|
  {
    if times == [] then Clock(t0, 0, 0)
    else AfterTickAt(ClockOf(t0, fps, times[..|times| - 1]), t0, fps, times[|times| - 1])
  }

  /** A reading of the clock: a tick if one is due, else nothing. */
  function Read(t0: int, fps: Fps, times: seq<int>, now: int): seq<int> {
    if DueAt(ClockOf(t0, fps, times), fps) <= now then times + [now] else times
  }

  function ReadAll(t0: int, fps: Fps, times: seq<int>, readings: seq<int>): seq<int> {
    if readings == [] then times
    else Read(t0, fps, ReadAll(t0, fps, times, readings[..|readings| - 1]), readings[|readings| - 1])
  }

  lemma OneMoreReading(t0: int, fps: Fps, times: seq<int>, readings: seq<int>, now: int)
    ensures ReadAll(t0, fps, times, readings + [now]) == Read(t0, fps, ReadAll(t0, fps, times, readings), now)
  {
    assert (readings + [now])[..|readings|] == readings;
  }

  lemma {:induction false} ReadingsConcat(t0: int, fps: Fps, times: seq<int>, a: seq<int>, b: seq<int>)
    ensures ReadAll(t0, fps, times, a + b) == ReadAll(t0, fps, ReadAll(t0, fps, times, a), b)
  {
    hide Read;
    if b == [] {
      assert a + b == a;
    } else {
      var n := |b| - 1;
      ReadingsConcat(t0, fps, times, a, b[..n]);
      assert (a + b)[..|a + b| - 1] == a + b[..n];
    }
  }

  function TimesOf(history: seq<TickRecord>): (r: seq<int>)
    ensures |r| == |history|
  {
    seq(|history|, i requires 0 <= i < |history| => history[i].now)
  }

  lemma OneMoreTime(t0: int, fps: Fps, history: seq<TickRecord>, tick: TickRecord)
    ensures TimesOf(history + [tick]) == TimesOf(history) + [tick.now]
    ensures ClockOf(t0, fps, TimesOf(history + [tick])) == AfterTickAt(ClockOf(t0, fps, TimesOf(history)), t0, fps, tick.now)
  {
    var times := TimesOf(history);
    assert TimesOf(history + [tick]) == times + [tick.now];
    assert (times + [tick.now])[..|times|] == times;
  }

  function ClockNow(p: Progress): Clock { Clock(p.base, p.next, p.track.floor) }

  lemma TickTime(p: Progress, t0: int, fps: Fps, tick: TickRecord, chunks: seq<Chunk>)
    requires InOrder(p, t0, fps, chunks) && Late(p, fps, tick.now) >= 0
    ensures ClockNow(AfterTick(p, t0, fps, tick)) == AfterTickAt(ClockNow(p), t0, fps, tick.now)
  {
    hide AddAll, Commit, Truncate, FramesSince, TickFrames, TickNs, Sound;
    var ready := if Stalled(p, fps, tick.now) then AfterCut(p, t0, fps, tick.now, tick.atCut) else p;
    if Stalled(p, fps, tick.now) {
      CutKeeps(p, t0, fps, tick.now, tick.atCut, chunks);
    }
    AddAllKeeps(ready.track, tick.atCommit.chunks);
    var end := TickFrames(ready.next + 1, fps);
    CommitKeeps(AddAll(ready.track, tick.atCommit.chunks), PadEnd(ready.base, tick.now, end), end);
  }

  /** A history keeps the time its ticks say. */
  lemma {:induction false} PlayKeepsTime(t0: int, fps: Fps, history: seq<TickRecord>)
    requires Possible(t0, fps, history)
    ensures ClockNow(Play(t0, fps, history)) == ClockOf(t0, fps, TimesOf(history))
  {
    hide AfterTick, AfterTickAt, InOrder, Late, Stalled, TimesOf;
    if history == [] {
      NoTimes();
    } else {
      var n := |history| - 1;
      PlayKeepsTime(t0, fps, history[..n]);
      PlayKeeps(t0, fps, history[..n]);
      TickTime(Play(t0, fps, history[..n]), t0, fps, history[n], AllChunks(history[..n]));
      OneMoreTime(t0, fps, history[..n], history[n]);
      assert history == history[..n] + [history[n]];
    }
  }

  lemma NoTimes()
    ensures TimesOf([]) == []
  {
  }

  // ---- What is heard is recorded ----

  lemma {:induction false} AddAllSplit(t: Track, a: seq<Chunk>, b: seq<Chunk>)
    ensures AddAll(t, a + b) == AddAll(AddAll(t, a), b)
  {
    hide Add;
    if b == [] {
      assert a + b == a;
    } else {
      var n := |b| - 1;
      AddAllSplit(t, a, b[..n]);
      assert (a + b)[..|a + b| - 1] == a + b[..n];
    }
  }

  /** The track just before chunk `i` of those taken is added. */
  function Before(t: Track, chunks: seq<Chunk>, i: nat): Track
    requires i <= |chunks|
  {
    AddAll(t, chunks[..i])
  }

  /** Of several chunks, each frame that has a place when its chunk's turn comes gets it and keeps it. */
  lemma AddAllPlaces(t: Track, chunks: seq<Chunk>, i: nat, j: nat)
    requires Sound(t) && i < |chunks| && j < |chunks[i].1| && HasPlace(Before(t, chunks, i), chunks[i].0, j)
    ensures var r, k := AddAll(t, chunks), chunks[i].0 + j - t.shift;
            0 <= k < r.End() && r.Cells()[k] == Cell(chunks[i].1[j], Tap(|t.heard| + i, j))
  {
    hide Add, AddAll, Exact, Balanced;
    var u := Before(t, chunks, i);
    AddAllKeeps(t, chunks[..i]);
    AddPlaces(u, chunks[i].0, chunks[i].1, j);
    AddKeeps(u, chunks[i].0, chunks[i].1);
    var v := Add(u, chunks[i].0, chunks[i].1);
    AddAllKeeps(v, chunks[i + 1..]);
    AddAllSplit(t, chunks[..i], chunks[i..]);
    AddAllSplit(u, [chunks[i]], chunks[i + 1..]);
    AddOnly(u, chunks[i]);
    assert chunks[..i] + chunks[i..] == chunks && [chunks[i]] + chunks[i + 1..] == chunks[i..];
  }

  lemma AddOnly(t: Track, c: Chunk)
    ensures AddAll(t, [c]) == Add(t, c.0, c.1)
  {
    hide Add;
    assert [c][..0] == [];
    assert AddAll(t, []) == t;
  }

  /** Cell `k` is on both tracks, and the same. */
  ghost predicate SameCell(a: Track, b: Track, k: nat) { k < a.End() && k < b.End() && a.Cells()[k] == b.Cells()[k] }

  /** A tick leaves a cell alone, unless it cuts at or before it. */
  lemma TickKeepsCell(p: Progress, t0: int, fps: Fps, tick: TickRecord, chunks: seq<Chunk>, k: nat)
    requires InOrder(p, t0, fps, chunks) && Late(p, fps, tick.now) >= 0 && k < p.track.End()
    requires Stalled(p, fps, tick.now) ==> k < TickFrames(p.next, fps)
    ensures SameCell(p.track, AfterTick(p, t0, fps, tick).track, k)
  {
    hide AddAll, Commit, Truncate, FramesSince, TickFrames, TickNs, Exact, Balanced, Stalled;
    var ready := if Stalled(p, fps, tick.now) then AfterCut(p, t0, fps, tick.now, tick.atCut) else p;
    if Stalled(p, fps, tick.now) {
      CutKeeps(p, t0, fps, tick.now, tick.atCut, chunks);
      var added := AddAll(p.track, tick.atCut.chunks);
      AddAllKeeps(p.track, tick.atCut.chunks);
      TruncateKeeps(added, TickFrames(p.next, fps));
      assert SameCell(p.track, added, k);
      assert SameCell(added, ready.track, k);
    }
    AddAllKeeps(ready.track, tick.atCommit.chunks);
    CommitKeepsCell(ready, t0, fps, tick, k);
  }

  lemma CommitKeepsCell(ready: Progress, t0: int, fps: Fps, tick: TickRecord, k: nat)
    requires Sound(ready.track) && k < AddAll(ready.track, tick.atCommit.chunks).End()
    ensures SameCell(AddAll(ready.track, tick.atCommit.chunks), AfterCommit(ready, fps, tick.now, tick.atCommit).track, k)
    ensures k < ready.track.End() ==> SameCell(ready.track, AfterCommit(ready, fps, tick.now, tick.atCommit).track, k)
  {
    hide AddAll, Commit, FramesSince, TickFrames, TickNs, Exact, Balanced;
    AddAllKeeps(ready.track, tick.atCommit.chunks);
    var end := TickFrames(ready.next + 1, fps);
    CommitKeeps(AddAll(ready.track, tick.atCommit.chunks), PadEnd(ready.base, tick.now, end), end);
  }

  /** No tick from the `n`th on cuts at or before frame `k`. */
  ghost predicate NotCut(t0: int, fps: Fps, history: seq<TickRecord>, n: nat, k: nat) {
    forall m :: n <= m < |history| && Stalled(Play(t0, fps, history[..m]), fps, history[m].now) ==> k < TickFrames(m, fps)
  }

  lemma {:induction false} PlayKeepsCell(t0: int, fps: Fps, history: seq<TickRecord>, n: nat, k: nat)
    requires Possible(t0, fps, history) && n <= |history| && NotCut(t0, fps, history, n, k)
    requires k < Play(t0, fps, history[..n]).track.End()
    ensures SameCell(Play(t0, fps, history[..n]).track, Play(t0, fps, history).track, k)
  {
    hide AfterTick, Stalled, Late, InOrder, TickFrames;
    if n == |history| {
      assert history[..n] == history;
    } else {
      var m := |history| - 1;
      var before := history[..m];
      assert before[..n] == history[..n];
      assert forall i :: n <= i < m ==> before[..i] == history[..i] && before[i] == history[i];
      PlayKeepsCell(t0, fps, before, n, k);
      PlayKeeps(t0, fps, before);
      PlayCounts(t0, fps, before);
      TickKeepsCell(Play(t0, fps, before), t0, fps, history[m], AllChunks(before), k);
    }
  }

  lemma {:induction false} PlayCounts(t0: int, fps: Fps, history: seq<TickRecord>)
    ensures Play(t0, fps, history).next == |history|
  {
    hide AddAll, CutAt, Commit, TickNs, TickFrames, FramesSince;
    if history != [] {
      PlayCounts(t0, fps, history[..|history| - 1]);
    }
  }

  lemma {:induction false} PossibleBefore(t0: int, fps: Fps, history: seq<TickRecord>, n: nat)
    requires Possible(t0, fps, history) && n <= |history|
    ensures Possible(t0, fps, history[..n])
    ensures n < |history| ==> Late(Play(t0, fps, history[..n]), fps, history[n].now) >= 0
    ensures n < |history| && !Stalled(Play(t0, fps, history[..n]), fps, history[n].now) ==> history[n].atCut == NOTHING
  {
    hide Play, Late, Stalled;
    if n == |history| {
      assert history[..n] == history;
    } else if n < |history| - 1 {
      var before := history[..|history| - 1];
      PossibleBefore(t0, fps, before, n);
      assert before[..n] == history[..n];
    }
  }

  /** The track when tick `n` commits: after its cut, if it cuts. */
  function AtCommit(t0: int, fps: Fps, history: seq<TickRecord>, n: nat): Progress
    requires n < |history|
  {
    var p, tick := Play(t0, fps, history[..n]), history[n];
    if Stalled(p, fps, tick.now) then AfterCut(p, t0, fps, tick.now, tick.atCut) else p
  }

  /** Tick `n` takes a chunk `i` with a frame `j`. */
  predicate Takes(history: seq<TickRecord>, n: nat, i: nat, j: nat) {
    n < |history| && i < |history[n].atCommit.chunks| && j < |history[n].atCommit.chunks[i].1|
  }

  /** Where on the track that frame belongs. */
  function PlaceOf(t0: int, fps: Fps, history: seq<TickRecord>, n: nat, i: nat, j: nat): int
    requires Takes(history, n, i, j)
  {
    history[n].atCommit.chunks[i].0 + j - AtCommit(t0, fps, history, n).track.shift
  }

  /** It has a place when its chunk is taken, before the recording's end, and is never cut. */
  ghost predicate Lasting(t0: int, fps: Fps, history: seq<TickRecord>, n: nat, i: nat, j: nat)
    requires Takes(history, n, i, j)
  {
    var k, chunks := PlaceOf(t0, fps, history, n, i, j), history[n].atCommit.chunks;
    HasPlace(Before(AtCommit(t0, fps, history, n).track, chunks, i), chunks[i].0, j) &&
    0 <= k < TickFrames(|history|, fps) && NotCut(t0, fps, history, n + 1, k)
  }

  /** Such a frame is in the recording, at its place. */
  lemma HeardIsRecorded(t0: int, fps: Fps, history: seq<TickRecord>, last: seq<Chunk>, n: nat, i: nat, j: nat)
    requires Possible(t0, fps, history) && Takes(history, n, i, j) && Lasting(t0, fps, history, n, i, j)
    ensures var k, r := PlaceOf(t0, fps, history, n, i, j), Ended(Play(t0, fps, history), fps, last);
            0 <= k < |r.out| && r.out[k].sample == history[n].atCommit.chunks[i].1[j] && r.out[k].from.Tap?
  {
    hide AfterCut, AfterCommit, AddAll, TickFrames, HasPlace, Ended, NotCut, Exact, Balanced;
    var tick, ready := history[n], AtCommit(t0, fps, history, n);
    var k := tick.atCommit.chunks[i].0 + j - ready.track.shift;
    PossibleBefore(t0, fps, history, n);
    PossibleBefore(t0, fps, history, n + 1);
    ReadyIsSound(t0, fps, history, n);
    AddAllPlaces(ready.track, tick.atCommit.chunks, i, j);
    CommitKeepsCell(ready, t0, fps, tick, k);
    assert history[..n + 1][..n] == history[..n];
    PlayKeepsCell(t0, fps, history, n + 1, k);
    PlayCounts(t0, fps, history);
    PlayKeeps(t0, fps, history);
    AddAllKeeps(Play(t0, fps, history).track, last);
    EndKeepsCell(Play(t0, fps, history), t0, fps, last, AllChunks(history), k);
  }

  lemma ReadyIsSound(t0: int, fps: Fps, history: seq<TickRecord>, n: nat)
    requires n < |history| && Possible(t0, fps, history[..n]) && Late(Play(t0, fps, history[..n]), fps, history[n].now) >= 0
    ensures Sound(AtCommit(t0, fps, history, n).track)
  {
    hide AfterCut, Play, Possible, Late, Stalled, Sound;
    var p := Play(t0, fps, history[..n]);
    PlayKeeps(t0, fps, history[..n]);
    SoundOf(p, t0, fps, AllChunks(history[..n]));
    CutKeeps(p, t0, fps, history[n].now, history[n].atCut, AllChunks(history[..n]));
    SoundOf(AfterCut(p, t0, fps, history[n].now, history[n].atCut), t0, fps, AllChunks(history[..n]) + history[n].atCut.chunks);
  }

  lemma SoundOf(p: Progress, t0: int, fps: Fps, chunks: seq<Chunk>)
    requires InOrder(p, t0, fps, chunks)
    ensures Sound(p.track)
  {
  }

  /** The end of a recording keeps, and commits, every cell before the video's end. */
  lemma EndKeepsCell(p: Progress, t0: int, fps: Fps, last: seq<Chunk>, chunks: seq<Chunk>, k: nat)
    requires InOrder(p, t0, fps, chunks) && k < AddAll(p.track, last).End() && k < TickFrames(p.next, fps)
    ensures var r := Ended(p, fps, last);
            k < |r.out| && r.out[k] == AddAll(p.track, last).Cells()[k]
    ensures k < p.track.End() ==> AddAll(p.track, last).Cells()[k] == p.track.Cells()[k]
  {
    hide AddAll, Commit, Truncate, TickFrames, Exact, Balanced, FramesSince;
    var end := TickFrames(p.next, fps);
    AddAllKeeps(p.track, last);
    var added := AddAll(p.track, last);
    TruncateKeeps(added, end);
    var ended := Truncate(added, end);
    CommitKeeps(ended, end, end);
    CommitReaches(ended, end, end);
    var r := Commit(ended, end, end);
    assert r.Cells()[k] == r.out[k];
  }

  /** So is a frame that has a place when the last chunks are taken. */
  lemma LastIsRecorded(p: Progress, t0: int, fps: Fps, last: seq<Chunk>, chunks: seq<Chunk>, i: nat, j: nat)
    requires InOrder(p, t0, fps, chunks) && i < |last| && j < |last[i].1| && HasPlace(Before(p.track, last, i), last[i].0, j)
    requires 0 <= last[i].0 + j - p.track.shift < TickFrames(p.next, fps)
    ensures var k, r := last[i].0 + j - p.track.shift, Ended(p, fps, last);
            k < |r.out| && r.out[k] == Cell(last[i].1[j], Tap(|p.track.heard| + i, j))
  {
    hide AddAll, HasPlace, Ended, TickFrames, FramesSince, Exact, Balanced;
    AddAllPlaces(p.track, last, i, j);
    EndKeepsCell(p, t0, fps, last, chunks, last[i].0 + j - p.track.shift);
  }

  // ---- How far silence goes ----

  /** A tick pads as far as the video goes, but never into the lag behind `now`. */
  lemma PaddingStaysBehind(p: Progress, t0: int, fps: Fps, now: int, taken: Taken, chunks: seq<Chunk>)
    requires InOrder(p, t0, fps, chunks)
    ensures var added, r := AddAll(p.track, taken.chunks), AfterCommit(p, fps, now, taken).track;
            var pad := Min(FramesSince(p.base, now) - AUDIO_LAG_FRAMES, TickFrames(p.next + 1, fps));
            r.End() == Max(added.End(), pad) && added.Cells() <= r.Cells() &&
            forall k :: added.End() <= k < r.End() ==> r.Cells()[k] == Cell(SILENT, Padding) && k < FramesSince(p.base, now) - AUDIO_LAG_FRAMES
  {
    hide AddAll, FramesSince, TickFrames, Exact, Balanced, Commit;
    AddAllKeeps(p.track, taken.chunks);
    var added, end := AddAll(p.track, taken.chunks), TickFrames(p.next + 1, fps);
    var pad := PadEnd(p.base, now, end);
    CommitKeeps(added, pad, end);
    CommitReaches(added, pad, end);
    CommitPads(added, pad, end);
  }

  /** What a commit adds to the track is silence. */
  lemma {:induction false} CommitPads(t: Track, pad: int, limit: int)
    ensures var r := Commit(t, pad, limit);
            t.End() <= r.End() && forall k :: t.End() <= k < r.End() ==> r.Cells()[k] == Cell(SILENT, Padding)
    decreases Max(limit - |t.out|, 0)
  {
    var n := Piece(t, pad, limit);
    var padded := PadTo(t, pad);
    PadToShape(t, pad);
    if n > 0 {
      var moved := Moved(padded, n);
      assert moved.Cells() == padded.Cells() by { assert padded.staged == padded.staged[..n] + padded.staged[n..]; }
      CommitPads(moved, pad, limit);
      CommitStays(moved, pad, limit);
    }
  }

  lemma {:induction false} CommitStays(t: Track, pad: int, limit: int)
    ensures t.Cells() <= Commit(t, pad, limit).Cells()
    decreases Max(limit - |t.out|, 0)
  {
    var n := Piece(t, pad, limit);
    var padded := PadTo(t, pad);
    PadToShape(t, pad);
    if n > 0 {
      var moved := Moved(padded, n);
      assert moved.Cells() == padded.Cells() by { assert padded.staged == padded.staged[..n] + padded.staged[n..]; }
      CommitStays(moved, pad, limit);
    }
  }

  // ---- The era each chunk was taken in ----

  function Repeat<T>(n: nat, v: T): (r: seq<T>)
    ensures |r| == n
  {
    seq(n, _ => v)
  }

  /** The time cut so far, and the wall position recording last went on from. */
  datatype Era = Era(skip: nat, floor: int)

  function EraAt(t0: int, fps: Fps, times: seq<int>): Era {
    var c := ClockOf(t0, fps, times);
    Era(c.base - t0, c.floor)
  }

  /** A cut takes its chunks before it starts a new era, a commit after. */
  function ErasOf(t0: int, fps: Fps, history: seq<TickRecord>): seq<Era> {
    if history == [] then []
    else
      var n := |history| - 1;
      var last := history[n];
      ErasOf(t0, fps, history[..n]) +
      Repeat(|last.atCut.chunks|, EraAt(t0, fps, TimesOf(history[..n]))) +
      Repeat(|last.atCommit.chunks|, EraAt(t0, fps, TimesOf(history)))
  }

  lemma OneMoreEra(t0: int, fps: Fps, history: seq<TickRecord>, tick: TickRecord)
    ensures ErasOf(t0, fps, history + [tick]) ==
            ErasOf(t0, fps, history) +
            Repeat(|tick.atCut.chunks|, EraAt(t0, fps, TimesOf(history))) +
            Repeat(|tick.atCommit.chunks|, EraAt(t0, fps, TimesOf(history + [tick])))
  {
    hide EraAt, Repeat, TimesOf;
    assert (history + [tick])[..|history|] == history;
  }
}
