/**
 * The recorder's audio side as the program keeps it: PCM bytes queued by the
 * playback tap, staged on the track and drained to the writer. Each method is
 * proved to do what the `PcmTrack` function of the same name does.
 */
module AudioTrack {
  import opened Basics
  import opened PcmTrack
  import opened Recording
  import opened Timeline

  // ---- Bytes and frames ----

  function FramesOf(b: seq<byte>): (r: seq<Sample>)
    ensures |r| == |b| / PCM_FRAME
  {
    seq(|b| / PCM_FRAME, i requires 0 <= i < |b| / PCM_FRAME => b[4 * i..4 * i + 4])
  }

  function Samples(cells: seq<Cell>): (r: seq<Sample>)
    ensures |r| == |cells|
  {
    seq(|cells|, i requires 0 <= i < |cells| => cells[i].sample)
  }

  lemma SamplesConcat(a: seq<Cell>, b: seq<Cell>)
    ensures Samples(a + b) == Samples(a) + Samples(b)
  {
  }

  lemma SamplesSlice(a: seq<Cell>, i: nat, j: nat)
    requires i <= j <= |a|
    ensures Samples(a[i..j]) == Samples(a)[i..j]
  {
  }

  lemma RecordedSamples(t: Track, wall: int, pcm: seq<Sample>)
    ensures Samples(Recorded(t, wall, pcm)) == pcm[BeforeFloor(t, wall, |pcm|)..]
  {
  }

  lemma FramesOfConcat(a: seq<byte>, b: seq<byte>)
    requires |a| % PCM_FRAME == 0
    ensures FramesOf(a + b) == FramesOf(a) + FramesOf(b)
  {
    var n := |a| / PCM_FRAME;
    assert |a + b| / PCM_FRAME == n + |b| / PCM_FRAME;
    forall i | 0 <= i < n + |b| / PCM_FRAME
      ensures FramesOf(a + b)[i] == (FramesOf(a) + FramesOf(b))[i]
    {
      if i < n {
        assert (a + b)[4 * i..4 * i + 4] == a[4 * i..4 * i + 4];
      } else {
        assert (a + b)[4 * i..4 * i + 4] == b[4 * (i - n)..4 * (i - n) + 4];
      }
    }
  }

  lemma FramesOfSlice(b: seq<byte>, i: nat, j: nat)
    requires i <= j && j * PCM_FRAME <= |b|
    ensures FramesOf(b[i * PCM_FRAME..j * PCM_FRAME]) == FramesOf(b)[i..j]
  {
    var s := b[i * PCM_FRAME..j * PCM_FRAME];
    forall k | 0 <= k < j - i
      ensures FramesOf(s)[k] == FramesOf(b)[i + k]
    {
      SubSlice(b, 4 * i, 4 * (j - i), 4 * k, 4 * k + 4);
    }
  }

  function Zeros(n: nat): seq<byte> { seq(n, _ => 0) }

  lemma FramesOfZeros(n: nat)
    ensures FramesOf(Zeros(n * PCM_FRAME)) == Samples(Quiet(n))
  {
    forall i | 0 <= i < n
      ensures FramesOf(Zeros(n * PCM_FRAME))[i] == SILENT
    {
      assert Zeros(n * PCM_FRAME)[4 * i..4 * i + 4] == SILENT;
    }
  }

  // ---- The tap's queue ----

  /** Queued bytes, and the wall position and length of each chunk of them. */
  datatype Queue = Queue(data: seq<byte>, chunks: seq<(int, nat)>)

  const NO_PCM := Queue([], [])

  function Lengths(chunks: seq<(int, nat)>): nat {
    if chunks == [] then 0 else Lengths(chunks[..|chunks| - 1]) + chunks[|chunks| - 1].1
  }

  /** The chunks, each with its own frames. */
  function ChunksOf(q: Queue): (r: seq<Chunk>)
    requires Lengths(q.chunks) == |q.data|
    ensures |r| == |q.chunks|
    decreases |q.chunks|
  {
    if q.chunks == [] then []
    else
      var (pos, len) := q.chunks[|q.chunks| - 1];
      var cut := |q.data| - len;
      ChunksOf(Queue(q.data[..cut], q.chunks[..|q.chunks| - 1])) + [(pos, FramesOf(q.data[cut..]))]
  }

  lemma {:induction false} LengthsSplit(chunks: seq<(int, nat)>, i: nat)
    requires i < |chunks|
    ensures Lengths(chunks[..i + 1]) == Lengths(chunks[..i]) + chunks[i].1 <= Lengths(chunks)
    decreases |chunks|
  {
    var n := |chunks| - 1;
    assert chunks[..i + 1][..i] == chunks[..i];
    if i < n {
      LengthsSplit(chunks[..n], i);
      assert chunks[..n][..i + 1] == chunks[..i + 1] && chunks[..n][..i] == chunks[..i];
    } else {
      assert chunks[..i + 1] == chunks;
    }
  }

  lemma ChunksOfAppend(q: Queue, pos: int, pcm: seq<byte>)
    requires Lengths(q.chunks) == |q.data|
    ensures var r := Queue(q.data + pcm, q.chunks + [(pos, |pcm|)]);
            Lengths(r.chunks) == |r.data| && ChunksOf(r) == ChunksOf(q) + [(pos, FramesOf(pcm))]
  {
    hide FramesOf;
    var r := Queue(q.data + pcm, q.chunks + [(pos, |pcm|)]);
    assert r.chunks[..|r.chunks| - 1] == q.chunks;
    assert r.data[..|q.data|] == q.data && r.data[|q.data|..] == pcm;
  }

  /** Adding a queue's chunks one by one, in order, is adding them all. */
  lemma OneMoreChunk(t: Track, q: Queue, i: nat)
    requires Lengths(q.chunks) == |q.data| && i < |q.chunks|
    ensures var off := Lengths(q.chunks[..i]);
            var next := off + q.chunks[i].1;
            next == Lengths(q.chunks[..i + 1]) <= |q.data| &&
            AddAll(t, ChunksOf(Queue(q.data[..next], q.chunks[..i + 1]))) ==
            Add(AddAll(t, ChunksOf(Queue(q.data[..off], q.chunks[..i]))), q.chunks[i].0, FramesOf(q.data[off..next]))
  {
    hide Add, AddAll, FramesOf, ChunksOf;
    LengthsSplit(q.chunks, i);
    var off := Lengths(q.chunks[..i]);
    var (pos, len) := q.chunks[i];
    var done, pcm := Queue(q.data[..off], q.chunks[..i]), q.data[off..off + len];
    ChunksOfAppend(done, pos, pcm);
    assert q.data[..off + len] == done.data + pcm;
    assert q.chunks[..i + 1] == done.chunks + [(pos, len)];
    AddAllSnoc(t, ChunksOf(done), (pos, FramesOf(pcm)));
  }

  lemma AddAllSnoc(t: Track, chunks: seq<Chunk>, c: Chunk)
    ensures AddAll(t, chunks + [c]) == Add(AddAll(t, chunks), c.0, c.1)
  {
    hide Add;
    assert (chunks + [c])[..|chunks|] == chunks;
  }

  function ChunkFrames(chunks: seq<Chunk>): nat {
    if chunks == [] then 0 else ChunkFrames(chunks[..|chunks| - 1]) + |chunks[|chunks| - 1].1|
  }

  lemma {:induction false} HeardIsChunks(heard: seq<Heard>)
    ensures HeardFrames(heard) == ChunkFrames(ChunksHeard(heard))
  {
    if heard != [] {
      var n := |heard| - 1;
      HeardIsChunks(heard[..n]);
      assert ChunksHeard(heard)[..n] == ChunksHeard(heard[..n]);
    }
  }

  lemma {:induction false} ChunkFramesConcat(a: seq<Chunk>, b: seq<Chunk>)
    ensures ChunkFrames(a + b) == ChunkFrames(a) + ChunkFrames(b)
  {
    if b == [] {
      assert a + b == a;
    } else {
      ChunkFramesConcat(a, b[..|b| - 1]);
      assert (a + b)[..|a + b| - 1] == a + b[..|b| - 1];
    }
  }

  // ---- What the tap is called with ----

  /** A call of the playback tap: PCM `offset` frames into the run whose clock started at `epoch`. */
  datatype Arrival = Arrival(epoch: int, offset: nat, pcm: seq<byte>)

  /** The call, and whether its PCM was queued or turned away. */
  datatype Call = Call(what: Arrival, queued: bool)

  function ChunkOf(t0: int, a: Arrival): Chunk { (FramesSince(t0, a.epoch) + a.offset, FramesOf(a.pcm)) }

  /** The chunks of the calls that were queued, in order. */
  function Queued(t0: int, calls: seq<Call>): seq<Chunk> {
    if calls == [] then []
    else
      var c := calls[|calls| - 1];
      Queued(t0, calls[..|calls| - 1]) + if c.queued then [ChunkOf(t0, c.what)] else []
  }

  /** The calls that were queued, in order. */
  function Accepted(calls: seq<Call>): seq<Arrival> {
    if calls == [] then []
    else
      var c := calls[|calls| - 1];
      Accepted(calls[..|calls| - 1]) + if c.queued then [c.what] else []
  }

  /** Each queued chunk has its call's own bytes, four to a frame, at the call's wall position. */
  lemma {:induction false} QueuedIsAccepted(t0: int, calls: seq<Call>, c: nat)
    requires c < |Queued(t0, calls)|
    ensures |Accepted(calls)| == |Queued(t0, calls)|
    ensures var chunk, a := Queued(t0, calls)[c], Accepted(calls)[c];
            chunk.0 == FramesSince(t0, a.epoch) + a.offset && |chunk.1| == |a.pcm| / 4 &&
            forall j :: 0 <= j < |chunk.1| ==> chunk.1[j] == a.pcm[4 * j..4 * j + 4]
  {
    hide FramesSince;
    var n := |calls| - 1;
    AcceptedLength(t0, calls);
    AcceptedLength(t0, calls[..n]);
    if c < |Queued(t0, calls[..n])| {
      QueuedIsAccepted(t0, calls[..n], c);
    }
  }

  lemma {:induction false} AcceptedLength(t0: int, calls: seq<Call>)
    ensures |Accepted(calls)| == |Queued(t0, calls)|
  {
    if calls != [] {
      AcceptedLength(t0, calls[..|calls| - 1]);
    }
  }

  /** The frames of the calls that were not. */
  function TurnedAway(calls: seq<Call>): nat {
    if calls == [] then 0
    else
      var c := calls[|calls| - 1];
      TurnedAway(calls[..|calls| - 1]) + if c.queued then 0 else |c.what.pcm| / PCM_FRAME
  }

  /** All frames the tap offered. */
  function Offered(calls: seq<Call>): nat {
    if calls == [] then 0 else Offered(calls[..|calls| - 1]) + |calls[|calls| - 1].what.pcm| / PCM_FRAME
  }

  function Arrivals(calls: seq<Call>): (r: seq<Arrival>)
    ensures |r| == |calls|
  {
    seq(|calls|, i requires 0 <= i < |calls| => calls[i].what)
  }

  lemma OneMoreCall(t0: int, calls: seq<Call>, c: Call)
    ensures Queued(t0, calls + [c]) == Queued(t0, calls) + if c.queued then [ChunkOf(t0, c.what)] else []
    ensures TurnedAway(calls + [c]) == TurnedAway(calls) + if c.queued then 0 else |c.what.pcm| / PCM_FRAME
    ensures Arrivals(calls + [c]) == Arrivals(calls) + [c.what]
  {
    assert (calls + [c])[..|calls|] == calls;
  }

  lemma {:induction false} OfferedIsSplit(t0: int, calls: seq<Call>)
    ensures Offered(calls) == TurnedAway(calls) + ChunkFrames(Queued(t0, calls))
  {
    if calls != [] {
      var n := |calls| - 1;
      OfferedIsSplit(t0, calls[..n]);
      ChunkFramesConcat(Queued(t0, calls[..n]), if calls[n].queued then [ChunkOf(t0, calls[n].what)] else []);
      OneChunk(ChunkOf(t0, calls[n].what));
    }
  }

  lemma OneChunk(c: Chunk)
    ensures ChunkFrames([c]) == |c.1|
  {
  }

  /** What the tap and the encoder share. */
  class Shared {
    const t0: int
    var queue: Queue
    var overflow: nat
    /** Every call of the tap, and how many of the queued chunks the track has taken. */
    ghost var calls: seq<Call>
    ghost var handed: nat

    ghost predicate Valid()
      reads this
    {
      Lengths(queue.chunks) == |queue.data| <= AUDIO_QUEUE_MAX_BYTES && overflow == TurnedAway(calls) &&
      handed <= |Queued(t0, calls)| && ChunksOf(queue) == Queued(t0, calls)[handed..]
    }

    constructor (t0: int)
      ensures Valid() && this.t0 == t0 && queue == NO_PCM && calls == [] && handed == 0
    {
      this.t0 := t0;
      queue, overflow := NO_PCM, 0;
      calls, handed := [], 0;
    }

    /** The tap: queue the PCM at its wall position, or count it turned away when the queue is full. */
    method QueuePcm(epoch: int, offset: nat, pcm: seq<byte>)
      requires Valid()
      modifies this
      ensures Valid() && handed == old(handed)
      ensures calls == old(calls) + [Call(Arrival(epoch, offset, pcm), |old(queue).data| + |pcm| <= AUDIO_QUEUE_MAX_BYTES)]
      ensures Queued(t0, old(calls)) <= Queued(t0, calls) && overflow >= old(overflow)
    {
      hide FramesOf, ChunksOf, FramesSince, Queued, TurnedAway;
      var pos := FramesSince(t0, epoch) + offset;
      ghost var c := Call(Arrival(epoch, offset, pcm), |queue.data| + |pcm| <= AUDIO_QUEUE_MAX_BYTES);
      OneMoreCall(t0, calls, c);
      ghost var before := Queued(t0, calls);
      calls := calls + [c];
      if |queue.data| + |pcm| > AUDIO_QUEUE_MAX_BYTES {
        overflow := overflow + |pcm| / PCM_FRAME;
        return;
      }
      ChunksOfAppend(queue, pos, pcm);
      queue := Queue(queue.data + pcm, queue.chunks + [(pos, |pcm|)]);
      assert (before + [ChunkOf(t0, c.what)])[handed..] == before[handed..] + [ChunkOf(t0, c.what)];
    }
  }

  // ---- The track ----

  class AudioTrack {
    var written: nat
    var staged: seq<byte>
    var shift: int
    var floor: int
    var late: nat
    var overflow: nat
    /** The tap's overflow count at the last take, and how much of it fell inside cuts. */
    var tapOverflow: nat
    var cutOverflow: nat
    /** The buffers swapped with the tap's; empty between takes. */
    var queue: Queue
    ghost var model: Track

    /** The bytes and counters are those of `model`. */
    ghost predicate Represents()
      reads this
    {
      |staged| % PCM_FRAME == 0 && written == |model.out| && FramesOf(staged) == Samples(model.staged) &&
      shift == model.shift && floor == model.floor && late == model.late && overflow == model.overflow
    }

    ghost predicate Valid()
      reads this
    {
      Represents() && Sound(model) && cutOverflow <= tapOverflow && queue == NO_PCM
    }

    constructor ()
      ensures Valid() && model == EMPTY && tapOverflow == cutOverflow == 0
    {
      hide PcmTrack.Sound, FramesOf, Samples;
      written, staged, shift, floor := 0, [], 0, 0;
      late, overflow, tapOverflow, cutOverflow, queue := 0, 0, 0, 0, NO_PCM;
      model := EMPTY;
      EmptyIsSound();
    }

    function End(): int
      reads this
    {
      written + |staged| / PCM_FRAME
    }

    method PadTo(pos: int)
      requires Represents()
      modifies this`staged, this`model
      ensures Represents() && model == PcmTrack.PadTo(old(model), pos)
    {
      var gap := Min(pos, written + MAX_STAGED_FRAMES) - End();
      if gap > 0 {
        FramesOfConcat(staged, Zeros(gap * PCM_FRAME));
        FramesOfZeros(gap);
        SamplesConcat(model.staged, Quiet(gap));
        staged := staged + Zeros(gap * PCM_FRAME);
        model := PcmTrack.PadTo(model, pos);
      }
    }

    method Place(pos: int, pcm: seq<byte>, ghost cells: seq<Cell>)
      requires Represents() && FramesOf(pcm) == Samples(cells)
      modifies this`staged, this`late, this`overflow, this`model
      ensures Represents() && model == PcmTrack.Place(old(model), pos, cells)
    {
      hide PcmTrack.Place, PcmTrack.PadTo, FramesOf, Samples;
      ghost var before := model;
      var frames := |pcm| / PCM_FRAME;
      var skip := Clamp(End() - pos, 0, frames);
      var start := pos + skip;
      var keep := Clamp(written + MAX_STAGED_FRAMES - start, 0, frames - skip);
      PlaceParts(model, pos, cells, skip, keep);
      if keep != 0 {
        PadTo(start);
        FramesOfSlice(pcm, skip, skip + keep);
        FramesOfConcat(staged, pcm[skip * PCM_FRAME..(skip + keep) * PCM_FRAME]);
        SamplesSlice(cells, skip, skip + keep);
        SamplesConcat(model.staged, cells[skip..skip + keep]);
        staged := staged + pcm[skip * PCM_FRAME..(skip + keep) * PCM_FRAME];
      }
      late := late + skip;
      overflow := overflow + (frames - skip - keep);
      model := PcmTrack.Place(before, pos, cells);
    }

    method Add(pos: int, pcm: seq<byte>)
      requires Valid()
      modifies this`staged, this`late, this`overflow, this`model
      ensures Valid() && model == PcmTrack.Add(old(model), pos, FramesOf(pcm))
    {
      hide PcmTrack.Place, PcmTrack.Sound, FramesOf, Samples;
      ghost var before, samples := model, FramesOf(pcm);
      var frames := |pcm| / PCM_FRAME;
      var skip := Clamp(floor - pos, 0, frames);
      AddKeeps(before, pos, samples);
      model := Note(before, pos, samples);
      if skip < frames {
        ghost var cells := Recorded(before, pos, samples);
        FramesOfSlice(pcm, skip, frames);
        RecordedSamples(before, pos, samples);
        Place(pos + skip - shift, pcm[skip * PCM_FRAME..frames * PCM_FRAME], cells);
      } else {
        PlaceNothing(model, pos + skip - shift, Recorded(before, pos, samples));
      }
    }

    method AddQueue(taken: Queue)
      requires Valid() && Lengths(taken.chunks) == |taken.data|
      modifies this`staged, this`late, this`overflow, this`model
      ensures Valid() && model == AddAll(old(model), ChunksOf(taken))
    {
      hide PcmTrack.Sound, PcmTrack.Add, FramesOf, Samples;
      ghost var before := model;
      var i, off := 0, 0;
      while i < |taken.chunks|
        invariant Valid() && 0 <= i <= |taken.chunks|
        invariant off == Lengths(taken.chunks[..i]) <= |taken.data|
        invariant model == AddAll(before, ChunksOf(Queue(taken.data[..off], taken.chunks[..i])))
      {
        var (pos, len) := taken.chunks[i];
        OneMoreChunk(before, taken, i);
        Add(pos, taken.data[off..off + len]);
        off := off + len;
        i := i + 1;
      }
      assert taken.chunks[..i] == taken.chunks && taken.data[..off] == taken.data;
    }

    /** The track has taken exactly the chunks the tap handed over, in order. */
    ghost predicate InStep(shared: Shared)
      reads this, shared
    {
      var all := Queued(shared.t0, shared.calls);
      shared.handed <= |all| && ChunksHeard(model.heard) == all[..shared.handed]
    }

    /** Empty the queue onto the track, chunk by chunk. */
    method Take(shared: Shared)
      requires Valid() && shared.Valid() && InStep(shared) && tapOverflow <= shared.overflow
      modifies this, shared`queue, shared`handed
      ensures Valid() && shared.Valid() && InStep(shared) && shared.queue == NO_PCM
      ensures model == AddAll(old(model), ChunksOf(old(shared.queue)))
      ensures model.out == old(model).out && model.shift == old(model).shift && model.floor == old(model).floor
      ensures model.heard == old(model).heard + HeardAll(old(model), ChunksOf(old(shared.queue)))
      ensures tapOverflow == shared.overflow && cutOverflow == old(cutOverflow)
      ensures shared.handed == |Queued(shared.t0, shared.calls)|
    {
      hide PcmTrack.Sound, PcmTrack.Add, PcmTrack.AddAll, FramesOf, Samples, Queued, TurnedAway;
      ghost var before, all, everything := model, ChunksOf(shared.queue), Queued(shared.t0, shared.calls);
      assert everything[..shared.handed] + everything[shared.handed..] == everything;
      var taken := shared.queue;
      shared.queue := queue;
      tapOverflow := shared.overflow;
      shared.handed := |everything|;
      AddAllKeeps(before, all);
      ChunksHeardMore(before, all);
      AddQueue(taken);
      queue := NO_PCM;
      assert everything[|everything|..] == [] && everything[..|everything|] == everything;
    }

    method Truncate(at: int)
      requires Valid()
      modifies this`staged, this`model
      ensures Valid() && model == PcmTrack.Truncate(old(model), at)
    {
      hide PcmTrack.Sound, FramesOf, Samples;
      var keep := Min(Max(at - written, 0), |staged| / PCM_FRAME);
      TruncateKeeps(model, at);
      FramesOfSlice(staged, 0, keep);
      SamplesSlice(model.staged, 0, keep);
      staged := staged[..keep * PCM_FRAME];
      model := PcmTrack.Truncate(model, at);
    }

    /** Drop what is staged past `at`; PCM from `wallEnd` on is recorded next, at the new shift. */
    method Cut(at: int, wallEnd: int, shift: int)
      requires Valid()
      modifies this`staged, this`floor, this`shift, this`model
      ensures Valid() && model == CutAt(old(model), at, wallEnd, shift)
    {
      Truncate(at);
      floor := wallEnd;
      this.shift := shift;
      model := model.(floor := wallEnd, shift := shift);
    }

    /**
     * Take what the tap queued, still at the old shift, then cut: what that
     * staged past the cut is from the gap, and so is what the tap turned away.
     */
    method TakeAndCut(shared: Shared, at: int, wallEnd: int, shift: int)
      requires Valid() && shared.Valid() && InStep(shared) && tapOverflow <= shared.overflow
      modifies this, shared`queue, shared`handed
      ensures Valid() && shared.Valid() && InStep(shared) && shared.queue == NO_PCM
      ensures model == CutAt(AddAll(old(model), ChunksOf(old(shared.queue))), at, wallEnd, shift)
      ensures model.out == old(model).out
      ensures model.heard == old(model).heard + HeardAll(old(model), ChunksOf(old(shared.queue)))
      ensures tapOverflow == shared.overflow
      ensures cutOverflow - old(cutOverflow) == tapOverflow - old(tapOverflow)
    {
      hide PcmTrack.Sound, PcmTrack.AddAll, FramesOf, Samples, Queued, TurnedAway, ChunksOf;
      var seen := tapOverflow;
      Take(shared);
      cutOverflow := cutOverflow + (tapOverflow - seen);
      Cut(at, wallEnd, shift);
    }

    /** What the writer has is what the track committed, on time. */
    ghost predicate Sent(sink: Sink, fps: Fps)
      reads this, sink
    {
      AudioPcm(sink.log) == Samples(model.out) && WellTimed(sink.log, fps)
    }

    method SendPiece(sink: Sink, fps: Fps, n: nat) returns (ok: bool)
      requires Represents() && Sent(sink, fps) && 0 < n <= |model.staged| <= MAX_STAGED_FRAMES
      requires written + n <= TickFrames(VideoCount(sink.log), fps)
      modifies sink
      ensures WellTimed(sink.log, fps) && old(sink.log) <= sink.log
      ensures AudioPcm(sink.log) == Samples(model.out) + if ok then Samples(model.staged)[..n] else []
      ensures VideoCount(sink.log) == VideoCount(old(sink.log)) && LastPicture(sink.log) == LastPicture(old(sink.log))
    {
      hide FramesOf, Samples, AudioHns, TickHns, TickFrames;
      hide Recording.WellTimed, Recording.VideoCount, Recording.AudioPcm, Recording.LastPicture;
      AudioHnsMono(written, written + n);
      var t, end := AudioHns(written), AudioHns(written + n);
      var w := Audio(FramesOf(staged[..n * PCM_FRAME]), t, end - t);
      FramesOfSlice(staged, 0, n);
      Appended(sink.log, w, fps);
      AudioEndsWithVideo(written + n, VideoCount(sink.log), fps);
      ok := sink.Send(w);
    }

    method DropPiece(n: nat)
      requires Valid() && n <= |model.staged|
      modifies this`written, this`staged, this`model
      ensures Valid() && model == Moved(old(model), n)
    {
      hide PcmTrack.Sound, FramesOf, Samples;
      var frames := |staged| / PCM_FRAME;
      FramesOfSlice(staged, n, frames);
      SamplesSlice(model.staged, n, frames);
      assert model.staged[n..frames] == model.staged[n..] && FramesOf(staged)[n..frames] == Samples(model.staged)[n..frames];
      MovedKeeps(model, n);
      written := written + n;
      staged := staged[n * PCM_FRAME..frames * PCM_FRAME];
      model := Moved(model, n);
    }

    /** Write the first `n` staged frames. */
    method WritePiece(sink: Sink, fps: Fps, n: nat) returns (ok: bool)
      requires Valid() && Sent(sink, fps) && 0 < n <= |model.staged| <= MAX_STAGED_FRAMES
      requires written + n <= TickFrames(VideoCount(sink.log), fps)
      modifies this`written, this`staged, this`model, sink
      ensures Valid() && Sent(sink, fps) && old(sink.log) <= sink.log
      ensures VideoCount(sink.log) == VideoCount(old(sink.log)) && LastPicture(sink.log) == LastPicture(old(sink.log))
      ensures model == if ok then Moved(old(model), n) else old(model)
    {
      hide PcmTrack.Sound, FramesOf, Samples, Recording.WellTimed;
      SamplesSlice(model.staged, 0, n);
      SamplesConcat(model.out, model.staged[..n]);
      ok := SendPiece(sink, fps, n);
      if ok {
        DropPiece(n);
      }
    }

    /** Commit through `limit`, padding up to `pad`, unless the writer fails. */
    method Commit(pad: int, limit: int, sink: Sink, fps: Fps) returns (ok: bool)
      requires Valid() && Sent(sink, fps) && limit <= TickFrames(VideoCount(sink.log), fps)
      modifies this`written, this`staged, this`model, sink
      ensures Valid() && Sent(sink, fps) && old(sink.log) <= sink.log
      ensures VideoCount(sink.log) == VideoCount(old(sink.log)) && LastPicture(sink.log) == LastPicture(old(sink.log))
      ensures ok ==> model == PcmTrack.Commit(old(model), pad, limit)
      ensures old(model).out <= model.out && |model.out| <= Max(|old(model).out|, limit)
      ensures model.heard == old(model).heard && model.shift == old(model).shift && model.floor == old(model).floor
    {
      hide PcmTrack.Sound, PcmTrack.Commit, FramesOf, Samples, Recording.WellTimed;
      while true
        invariant Valid() && Sent(sink, fps) && old(sink.log) <= sink.log
        invariant VideoCount(sink.log) == VideoCount(old(sink.log))
        invariant LastPicture(sink.log) == LastPicture(old(sink.log))
        invariant PcmTrack.Commit(model, pad, limit) == PcmTrack.Commit(old(model), pad, limit)
        invariant old(model).out <= model.out && model.heard == old(model).heard
        invariant model.shift == old(model).shift && model.floor == old(model).floor
        invariant |model.out| <= Max(|old(model).out|, limit)
        decreases Max(limit - written, 0)
      {
        PadToKeeps(model, pad);
        SoundIsBounded(PcmTrack.PadTo(model, pad));
        CommitRound(model, pad, limit);
        PadTo(pad);
        var n := Min(End(), limit) - written;
        if n <= 0 {
          return true;
        }
        ok := WritePiece(sink, fps, n);
        if !ok {
          return;
        }
      }
    }
  }
}
