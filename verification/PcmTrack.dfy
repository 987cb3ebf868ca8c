/**
 * The audio track as a value: which sample sits at which track frame, and where
 * it came from. The class `AudioTrack` is proved against these functions; what
 * the recorder promises about its audio is proved here, for every sequence of
 * operations.
 */
module PcmTrack {
  import opened Basics
  import opened Timeline

  /** One S16LE stereo frame. */
  type Sample = seq<byte>

  const SILENT: Sample := [0, 0, 0, 0]

  /** Where a track frame came from: padding, or frame `offset` of the `chunk`th chunk heard from the tap. */
  datatype Origin = Padding | Tap(chunk: nat, offset: nat)

  datatype Cell = Cell(sample: Sample, from: Origin)

  /** A chunk taken from the tap: its wall position, and the shift and floor in force then. */
  datatype Heard = Heard(wall: int, pcm: seq<Sample>, shift: int, floor: int)

  datatype Track = Track(
    /** Committed to the sink, then staged after it. */
    out: seq<Cell>,
    staged: seq<Cell>,
    /** What is taken off a wall position to get a track frame, and the wall position recording starts from. */
    shift: int,
    floor: int,
    late: nat,
    overflow: nat,
    /** Every chunk taken so far; of their frames, those before the floor and those staged but then cut. */
    heard: seq<Heard>,
    gap: nat,
    cut: nat)
  {
    function Cells(): seq<Cell> { out + staged }
    function End(): nat { |out| + |staged| }
  }

  const EMPTY := Track([], [], 0, 0, 0, 0, [], 0, 0)

  function Quiet(n: nat): seq<Cell> { seq(n, _ => Cell(SILENT, Padding)) }

  /** Extend with silence up to frame `pos`, staging at most the cap. */
  function PadTo(t: Track, pos: int): Track {
    var gap := Min(pos, |t.out| + MAX_STAGED_FRAMES) - t.End();
    if gap > 0 then t.(staged := t.staged + Quiet(gap)) else t
  }

  /** Put `cells` at track frame `pos`: late and overflowing parts are dropped, a gap before is padded. */
  function Place(t: Track, pos: int, cells: seq<Cell>): Track {
    var skip := Clamp(t.End() - pos, 0, |cells|);
    var start := pos + skip;
    var keep := Clamp(|t.out| + MAX_STAGED_FRAMES - start, 0, |cells| - skip);
    var counted := t.(late := t.late + skip, overflow := t.overflow + (|cells| - skip - keep));
    if keep == 0 then counted
    else
      var padded := PadTo(counted, start);
      padded.(staged := padded.staged + cells[skip..skip + keep])
  }

  function TapCells(chunk: nat, pcm: seq<Sample>, from: nat): (r: seq<Cell>)
    requires from <= |pcm|
    ensures |r| == |pcm| - from
  {
    seq(|pcm| - from, j requires 0 <= j < |pcm| - from => Cell(pcm[from + j], Tap(chunk, from + j)))
  }

  /** How much of a chunk of `n` frames at wall position `wall` lies before the floor. */
  function BeforeFloor(t: Track, wall: int, n: nat): (skip: nat)
    ensures skip <= n
  {
    Clamp(t.floor - wall, 0, n)
  }

  function Note(t: Track, wall: int, pcm: seq<Sample>): Track {
    t.(heard := t.heard + [Heard(wall, pcm, t.shift, t.floor)], gap := t.gap + BeforeFloor(t, wall, |pcm|))
  }

  /** The part of the chunk from the floor on, as track cells. */
  function Recorded(t: Track, wall: int, pcm: seq<Sample>): seq<Cell> {
    TapCells(|t.heard|, pcm, BeforeFloor(t, wall, |pcm|))
  }

  /** Put a chunk queued at wall position `wall` on the track, less any part before the floor. */
  function Add(t: Track, wall: int, pcm: seq<Sample>): Track {
    Place(Note(t, wall, pcm), wall + BeforeFloor(t, wall, |pcm|) - t.shift, Recorded(t, wall, pcm))
  }

  type Chunk = (int, seq<Sample>)

  function AddAll(t: Track, chunks: seq<Chunk>): Track {
    if chunks == [] then t
    else
      var last := chunks[|chunks| - 1];
      Add(AddAll(t, chunks[..|chunks| - 1]), last.0, last.1)
  }

  /** End the track at frame `at`, or where the committed part ends if that is later. */
  function Truncate(t: Track, at: int): Track {
    var keep := Min(Max(at - |t.out|, 0), |t.staged|);
    t.(staged := t.staged[..keep], cut := t.cut + TapCount(t.staged[keep..]))
  }

  /** A cut: the track ends at `at`, and recording goes on from wall position `wallEnd`. */
  function CutAt(t: Track, at: int, wallEnd: int, shift: int): Track {
    Truncate(t, at).(floor := wallEnd, shift := shift)
  }

  /** The next piece a commit through `limit` writes after padding to `pad`. */
  function Piece(t: Track, pad: int, limit: int): int {
    Min(PadTo(t, pad).End(), limit) - |t.out|
  }

  /** The first `n` staged frames, committed. */
  function Moved(t: Track, n: nat): Track
    requires n <= |t.staged|
  {
    t.(out := t.out + t.staged[..n], staged := t.staged[n..])
  }

  /** Commit through `limit`, padding up to `pad`, a capped piece at a time. */
  function Commit(t: Track, pad: int, limit: int): Track
    decreases Max(limit - |t.out|, 0)
  {
    var n := Piece(t, pad, limit);
    if n <= 0 then PadTo(t, pad) else Commit(Moved(PadTo(t, pad), n), pad, limit)
  }

  // ---- What is promised ----

  /** The cell is padding silence, or the tap's own frame at wall position minus shift, not from before the floor. */
  predicate CellExact(heard: seq<Heard>, cell: Cell, k: int) {
    match cell.from
    case Padding => cell.sample == SILENT
    case Tap(c, j) =>
      c < |heard| && j < |heard[c].pcm| && cell.sample == heard[c].pcm[j] &&
      heard[c].wall + j - heard[c].shift == k && heard[c].wall + j >= heard[c].floor
  }

  /** `cells` are exact from track frame `at` on. */
  ghost predicate ExactFrom(heard: seq<Heard>, cells: seq<Cell>, at: int) {
    forall i :: 0 <= i < |cells| ==> CellExact(heard, cells[i], at + i)
  }

  ghost predicate Exact(t: Track) { ExactFrom(t.heard, t.Cells(), 0) }

  function TapCount(cells: seq<Cell>): nat {
    if cells == [] then 0 else TapCount(cells[..|cells| - 1]) + if cells[|cells| - 1].from.Tap? then 1 else 0
  }

  function HeardFrames(heard: seq<Heard>): nat {
    if heard == [] then 0 else HeardFrames(heard[..|heard| - 1]) + |heard[|heard| - 1].pcm|
  }

  /** Every frame heard is on the track, late, overflowed, or was cut; exactly one of them. */
  predicate Balanced(t: Track) {
    HeardFrames(t.heard) == TapCount(t.Cells()) + t.late + t.overflow + t.gap + t.cut
  }

  predicate Bounded(t: Track) { |t.staged| <= MAX_STAGED_FRAMES }

  ghost predicate Sound(t: Track) { Exact(t) && Balanced(t) && Bounded(t) }

  // ---- What each operation keeps ----

  lemma {:induction false} TapCountConcat(a: seq<Cell>, b: seq<Cell>)
    ensures TapCount(a + b) == TapCount(a) + TapCount(b)
  {
    if b == [] {
      assert a + b == a;
    } else {
      TapCountConcat(a, b[..|b| - 1]);
      assert (a + b)[..|a + b| - 1] == a + b[..|b| - 1];
    }
  }

  lemma {:induction false} TapCountUniform(cells: seq<Cell>, taps: bool)
    requires forall i :: 0 <= i < |cells| ==> (cells[i].from.Tap? <==> taps)
    ensures TapCount(cells) == if taps then |cells| else 0
  {
    if cells != [] {
      TapCountUniform(cells[..|cells| - 1], taps);
    }
  }

  lemma ExactConcat(heard: seq<Heard>, a: seq<Cell>, b: seq<Cell>, at: int)
    requires ExactFrom(heard, a, at) && ExactFrom(heard, b, at + |a|)
    ensures ExactFrom(heard, a + b, at)
  {
    forall i | 0 <= i < |a + b|
      ensures CellExact(heard, (a + b)[i], at + i)
    {
      if i >= |a| {
        assert CellExact(heard, b[i - |a|], at + |a| + (i - |a|));
      }
    }
  }

  lemma PadToShape(t: Track, pos: int)
    ensures var gap := Max(Min(pos, |t.out| + MAX_STAGED_FRAMES) - t.End(), 0);
            PadTo(t, pos).Cells() == t.Cells() + Quiet(gap) && PadTo(t, pos).out == t.out
  {
  }

  lemma PadToKeeps(t: Track, pos: int)
    requires Sound(t)
    ensures Sound(PadTo(t, pos))
    ensures t.Cells() <= PadTo(t, pos).Cells() && PadTo(t, pos).out == t.out
  {
    var gap := Max(Min(pos, |t.out| + MAX_STAGED_FRAMES) - t.End(), 0);
    PadToShape(t, pos);
    ExactConcat(t.heard, t.Cells(), Quiet(gap), 0);
    TapCountConcat(t.Cells(), Quiet(gap));
    TapCountUniform(Quiet(gap), false);
  }

  /** The part of `cells` a placement keeps: what is neither late nor over the cap. */
  function Kept(t: Track, pos: int, cells: seq<Cell>): seq<Cell> {
    var skip := Clamp(t.End() - pos, 0, |cells|);
    var keep := Clamp(|t.out| + MAX_STAGED_FRAMES - (pos + skip), 0, |cells| - skip);
    cells[skip..skip + keep]
  }

  /** Placing, part by part: what is late, what is over the cap, and what is staged after padding. */
  lemma PlaceParts(t: Track, pos: int, cells: seq<Cell>, skip: nat, keep: nat)
    requires skip == Clamp(t.End() - pos, 0, |cells|)
    requires keep == Clamp(|t.out| + MAX_STAGED_FRAMES - (pos + skip), 0, |cells| - skip)
    ensures Place(t, pos, cells) ==
            t.(late := t.late + skip, overflow := t.overflow + (|cells| - skip - keep),
               staged := if keep == 0 then t.staged else PadTo(t, pos + skip).staged + cells[skip..skip + keep])
  {
  }

  lemma PlaceNothing(t: Track, pos: int, cells: seq<Cell>)
    requires cells == []
    ensures Place(t, pos, cells) == t
  {
  }

  lemma EmptyIsSound()
    ensures Sound(EMPTY)
  {
    assert EMPTY.Cells() == [];
  }

  /** Placing appends: what is on the track stays, so the first arrival wins every overlap. */
  lemma PlaceShape(t: Track, pos: int, cells: seq<Cell>)
    requires Bounded(t)
    ensures var r, kept := Place(t, pos, cells), Kept(t, pos, cells);
            if kept == [] then r.Cells() == t.Cells()
            else
              var at := Max(t.End(), pos);
              r.Cells() == t.Cells() + Quiet(at - t.End()) + kept &&
              at + |kept| <= |t.out| + MAX_STAGED_FRAMES &&
              at - pos + |kept| <= |cells| && kept == cells[at - pos..at - pos + |kept|]
  {
    var skip := Clamp(t.End() - pos, 0, |cells|);
    var keep := Clamp(|t.out| + MAX_STAGED_FRAMES - (pos + skip), 0, |cells| - skip);
    hide Place, PadTo, Quiet;
    PlaceParts(t, pos, cells, skip, keep);
    if keep > 0 {
      assert pos + skip == Max(t.End(), pos);
      PadToShape(t, pos + skip);
      CellsAppend(t, PadTo(t, pos + skip), Place(t, pos, cells), cells[skip..skip + keep]);
    }
  }

  lemma CellsAppend(t: Track, padded: Track, r: Track, kept: seq<Cell>)
    requires padded.out == t.out && r.out == t.out && r.staged == padded.staged + kept
    ensures r.Cells() == padded.Cells() + kept
  {
  }

  /** What is placed, late and over the cap add up, and nothing else of the track changes. */
  lemma PlaceCounts(t: Track, pos: int, cells: seq<Cell>)
    ensures var r := Place(t, pos, cells);
            r.out == t.out && r.heard == t.heard && r.shift == t.shift && r.floor == t.floor &&
            r.gap == t.gap && r.cut == t.cut &&
            r.late + r.overflow + |Kept(t, pos, cells)| == t.late + t.overflow + |cells|
  {
  }

  lemma PlaceKeeps(t: Track, pos: int, cells: seq<Cell>)
    requires Bounded(t) && Exact(t) && ExactFrom(t.heard, cells, pos)
    requires forall i :: 0 <= i < |cells| ==> cells[i].from.Tap?
    requires HeardFrames(t.heard) == TapCount(t.Cells()) + t.late + t.overflow + t.gap + t.cut + |cells|
    ensures var r := Place(t, pos, cells);
            Sound(r) && t.Cells() <= r.Cells() && r.out == t.out && r.heard == t.heard &&
            r.shift == t.shift && r.floor == t.floor
  {
    hide Place, Kept, TapCount, HeardFrames, CellExact;
    PlaceShape(t, pos, cells);
    PlaceCounts(t, pos, cells);
    var r, kept, at := Place(t, pos, cells), Kept(t, pos, cells), Max(t.End(), pos);
    if kept != [] {
      forall i | 0 <= i < |kept|
        ensures CellExact(t.heard, kept[i], at + i)
      {
        assert CellExact(t.heard, cells[at - pos + i], pos + (at - pos + i));
      }
      AppendKeeps(t, r, at - t.End(), kept);
    }
  }

  lemma AppendKeeps(t: Track, r: Track, gap: nat, kept: seq<Cell>)
    requires Exact(t) && ExactFrom(t.heard, kept, t.End() + gap)
    requires forall i :: 0 <= i < |kept| ==> kept[i].from.Tap?
    requires r.Cells() == t.Cells() + Quiet(gap) + kept && r.heard == t.heard
    ensures Exact(r) && t.Cells() <= r.Cells() && TapCount(r.Cells()) == TapCount(t.Cells()) + |kept|
  {
    ExactConcat(t.heard, t.Cells(), Quiet(gap), 0);
    ExactConcat(t.heard, t.Cells() + Quiet(gap), kept, 0);
    TapCountConcat(t.Cells(), Quiet(gap));
    TapCountConcat(t.Cells() + Quiet(gap), kept);
    TapCountUniform(Quiet(gap), false);
    TapCountUniform(kept, true);
  }

  /** With the chunk noted as heard the track is still exact, but the chunk's frames are unaccounted for. */
  lemma NoteKeeps(t: Track, wall: int, pcm: seq<Sample>)
    requires Sound(t)
    ensures var noted := Note(t, wall, pcm);
            Exact(noted) && Bounded(noted) &&
            HeardFrames(noted.heard) == TapCount(noted.Cells()) + noted.late + noted.overflow + noted.gap +
                                        noted.cut + |pcm| - BeforeFloor(t, wall, |pcm|)
  {
    var noted := Note(t, wall, pcm);
    assert noted.heard[..|noted.heard| - 1] == t.heard;
    HeardMore(t.heard, noted.heard, t.Cells(), 0);
  }

  lemma TapCellsExact(heard: seq<Heard>, chunk: nat, from: nat)
    requires chunk < |heard| && from <= |heard[chunk].pcm| && heard[chunk].wall + from >= Min(heard[chunk].floor, heard[chunk].wall + |heard[chunk].pcm|)
    ensures ExactFrom(heard, TapCells(chunk, heard[chunk].pcm, from), heard[chunk].wall + from - heard[chunk].shift)
  {
  }

  /** A chunk taken from the tap: each of its frames lands at its wall position minus the shift, or is counted. */
  lemma AddKeeps(t: Track, wall: int, pcm: seq<Sample>)
    requires Sound(t)
    ensures Sound(Add(t, wall, pcm))
    ensures t.Cells() <= Add(t, wall, pcm).Cells() && Add(t, wall, pcm).out == t.out
    ensures Add(t, wall, pcm).heard == t.heard + [Heard(wall, pcm, t.shift, t.floor)]
    ensures Add(t, wall, pcm).shift == t.shift && Add(t, wall, pcm).floor == t.floor
  {
    hide Place;
    NoteKeeps(t, wall, pcm);
    TapCellsExact(Note(t, wall, pcm).heard, |t.heard|, BeforeFloor(t, wall, |pcm|));
    PlaceKeeps(Note(t, wall, pcm), wall + BeforeFloor(t, wall, |pcm|) - t.shift, Recorded(t, wall, pcm));
  }

  /** Frame `j` of the next chunk has a place on the track: past the floor, not late and under the cap. */
  predicate HasPlace(t: Track, wall: int, j: nat) {
    wall + j >= t.floor && t.End() <= wall + j - t.shift < |t.out| + MAX_STAGED_FRAMES
  }

  /** A cell put where the track has not got to, and under the cap, is there. */
  lemma PlacePlaces(t: Track, pos: int, cells: seq<Cell>, m: nat)
    requires Bounded(t) && m < |cells| && t.End() <= pos + m < |t.out| + MAX_STAGED_FRAMES
    ensures pos + m < Place(t, pos, cells).End() && Place(t, pos, cells).Cells()[pos + m] == cells[m]
  {
    hide Place, Kept, Quiet;
    PlaceShape(t, pos, cells);
    KeptReaches(t, pos, cells, m);
    var kept, at := Kept(t, pos, cells), Max(t.End(), pos);
    InThePart(Place(t, pos, cells).Cells(), t.Cells() + Quiet(at - t.End()), kept, cells, at - pos, m);
  }

  /** Part of `all`, from `from` on, put after `before`. */
  lemma InThePart(whole: seq<Cell>, before: seq<Cell>, part: seq<Cell>, all: seq<Cell>, from: nat, m: nat)
    requires whole == before + part && from + |part| <= |all| && part == all[from..from + |part|] && from <= m < from + |part|
    ensures |before| + m - from < |whole| && whole[|before| + m - from] == all[m]
  {
    assert whole[|before| + (m - from)] == part[m - from];
  }

  lemma KeptReaches(t: Track, pos: int, cells: seq<Cell>, m: nat)
    requires m < |cells| && t.End() <= pos + m < |t.out| + MAX_STAGED_FRAMES
    ensures pos + m < Max(t.End(), pos) + |Kept(t, pos, cells)|
    ensures |Quiet(Max(t.End(), pos) - t.End())| == Max(t.End(), pos) - t.End()
  {
  }

  /** A frame that has a place gets it. */
  lemma AddPlaces(t: Track, wall: int, pcm: seq<Sample>, j: nat)
    requires Bounded(t) && j < |pcm| && HasPlace(t, wall, j)
    ensures var r, k := Add(t, wall, pcm), wall + j - t.shift;
            k < r.End() && r.Cells()[k] == Cell(pcm[j], Tap(|t.heard|, j))
  {
    hide Place;
    var skipped := BeforeFloor(t, wall, |pcm|);
    PlacePlaces(Note(t, wall, pcm), wall + skipped - t.shift, Recorded(t, wall, pcm), j - skipped);
  }

  /** A frame that has none, from before the floor, late or over the cap, is nowhere on the track. */
  lemma AddDrops(t: Track, wall: int, pcm: seq<Sample>, j: nat, i: nat)
    requires Sound(t) && j < |pcm| && i < Add(t, wall, pcm).End()
    requires Add(t, wall, pcm).Cells()[i].from == Tap(|t.heard|, j)
    ensures HasPlace(t, wall, j) && i == wall + j - t.shift
  {
    hide Place, Balanced;
    AddKeeps(t, wall, pcm);
    var r := Add(t, wall, pcm);
    assert CellExact(r.heard, r.Cells()[i], 0 + i);
    ChunksBefore(t);
    AddEnds(t, wall, pcm);
  }

  /** What is on the track came from chunks heard. */
  lemma ChunksBefore(t: Track)
    requires Exact(t)
    ensures forall i :: 0 <= i < t.End() && t.Cells()[i].from.Tap? ==> t.Cells()[i].from.chunk < |t.heard|
  {
    forall i | 0 <= i < t.End() && t.Cells()[i].from.Tap?
      ensures t.Cells()[i].from.chunk < |t.heard|
    {
      assert CellExact(t.heard, t.Cells()[i], 0 + i);
    }
  }

  /** Placing never stages past the cap. */
  lemma AddEnds(t: Track, wall: int, pcm: seq<Sample>)
    requires Sound(t)
    ensures Add(t, wall, pcm).End() <= |t.out| + MAX_STAGED_FRAMES
  {
    hide Place, Exact, Balanced;
    AddKeeps(t, wall, pcm);
  }

  lemma HeardMore(heard: seq<Heard>, more: seq<Heard>, cells: seq<Cell>, at: int)
    requires heard <= more && ExactFrom(heard, cells, at)
    ensures ExactFrom(more, cells, at)
  {
    forall i | 0 <= i < |cells|
      ensures CellExact(more, cells[i], at + i)
    {
      assert CellExact(heard, cells[i], at + i);
    }
  }

  function HeardAll(t: Track, chunks: seq<Chunk>): (r: seq<Heard>) {
    seq(|chunks|, i requires 0 <= i < |chunks| => Heard(chunks[i].0, chunks[i].1, t.shift, t.floor))
  }

  /** The chunks taken so far, as they came. */
  function ChunksHeard(heard: seq<Heard>): (r: seq<Chunk>)
    ensures |r| == |heard|
  {
    seq(|heard|, i requires 0 <= i < |heard| => (heard[i].wall, heard[i].pcm))
  }

  lemma ChunksHeardMore(t: Track, chunks: seq<Chunk>)
    ensures ChunksHeard(t.heard + HeardAll(t, chunks)) == ChunksHeard(t.heard) + chunks
  {
  }

  lemma {:induction false} AddAllKeeps(t: Track, chunks: seq<Chunk>)
    requires Sound(t)
    ensures var r := AddAll(t, chunks);
            Sound(r) && t.Cells() <= r.Cells() && r.out == t.out && r.shift == t.shift &&
            r.floor == t.floor && r.heard == t.heard + HeardAll(t, chunks)
  {
    hide Add, Sound;
    if chunks != [] {
      var n := |chunks| - 1;
      AddAllKeeps(t, chunks[..n]);
      AddKeeps(AddAll(t, chunks[..n]), chunks[n].0, chunks[n].1);
    }
  }

  lemma TruncateKeeps(t: Track, at: int)
    requires Sound(t)
    ensures var r := Truncate(t, at);
            Sound(r) && r.Cells() <= t.Cells() && r.out == t.out && r.heard == t.heard &&
            r.End() == Min(t.End(), Max(at, |t.out|))
  {
    var keep := Min(Max(at - |t.out|, 0), |t.staged|);
    var r := Truncate(t, at);
    assert t.Cells() == r.Cells() + t.staged[keep..];
    TapCountConcat(r.Cells(), t.staged[keep..]);
    forall i | 0 <= i < |r.Cells()|
      ensures CellExact(t.heard, r.Cells()[i], i)
    {
      assert CellExact(t.heard, t.Cells()[i], 0 + i);
    }
  }

  /** Committing staged frames changes nothing else. */
  lemma MovedKeeps(t: Track, n: nat)
    requires Sound(t) && n <= |t.staged|
    ensures Sound(Moved(t, n)) && Moved(t, n).Cells() == t.Cells()
  {
    assert t.staged == t.staged[..n] + t.staged[n..];
    assert Moved(t, n).Cells() == t.Cells();
  }

  lemma SoundIsBounded(t: Track)
    requires Sound(t)
    ensures |t.staged| <= MAX_STAGED_FRAMES
  {
  }

  /** One round of the commit loop. */
  lemma CommitRound(t: Track, pad: int, limit: int)
    ensures var n := Piece(t, pad, limit);
            if n <= 0 then Commit(t, pad, limit) == PadTo(t, pad)
            else n <= |PadTo(t, pad).staged| && Commit(t, pad, limit) == Commit(Moved(PadTo(t, pad), n), pad, limit)
  {
  }

  /**
   * A commit writes exactly what lies on the track through `limit`, after
   * padding to `pad`; it alters nothing and loses nothing.
   */
  lemma {:induction false} CommitKeeps(t: Track, pad: int, limit: int)
    requires Sound(t)
    ensures var r := Commit(t, pad, limit);
            Sound(r) && t.Cells() <= r.Cells() && t.out <= r.out && r.heard == t.heard &&
            r.late == t.late && r.overflow == t.overflow && r.shift == t.shift && r.floor == t.floor
    decreases Max(limit - |t.out|, 0)
  {
    var n := Piece(t, pad, limit);
    PadToKeeps(t, pad);
    if n > 0 {
      MovedKeeps(PadTo(t, pad), n);
      CommitKeeps(Moved(PadTo(t, pad), n), pad, limit);
    }
  }

  /** How far a commit gets: to the limit if the track, padded to `pad`, reaches it; else to its end. */
  lemma {:induction false} CommitReaches(t: Track, pad: int, limit: int)
    requires Bounded(t) && pad <= limit
    ensures var r := Commit(t, pad, limit);
            |r.out| == Max(|t.out|, Min(limit, Max(t.End(), pad))) &&
            r.End() == Max(t.End(), pad)
    decreases Max(limit - |t.out|, 0)
  {
    var n := Piece(t, pad, limit);
    if n > 0 {
      CommitReaches(Moved(PadTo(t, pad), n), pad, limit);
    }
  }
}
