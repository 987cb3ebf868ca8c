/**
 * What the scanout shows, as values: the reference the damage-tracked buffers
 * are proved against. A flush is a whole-frame redraw here; no spare, log or
 * reader appears.
 */
module Pictures {
  import opened Arith
  import opened Areas
  import opened Basics

  /** A published picture: top-down BGRA, and the number of the flush that drew it. */
  datatype Picture = Picture(width: nat, height: nat, pixels: seq<byte>, number: nat) {
    predicate Sized(w: nat, h: nat) { width == w && height == h }
    predicate WellFormed() { |pixels| == width * height * 4 }
  }

  /** The picture in front, and the area the window has yet to look at. */
  datatype View = View(front: Option<Picture>, dirty: Option<Area>)

  /** One flush as its caller describes it: the guest's whole frame, and what changed of it. */
  datatype FlushArgs = FlushArgs(width: nat, height: nat, damage: Area, picture: seq<byte>) {
    predicate WellFormed() {
      |picture| == width * height * 4 && damage.Inside(width, height)
    }
  }

  const BLANK := View(None, None)

  /** `base` with the bytes of `area` taken from `top`. */
  function Overlay(base: seq<byte>, top: seq<byte>, w: nat, area: Area): (r: seq<byte>)
    requires |base| == |top|
    ensures |r| == |base|
    ensures forall i :: 0 <= i < |r| ==> r[i] == if area.HoldsByte(w, i) then top[i] else base[i]
  {
    seq(|base|, i requires 0 <= i < |base| => if area.HoldsByte(w, i) then top[i] else base[i])
  }

  lemma OverlayFull(base: seq<byte>, top: seq<byte>, w: nat, h: nat)
    requires |base| == |top| == w * h * 4
    ensures Overlay(base, top, w, Full(w, h)) == top
  {
    forall i | 0 <= i < |top|
      ensures Full(w, h).HoldsByte(w, i)
    {
      FullHoldsAll(w, h, i);
    }
  }

  function NumberOf(v: View): nat {
    if v.front.Some? then v.front.value.number else 0
  }

  predicate SameSize(v: View, a: FlushArgs) {
    v.front.Some? && v.front.value.Sized(a.width, a.height)
  }

  /** What a flush redraws: the damage, or everything when there is no picture of this size. */
  function DrawnArea(v: View, a: FlushArgs): Area {
    if SameSize(v, a) then a.damage else Full(a.width, a.height)
  }

  /** What the window has to repaint after a flush of `area`. */
  function GrownDirty(dirty: Option<Area>, area: Area, full: Area): Option<Area> {
    if area == full || dirty.None? then Some(area) else Some(Union(dirty.value, area))
  }

  predicate WellFormedView(v: View) {
    (v.front.Some? ==> v.front.value.WellFormed()) &&
    (v.dirty.Some? ==> v.front.Some? && v.dirty.value.Inside(v.front.value.width, v.front.value.height))
  }

  /** A flush: the old picture with the drawn area replaced by the guest's frame. */
  function FlushView(v: View, a: FlushArgs): (r: View)
    requires WellFormedView(v) && a.WellFormed()
    ensures WellFormedView(r) && r.front.Some? && r.front.value.number == NumberOf(v) + 1
  {
    var area := DrawnArea(v, a);
    var pixels := if SameSize(v, a) then Overlay(v.front.value.pixels, a.picture, a.width, area) else a.picture;
    View(Some(Picture(a.width, a.height, pixels, NumberOf(v) + 1)),
         GrownDirty(v.dirty, area, Full(a.width, a.height)))
  }

  /** What the window takes to repaint when it looks, and the size it is then for. */
  function TakeDirty(v: View, width: nat, height: nat): (Option<Area>, nat, nat) {
    if v.dirty.None? || v.front.None? then (None, width, height)
    else if v.front.value.Sized(width, height) then (v.dirty, width, height)
    else (Some(Full(v.front.value.width, v.front.value.height)), v.front.value.width, v.front.value.height)
  }

  ghost predicate WellFormedRun(run: seq<FlushArgs>) {
    forall i :: 0 <= i < |run| ==> run[i].WellFormed()
  }

  /** The picture after a whole run of flushes, ignoring what the window takes. */
  ghost function Replay(run: seq<FlushArgs>): (r: View)
    requires WellFormedRun(run)
    ensures WellFormedView(r) && NumberOf(r) == |run| && (r.front.Some? <==> run != [])
  {
    if run == [] then BLANK else FlushView(Replay(run[..|run| - 1]), run[|run| - 1])
  }

  /**
   * The guest's side of the bargain: from one flush to the next of the same
   * size, its frame changed only inside the damage it reports.
   */
  ghost predicate HonestStep(before: FlushArgs, now: FlushArgs)
    requires before.WellFormed() && now.WellFormed()
  {
    before.width == now.width && before.height == now.height ==>
      forall i :: 0 <= i < |now.picture| && !now.damage.HoldsByte(now.width, i) ==>
        now.picture[i] == before.picture[i]
  }

  ghost predicate HonestRun(run: seq<FlushArgs>)
    requires WellFormedRun(run)
  {
    |run| >= 2 ==> HonestRun(run[..|run| - 1]) && HonestStep(run[|run| - 2], run[|run| - 1])
  }

  /** With honest damage, the published picture is the guest's whole frame, at every point of every run. */
  lemma {:induction false} ReplayIsWholeFrame(run: seq<FlushArgs>)
    requires WellFormedRun(run) && HonestRun(run) && run != []
    ensures Replay(run).front.value.Sized(run[|run| - 1].width, run[|run| - 1].height)
    ensures Replay(run).front.value.pixels == run[|run| - 1].picture
  {
    var n := |run| - 1;
    if n > 0 {
      ReplayIsWholeFrame(run[..n]);
      RedrawShowsFrame(Replay(run[..n]), run[n - 1], run[n]);
    }
  }

  lemma RedrawShowsFrame(v: View, before: FlushArgs, now: FlushArgs)
    requires WellFormedView(v) && before.WellFormed() && now.WellFormed() && HonestStep(before, now)
    requires v.front.Some? && v.front.value.Sized(before.width, before.height)
    requires v.front.value.pixels == before.picture
    ensures FlushView(v, now).front.value.pixels == now.picture
  {
  }
}
