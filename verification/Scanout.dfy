/**
 * The damage-tracked display buffers: a flush draws only what changed, on a
 * recycled buffer that is first caught up from a bounded damage log, and
 * publishes it; readers hold published frames by reference.
 */
module Scanout {
  import opened Arith
  import opened Areas
  import opened Basics
  import opened Pictures

  /** How many flushes the damage log goes back. */
  const RECENT := 4
  /** How many older pictures are kept for reuse. */
  const SPARES := 2

  type Damage = (nat, Area)

  /** The bounding box of the logged damage of flushes after `number`, if any. */
  function BoundsAfter(recent: seq<Damage>, number: nat): Option<Area> {
    if recent == [] then None
    else
      var rest, (n, area) := BoundsAfter(recent[..|recent| - 1], number), recent[|recent| - 1];
      if n <= number then rest
      else if rest.None? then Some(area)
      else Some(Union(rest.value, area))
  }

  /** A bound on what changed since picture `number`, while the log reaches back to it. */
  function ChangedSince(recent: seq<Damage>, number: nat): Option<Area> {
    if recent == [] || number == 0 || number + 1 < recent[0].0 then None
    else BoundsAfter(recent, number)
  }

  lemma BoundsAfterAppend(recent: seq<Damage>, number: nat, d: Damage)
    requires number < d.0
    ensures BoundsAfter(recent + [d], number) ==
            match BoundsAfter(recent, number)
            case None => Some(d.1)
            case Some(area) => Some(Union(area, d.1))
  {
    assert (recent + [d])[..|recent|] == recent;
  }

  lemma {:induction false} BoundsAfterForget(recent: seq<Damage>, number: nat)
    requires recent != [] && recent[0].0 <= number
    ensures BoundsAfter(recent[1..], number) == BoundsAfter(recent, number)
  {
    if |recent| > 1 {
      BoundsAfterForget(recent[..|recent| - 1], number);
      assert recent[1..][..|recent| - 2] == recent[..|recent| - 1][1..];
    } else {
      assert recent[..0] == [] && recent[1..] == [];
    }
  }

  ghost predicate AreasInside(recent: seq<Damage>, w: nat, h: nat) {
    forall k :: 0 <= k < |recent| ==> recent[k].1.Inside(w, h)
  }

  lemma {:induction false} BoundsInside(recent: seq<Damage>, number: nat, w: nat, h: nat)
    requires AreasInside(recent, w, h)
    ensures BoundsAfter(recent, number).Some? ==> BoundsAfter(recent, number).value.Inside(w, h)
    ensures recent != [] && number < recent[|recent| - 1].0 ==> BoundsAfter(recent, number).Some?
  {
    if recent != [] {
      BoundsInside(recent[..|recent| - 1], number, w, h);
    }
  }

  /** The log holds consecutive flush numbers, the last of them `last`. */
  ghost predicate Consecutive(recent: seq<Damage>, last: nat) {
    forall k :: 0 <= k < |recent| ==> recent[k].0 == last + 1 - |recent| + k
  }

  /** The log after flush `number` of `area`: a whole redraw forgets everything before it. */
  function NextLog(recent: seq<Damage>, number: nat, area: Area, full: Area): (r: seq<Damage>) {
    var grown := (if area == full then [] else recent) + [(number, area)];
    if |grown| > RECENT then grown[1..] else grown
  }

  /** Of the picture just before, the next log says that only this flush's area changed. */
  lemma NextLogNewest(recent: seq<Damage>, last: nat, area: Area, full: Area)
    requires Consecutive(recent, last) && |recent| <= RECENT && |recent| <= last && last > 0
    ensures var next := ChangedSince(NextLog(recent, last + 1, area, full), last);
            next.Some? ==> next.value == area
  {
    var kept := if area == full then [] else recent;
    var grown := kept + [(last + 1, area)];
    BoundsAfterAppend(kept, last, (last + 1, area));
    NothingAfterLast(kept, last);
    if |grown| > RECENT {
      BoundsAfterForget(grown, last);
    }
  }

  /**
   * Of an older one, what the log said before together with this area; a
   * picture from before a whole redraw or a forgotten flush is given up on.
   */
  lemma NextLogOlder(recent: seq<Damage>, last: nat, area: Area, full: Area, number: nat)
    requires Consecutive(recent, last) && |recent| <= RECENT && |recent| <= last
    requires 1 <= number < last && (recent == [] ==> area == full)
    ensures var next := ChangedSince(NextLog(recent, last + 1, area, full), number);
            next.Some? ==>
              area != full && ChangedSince(recent, number).Some? &&
              next.value == Union(ChangedSince(recent, number).value, area)
  {
    if area != full {
      var grown := recent + [(last + 1, area)];
      BoundsAfterAppend(recent, number, (last + 1, area));
      SomethingAfter(recent, number, last);
      if |grown| > RECENT && grown[0].0 <= number {
        BoundsAfterForget(grown, number);
      }
    }
  }

  lemma {:induction false} NextLogShape(recent: seq<Damage>, last: nat, area: Area, w: nat, h: nat)
    requires Consecutive(recent, last) && |recent| <= RECENT && |recent| <= last && area.Inside(w, h)
    requires area == Full(w, h) || (recent != [] && AreasInside(recent, w, h))
    ensures var next := NextLog(recent, last + 1, area, Full(w, h));
            1 <= |next| <= RECENT && |next| <= last + 1 &&
            Consecutive(next, last + 1) && AreasInside(next, w, h)
  {
  }

  lemma {:induction false} NothingAfterLast(recent: seq<Damage>, last: nat)
    requires forall k :: 0 <= k < |recent| ==> recent[k].0 <= last
    ensures BoundsAfter(recent, last) == None
  {
    if recent != [] {
      NothingAfterLast(recent[..|recent| - 1], last);
    }
  }

  lemma SomethingAfter(recent: seq<Damage>, number: nat, last: nat)
    requires recent != [] && Consecutive(recent, last) && number < last
    ensures BoundsAfter(recent, number).Some?
  {
  }

  /** Where the log reaches back to `earlier`, it bounds all that separates it from the picture `latest`. */
  ghost predicate Tracks(recent: seq<Damage>, earlier: Picture, latest: Picture) {
    earlier.Sized(latest.width, latest.height) && |earlier.pixels| == |latest.pixels| &&
    ChangedSince(recent, earlier.number).Some? ==>
      forall i :: 0 <= i < |earlier.pixels| && earlier.pixels[i] != latest.pixels[i] ==>
        ChangedSince(recent, earlier.number).value.HoldsByte(earlier.width, i)
  }

  /** A flush keeps the log right about every older picture, the outgoing one included. */
  lemma {:induction false} FlushKeepsTrack(recent: seq<Damage>, earlier: Picture, v: View, a: FlushArgs)
    requires WellFormedView(v) && v.front.Some? && a.WellFormed() && earlier.WellFormed()
    requires 1 <= |recent| <= RECENT && |recent| <= NumberOf(v) && Consecutive(recent, NumberOf(v))
    requires earlier == v.front.value || (1 <= earlier.number < NumberOf(v) && Tracks(recent, earlier, v.front.value))
    ensures Tracks(NextLog(recent, NumberOf(v) + 1, DrawnArea(v, a), Full(a.width, a.height)),
                   earlier, FlushView(v, a).front.value)
  {
    var area, full, latest := DrawnArea(v, a), Full(a.width, a.height), FlushView(v, a).front.value;
    if earlier.number == NumberOf(v) {
      NextLogNewest(recent, NumberOf(v), area, full);
    } else {
      NextLogOlder(recent, NumberOf(v), area, full, earlier.number);
    }
    var next := ChangedSince(NextLog(recent, NumberOf(v) + 1, area, full), earlier.number);
    if next.Some? && earlier.Sized(latest.width, latest.height) {
      forall i | 0 <= i < |earlier.pixels| && earlier.pixels[i] != latest.pixels[i]
        ensures next.value.HoldsByte(earlier.width, i)
      {
        if area == full {
          FullHoldsAll(a.width, a.height, i);
        } else if earlier != v.front.value {
          assert ChangedSince(recent, earlier.number).value.HoldsByte(a.width, i) || area.HoldsByte(a.width, i) by {
            FlushChangesOnlyArea(v, a, i);
          }
          UnionHolds(ChangedSince(recent, earlier.number).value, area, a.width, i);
        } else {
          FlushChangesOnlyArea(v, a, i);
        }
      }
    }
  }

  lemma FlushChangesOnlyArea(v: View, a: FlushArgs, i: nat)
    requires WellFormedView(v) && a.WellFormed() && SameSize(v, a) && i < |a.picture|
    ensures !a.damage.HoldsByte(a.width, i) ==> FlushView(v, a).front.value.pixels[i] == v.front.value.pixels[i]
  {
  }

  /** Rust's `swap_remove`: the last element takes the removed one's place. */
  function SwapRemove<T>(s: seq<T>, i: nat): (r: seq<T>)
    requires i < |s|
    ensures |r| == |s| - 1
  {
    s[i := s[|s| - 1]][..|s| - 1]
  }

  ghost predicate Distinct<T>(s: seq<T>) {
    forall i, j :: 0 <= i < j < |s| ==> s[i] != s[j]
  }

  lemma SwapRemoveElements<T>(s: seq<T>, i: nat)
    requires i < |s| && Distinct(s)
    ensures Distinct(SwapRemove(s, i))
    ensures forall x :: x in SwapRemove(s, i) <==> x in s && x != s[i]
  {
    var r := SwapRemove(s, i);
    forall x | x in s && x != s[i]
      ensures x in r
    {
      var j :| 0 <= j < |s| && s[j] == x;
      assert x == if j == |s| - 1 then r[i] else r[j];
    }
  }

  method CopySlice(src: array<byte>, dst: array<byte>, at: nat, len: nat)
    requires src != dst && at + len <= src.Length && at + len <= dst.Length
    modifies dst
    ensures forall i :: 0 <= i < dst.Length ==> dst[i] == if at <= i < at + len then src[i] else old(dst[i])
  {
    forall i | at <= i < at + len {
      dst[i] := src[i];
    }
  }

  /** Where row `n` of `area` starts in a frame `w` pixels wide. */
  function RowStart(w: nat, area: Area, n: nat): nat { 4 * ((area.y + n) * w + area.x) }

  lemma RowFits(w: nat, h: nat, area: Area, n: nat)
    requires area.Inside(w, h) && n < area.height
    ensures RowStart(w, area, n) == area.y * (w * 4) + area.x * 4 + n * (w * 4)
    ensures RowStart(w, area, n) + area.width * 4 <= w * h * 4
  {
    MulLe(area.y + n + 1, h, w);
    assert (area.y + n + 1) * w == (area.y + n) * w + w;
    assert (area.y + n) * w == area.y * w + n * w;
  }

  lemma WholeRowsFit(w: nat, h: nat, area: Area)
    requires area.Inside(w, h) && area.width == w
    ensures area.y * (w * 4) + area.x * 4 == 4 * (area.y * w)
    ensures 4 * (area.y * w) + w * 4 * area.height == 4 * ((area.y + area.height) * w) <= w * h * 4
  {
    MulLe(area.y + area.height, h, w);
    assert (area.y + area.height) * w == area.y * w + area.height * w;
  }

  /** Row by row, or at once when rows are whole: exactly the bytes of `area` are copied. */
  method CopyArea(src: array<byte>, dst: array<byte>, width: nat, height: nat, area: Area)
    requires src != dst && src.Length == dst.Length == width * height * 4
    requires area.Inside(width, height)
    modifies dst
    ensures dst[..] == Overlay(old(dst[..]), src[..], width, area)
  {
    if area.width * 4 == width * 4 {
      var first := area.y * (width * 4) + area.x * 4;
      WholeRowsFit(width, height, area);
      CopySlice(src, dst, first, width * 4 * area.height);
      forall i | 0 <= i < dst.Length
        ensures first <= i < first + width * 4 * area.height <==> area.HoldsByte(width, i)
      {
        if width > 0 { WholeRowsBytes(area, width, i); }
      }
    } else {
      CopyRows(src, dst, width, height, area);
    }
  }

  method CopyRows(src: array<byte>, dst: array<byte>, width: nat, height: nat, area: Area)
    requires src != dst && src.Length == dst.Length == width * height * 4
    requires area.Inside(width, height)
    modifies dst
    ensures dst[..] == Overlay(old(dst[..]), src[..], width, area)
  {
    var n := 0;
    while n < area.height
      invariant n <= area.height
      invariant dst[..] == Overlay(old(dst[..]), src[..], width, area.(height := n))
    {
      var at := area.y * (width * 4) + area.x * 4 + n * (width * 4);
      RowFits(width, height, area, n);
      forall i | 0 <= i < dst.Length
        ensures area.(height := n + 1).HoldsByte(width, i) <==>
                area.(height := n).HoldsByte(width, i) || at <= i < at + area.width * 4
      {
        if width > 0 { RowBytes(area, width, n, i); }
      }
      CopySlice(src, dst, at, area.width * 4);
      n := n + 1;
    }
    assert area.(height := area.height) == area;
  }

  /** The caller's `fill`, by its documented contract: it draws `area` of the guest's frame. */
  method Fill(buf: array<byte>, width: nat, area: Area, picture: seq<byte>)
    requires buf.Length == |picture|
    modifies buf
    ensures buf[..] == Overlay(old(buf[..]), picture, width, area)
  {
    forall i | 0 <= i < buf.Length && area.HoldsByte(width, i) {
      buf[i] := picture[i];
    }
  }

  class Frame {
    var buf: array<byte>
    var width: nat
    var height: nat
    /** The flush that drew it, from 1; 0 for a blank buffer. */
    var number: nat
    /** References besides the scanout's own. */
    var readers: nat

    constructor ()
      ensures fresh(buf) && buf.Length == 0
      ensures width == height == number == readers == 0
    {
      buf := new byte[0];
      width, height, number, readers := 0, 0, 0, 0;
    }

    function Shown(): (p: Picture)
      reads this, buf
    {
      Picture(width, height, buf[..], number)
    }
  }

  /** Frames own distinct buffers of their size. */
  ghost predicate OwnBuffers(pool: set<Frame>)
    reads pool
  {
    (forall f :: f in pool ==> f.buf.Length == f.width * f.height * 4) &&
    (forall f, g :: f in pool && g in pool && f != g ==> f.buf != g.buf)
  }

  ghost predicate Tracked(f: Frame, front: Frame, recent: seq<Damage>)
    reads f, f.buf, front, front.buf
  {
    Tracks(recent, f.Shown(), front.Shown())
  }

  class Scanout {
    var front: Frame?
    var spares: seq<Frame>
    var recent: seq<Damage>
    var windowDirty: Option<Area>
    /** Every frame this scanout ever made, dropped ones that readers still hold included. */
    ghost var pool: set<Frame>

    ghost function Buffers(): set<object>
      reads this, pool
    {
      set f | f in pool :: f.buf
    }

    /** Front and spares are distinct frames of the pool. */
    ghost predicate Arranged()
      reads this
    {
      (front != null ==> front in pool && front !in spares) &&
      (forall f :: f in spares ==> f in pool) &&
      Distinct(spares) && |spares| <= SPARES
    }

    /** The damage log covers the latest flushes, within the latest picture's size. */
    ghost predicate Logged()
      reads this, front, spares
    {
      if front == null then spares == [] && recent == [] && windowDirty == None
      else
        1 <= |recent| <= RECENT && |recent| <= front.number && Consecutive(recent, front.number) &&
        AreasInside(recent, front.width, front.height) &&
        (windowDirty.Some? ==> windowDirty.value.Inside(front.width, front.height)) &&
        (forall f :: f in spares ==> 1 <= f.number < front.number)
    }

    ghost predicate Valid()
      reads this, pool, Buffers()
    {
      Arranged() && OwnBuffers(pool) && Logged() &&
      (front != null ==> forall f :: f in spares ==> Tracked(f, front, recent))
    }

    ghost function Showing(): (v: View)
      reads this, front, if front == null then {} else {front.buf}
    {
      View(if front == null then None else Some(front.Shown()), windowDirty)
    }

    /** What a flush may change: itself, and spares no reader holds. */
    ghost function Writable(): set<object>
      reads this, spares
    {
      {this} + (set f | f in spares && f.readers == 0) + (set f | f in spares && f.readers == 0 :: f.buf)
    }

    constructor ()
      ensures Valid() && Showing() == BLANK && pool == {}
    {
      front, spares, recent, windowDirty := null, [], [], None;
      pool := {};
    }

    /** The index of the newest spare no reader holds, or -1. */
    method NewestFree() returns (best: int)
      ensures -1 <= best < |spares|
      ensures best >= 0 ==> spares[best].readers == 0
      ensures forall j :: 0 <= j < |spares| && spares[j].readers == 0 ==>
                best >= 0 && spares[j].number <= spares[best].number
    {
      best := -1;
      for i := 0 to |spares|
        invariant -1 <= best < i
        invariant best >= 0 ==> spares[best].readers == 0
        invariant forall j :: 0 <= j < i && spares[j].readers == 0 ==>
                    best >= 0 && spares[j].number <= spares[best].number
      {
        if spares[i].readers == 0 && (best < 0 || spares[best].number <= spares[i].number) {
          best := i;
        }
      }
    }

    method BlankFrame() returns (back: Frame)
      requires Valid()
      modifies this`pool
      ensures Valid() && fresh(back) && fresh(back.buf) && pool == old(pool) + {back}
      ensures back.readers == 0 && back.number == 0
    {
      back := new Frame();
      pool := pool + {back};
    }

    method RemoveSpare(at: nat) returns (back: Frame)
      requires Valid() && at < |spares|
      modifies this`spares
      ensures Valid() && back == old(spares)[at] && |spares| < |old(spares)|
      ensures forall f :: f in spares <==> f in old(spares) && f != back
    {
      back := spares[at];
      SwapRemoveElements(spares, at);
      spares := SwapRemove(spares, at);
    }

    /** Take the newest free spare off the list, or a blank frame if all are held. */
    method TakeBack() returns (back: Frame)
      requires Valid()
      modifies this`spares, this`pool
      ensures Valid() && back in pool && back.readers == 0 && back != front && back !in spares
      ensures pool == old(pool) + {back} && (front != null ==> Tracked(back, front, recent))
      ensures if back in old(spares) then |spares| < |old(spares)| else fresh(back) && fresh(back.buf)
      ensures forall f :: f in spares <==> f in old(spares) && f != back
    {
      var best := NewestFree();
      if best < 0 {
        back := BlankFrame();
      } else {
        back := RemoveSpare(best);
      }
    }

    /** Make `back` the right size, blank if it was another. */
    method Resize(back: Frame, width: nat, height: nat)
      requires Valid() && back in pool && back != front && back !in spares
      requires front != null ==> Tracked(back, front, recent)
      modifies back
      ensures Valid() && back.readers == old(back.readers)
      ensures back.width == width && back.height == height
      ensures back.buf == old(back.buf) || fresh(back.buf)
      ensures front != null ==> Tracked(back, front, recent)
    {
      if back.width != width || back.height != height {
        back.width, back.height, back.number := width, height, 0;
        back.buf := new byte[width * height * 4](_ => 0);
      }
    }

    /** Bring `back` up to date from the latest picture: the log says where, else everywhere. */
    method CatchUp(back: Frame)
      requires Valid() && front != null && back in pool && back != front && back !in spares
      requires back.width == front.width && back.height == front.height && Tracked(back, front, recent)
      modifies back.buf
      ensures Valid() && back.buf[..] == front.buf[..]
    {
      var changed := ChangedSince(recent, back.number);
      var stale := if changed.Some? then changed.value else Full(back.width, back.height);
      BoundsInside(recent, back.number, back.width, back.height);
      CopyArea(front.buf, back.buf, back.width, back.height, stale);
      forall i | 0 <= i < back.buf.Length
        ensures back.buf[i] == front.buf[i]
      {
        if changed.None? { FullHoldsAll(back.width, back.height, i); }
      }
    }

    /** Draw the flush on `back`: whatever it showed before, it now shows the whole new picture. */
    method Draw(back: Frame, a: FlushArgs) returns (area: Area)
      requires Valid() && a.WellFormed() && back in pool && back != front && back !in spares
      requires back.width == a.width && back.height == a.height
      requires front != null ==> Tracked(back, front, recent)
      modifies back.buf
      ensures Valid() && area == DrawnArea(Showing(), a)
      ensures back.buf[..] == FlushView(Showing(), a).front.value.pixels
    {
      var full := Full(a.width, a.height);
      area := full;
      if front != null && front.width == a.width && front.height == a.height {
        if a.damage != full {
          CatchUp(back);
        }
        area := a.damage;
      }
      ghost var before := back.buf[..];
      Fill(back.buf, a.width, area, a.picture);
      OverlayFull(before, a.picture, a.width, a.height);
      if SameSize(Showing(), a) && area == full {
        OverlayFull(Showing().front.value.pixels, a.picture, a.width, a.height);
      }
    }

    /** Keep the outgoing picture as a spare, dropping the oldest of more than `SPARES`. */
    method KeepSpare(outgoing: Frame)
      requires Distinct(spares) && outgoing !in spares && |spares| <= SPARES
      modifies this`spares
      ensures Distinct(spares) && |spares| <= SPARES
      ensures forall f :: f in spares ==> f in old(spares) || f == outgoing
      ensures forall f, g :: f in spares && g in old(spares) + [outgoing] && g !in spares ==>
                g.number <= f.number
    {
      spares := spares + [outgoing];
      if |spares| > SPARES {
        var oldest := 0;
        for i := 1 to |spares|
          invariant 0 <= oldest < |spares|
          invariant forall j :: 0 <= j < i ==> spares[oldest].number <= spares[j].number
        {
          if spares[i].number < spares[oldest].number {
            oldest := i;
          }
        }
        SwapRemoveElements(spares, oldest);
        spares := SwapRemove(spares, oldest);
      }
    }

    /** Remember what the flush changed, for the spares and for the window. */
    method LogFlush(number: nat, area: Area, full: Area)
      modifies this`recent, this`windowDirty
      ensures recent == NextLog(old(recent), number, area, full)
      ensures windowDirty == GrownDirty(old(windowDirty), area, full)
    {
      if area == full {
        recent, windowDirty := [], None;
      }
      recent := recent + [(number, area)];
      if |recent| > RECENT {
        recent := recent[1..];
      }
      windowDirty := Some(if windowDirty.None? then area else Union(windowDirty.value, area));
    }

    /** Put `back`, which shows the picture after a flush, in front; the outgoing picture becomes a spare. */
    method SwapFront(back: Frame)
      requires Arranged() && OwnBuffers(pool) && back in pool && back != front && back !in spares
      requires front == null ==> spares == []
      modifies this`front, this`spares
      ensures Arranged() && front == back
      ensures forall f :: f in spares ==> f in old(spares) || f == old(front)
    {
      if front != null {
        KeepSpare(front);
      }
      front := back;
    }

    lemma OlderStayTracked(a: FlushArgs, shown: Frame, log: seq<Damage>, next: Picture)
      requires Valid() && a.WellFormed() && front == shown && next == FlushView(Showing(), a).front.value
      requires log == NextLog(recent, shown.number + 1, DrawnArea(Showing(), a), Full(a.width, a.height))
      ensures forall f :: f in spares || f == front ==> Tracks(log, f.Shown(), next)
    {
      var v := Showing();
      forall f | f in spares || f == front
        ensures Tracks(log, f.Shown(), next)
      {
        FlushKeepsTrack(recent, f.Shown(), v, a);
      }
    }

    method Publish(back: Frame, a: FlushArgs, area: Area)
      requires Valid() && a.WellFormed() && back in pool && back != front && back !in spares
      requires back.width == a.width && back.height == a.height && area == DrawnArea(Showing(), a)
      requires back.buf[..] == FlushView(Showing(), a).front.value.pixels
      modifies this, back`number
      ensures Valid() && front == back && pool == old(pool)
      ensures Showing() == FlushView(old(Showing()), a)
    {
      hide NextLog, ChangedSince, BoundsAfter, Tracks, Overlay, Union;
      ghost var next := FlushView(Showing(), a).front.value;
      var full := Full(a.width, a.height);
      var number := (if front == null then 0 else front.number) + 1;
      ghost var log := NextLog(recent, number, area, full);
      if front != null {
        OlderStayTracked(a, front, log, next);
      }
      NextLogShape(recent, number - 1, area, a.width, a.height);
      back.number := number;
      LogFlush(number, area, full);
      SwapFront(back);
      assert back.Shown() == next;
    }

    /**
     * Take a flush. The published picture is the whole frame redrawn, whichever
     * spare it was drawn on; no frame changes but the one published, which no
     * reader held.
     */
    method Flush(a: FlushArgs)
      requires Valid() && a.WellFormed()
      modifies Writable()
      ensures Valid() && old(pool) <= pool
      ensures Showing() == FlushView(old(Showing()), a)
      ensures forall f :: f in old(pool) && f == front ==> old(f.readers) == 0
      ensures forall f :: f in old(pool) && f != front ==> f.Shown() == old(f.Shown())
      ensures forall f :: f in old(pool) ==> f.readers == old(f.readers)
      ensures forall f :: f in pool && f !in old(pool) ==> fresh(f) && f.readers == 0
      ensures fresh(Buffers() - old(Buffers()))
    {
      hide NextLog, ChangedSince, BoundsAfter, Tracks, Overlay, Union, FlushView;
      var back := TakeBack();
      Resize(back, a.width, a.height);
      var area := Draw(back, a);
      Publish(back, a, area);
    }

    ghost function Fronts(): set<Frame>
      reads this
    {
      if front == null then {} else {front}
    }

    /** The latest picture, by reference, if there has been a flush. */
    method Latest() returns (f: Frame?)
      requires Valid()
      modifies Fronts()`readers
      ensures Valid() && f == front
      ensures f != null ==> f.readers == old(f.readers) + 1
    {
      f := front;
      if f != null {
        f.readers := f.readers + 1;
      }
    }

    /** The latest picture, by reference, if a flush came after the one numbered `number`. */
    method NewerThan(number: nat) returns (f: Frame?)
      requires Valid()
      modifies Fronts()`readers
      ensures Valid() && (f == null <==> NumberOf(Showing()) <= number)
      ensures f != null ==> f == front && f.number > number && f.readers == old(f.readers) + 1
      ensures f == null && front != null ==> front.readers == old(front.readers)
    {
      if front != null && front.number > number {
        f := Latest();
      } else {
        f := null;
      }
    }

    /** A reader is done with `f`. */
    method Release(f: Frame)
      requires Valid() && f in pool && f.readers > 0
      modifies f`readers
      ensures Valid() && f.readers == old(f.readers) - 1 && Showing() == old(Showing())
      ensures forall g :: g in pool ==> g.Shown() == old(g.Shown())
    {
      f.readers := f.readers - 1;
    }

    /** What the window, sized `width`x`height`, has to repaint; everything when the size changed. */
    method WindowUpdate(width: nat, height: nat) returns (area: Option<Area>, w: nat, h: nat)
      requires Valid()
      modifies this`windowDirty
      ensures Valid() && Showing() == old(Showing()).(dirty := None)
      ensures (area, w, h) == TakeDirty(old(Showing()), width, height)
    {
      var dirty := windowDirty;
      windowDirty := None;
      if dirty.None? || front == null {
        return None, width, height;
      }
      if width == front.width && height == front.height {
        return dirty, width, height;
      }
      return Some(Full(front.width, front.height)), front.width, front.height;
    }
  }

  /** What happens around a scanout: flushes, the window looking, readers coming and going. */
  datatype Event =
    | Flushed(args: FlushArgs)
    | Looked(width: nat, height: nat)
    | Took
    | Dropped(at: nat)

  ghost predicate WellFormedEvents(events: seq<Event>) {
    forall e :: e in events && e.Flushed? ==> e.args.WellFormed()
  }

  ghost function FlushesOf(events: seq<Event>): (r: seq<FlushArgs>)
    requires WellFormedEvents(events)
    ensures WellFormedRun(r)
  {
    if events == [] then []
    else
      var before, e := FlushesOf(events[..|events| - 1]), events[|events| - 1];
      if e.Flushed? then before + [e.args] else before
  }

  function Without<T>(s: seq<T>, at: nat): seq<T> {
    if at < |s| then s[..at] + s[at + 1..] else s
  }

  function NextFront(front: Option<Picture>, e: Event): Option<Picture>
    requires WellFormedView(View(front, None)) && (e.Flushed? ==> e.args.WellFormed())
  {
    if e.Flushed? then FlushView(View(front, None), e.args).front else front
  }

  function NextHeld(held: seq<Picture>, front: Option<Picture>, e: Event): seq<Picture> {
    match e
    case Took => if front.Some? then held + [front.value] else held
    case Dropped(at) => Without(held, at)
    case _ => held
  }

  /** The pictures readers hold: each the whole frame as of when it was taken. */
  ghost function HeldAfter(events: seq<Event>): seq<Picture>
    requires WellFormedEvents(events)
  {
    if events == [] then []
    else
      var before := events[..|events| - 1];
      NextHeld(HeldAfter(before), Replay(FlushesOf(before)).front, events[|events| - 1])
  }

  lemma OneMoreEvent(events: seq<Event>, e: Event)
    requires WellFormedEvents(events) && WellFormedEvents(events + [e]) && (e.Flushed? ==> e.args.WellFormed())
    ensures HeldAfter(events + [e]) == NextHeld(HeldAfter(events), Replay(FlushesOf(events)).front, e)
    ensures Replay(FlushesOf(events + [e])).front == NextFront(Replay(FlushesOf(events)).front, e)
  {
    assert (events + [e])[..|events|] == events;
    if e.Flushed? {
      var run := FlushesOf(events + [e]);
      assert run[..|run| - 1] == FlushesOf(events);
    }
  }

  lemma NoEvents()
    ensures HeldAfter([]) == [] && Replay(FlushesOf([])).front == None
  {
  }

  ghost predicate Holds(s: Scanout, held: seq<Frame>)
    reads s, s.pool
  {
    (forall f :: f in held ==> f in s.pool) &&
    (forall f :: f in s.pool ==> f.readers == multiset(held)[f])
  }

  ghost predicate ShowAs(held: seq<Frame>, pictures: seq<Picture>)
    reads held, set f | f in held :: f.buf
  {
    |held| == |pictures| && forall k :: 0 <= k < |held| ==> held[k].Shown() == pictures[k]
  }

  lemma FrontIgnoresDirty(v: View, args: FlushArgs)
    requires WellFormedView(v) && args.WellFormed()
    ensures FlushView(v, args).front == FlushView(View(v.front, None), args).front
  {
  }

  method ServeFlush(s: Scanout, held: seq<Frame>, ghost pictures: seq<Picture>, args: FlushArgs)
    requires s.Valid() && Holds(s, held) && ShowAs(held, pictures) && args.WellFormed()
    modifies s, s.pool, s.Buffers()
    ensures s.Valid() && Holds(s, held) && ShowAs(held, pictures)
    ensures s.Showing().front == NextFront(old(s.Showing()).front, Flushed(args))
    ensures fresh(s.pool - old(s.pool)) && fresh(s.Buffers() - old(s.Buffers()))
  {
    hide FlushView;
    FrontIgnoresDirty(s.Showing(), args);
    s.Flush(args);
    forall f | f in held
      ensures f.Shown() == old(f.Shown())
    {
      assert old(f.readers) == multiset(held)[f] > 0;
    }
  }

  method ServeTake(s: Scanout, held: seq<Frame>, ghost pictures: seq<Picture>) returns (held': seq<Frame>)
    requires s.Valid() && Holds(s, held) && ShowAs(held, pictures)
    modifies s.Fronts()`readers
    ensures s.Valid() && Holds(s, held') && s.Showing() == old(s.Showing())
    ensures var front := s.Showing().front;
            ShowAs(held', if front.Some? then pictures + [front.value] else pictures)
  {
    held' := held;
    var f := s.Latest();
    if f != null {
      held' := held + [f];
    }
  }

  lemma WithoutLength<T>(s: seq<T>, at: nat)
    requires at < |s|
    ensures |Without(s, at)| == |s| - 1
  {
  }

  lemma WithoutAt<T>(s: seq<T>, at: nat, k: nat)
    requires at < |s| && k < |Without(s, at)|
    ensures k + 1 < |s| && Without(s, at)[k] == s[if k < at then k else k + 1]
  {
  }

  /** A reader lets go of the picture at `at`; all pictures stay as they are. */
  method LetGo(s: Scanout, held: seq<Frame>, at: nat) returns (held': seq<Frame>)
    requires s.Valid() && Holds(s, held) && at < |held|
    modifies s.pool`readers
    ensures s.Valid() && Holds(s, held') && s.Showing() == old(s.Showing()) && held' == Without(held, at)
    ensures forall f :: f in s.pool ==> f.Shown() == old(f.Shown())
  {
    hide Scanout.Valid, Frame.Shown;
    var f := held[at];
    assert f in s.pool && f.readers == multiset(held)[f] > 0;
    s.Release(f);
    held' := Without(held, at);
    assert held == held[..at] + [f] + held[at + 1..];
    assert multiset(held') == multiset(held) - multiset{f};
    forall g | g in s.pool
      ensures g.readers == multiset(held')[g]
    {
      assert g != f ==> g.readers == old(g.readers);
    }
  }

  method ServeDrop(s: Scanout, held: seq<Frame>, ghost pictures: seq<Picture>, at: nat) returns (held': seq<Frame>)
    requires s.Valid() && Holds(s, held) && ShowAs(held, pictures)
    modifies s.pool`readers
    ensures s.Valid() && Holds(s, held') && s.Showing() == old(s.Showing())
    ensures ShowAs(held', Without(pictures, at))
  {
    if at >= |held| {
      return held;
    }
    hide Without, Scanout.Valid, Frame.Shown;
    held' := LetGo(s, held, at);
    WithoutLength(held, at);
    WithoutLength(pictures, at);
    forall k | 0 <= k < |held'|
      ensures held'[k].Shown() == Without(pictures, at)[k]
    {
      WithoutAt(held, at, k);
      WithoutAt(pictures, at, k);
      assert held[if k < at then k else k + 1] in held;
    }
  }

  method ServeLook(s: Scanout, held: seq<Frame>, ghost pictures: seq<Picture>, width: nat, height: nat)
    requires s.Valid() && Holds(s, held) && ShowAs(held, pictures)
    modifies s`windowDirty
    ensures s.Valid() && Holds(s, held) && ShowAs(held, pictures)
    ensures s.Showing().front == old(s.Showing()).front
  {
    var _, _, _ := s.WindowUpdate(width, height);
  }

  /** One more event: every reader's picture stays, and the front is the whole frame redrawn. */
  method Serve(s: Scanout, held: seq<Frame>, ghost pictures: seq<Picture>, e: Event) returns (held': seq<Frame>)
    requires s.Valid() && Holds(s, held) && ShowAs(held, pictures)
    requires e.Flushed? ==> e.args.WellFormed()
    modifies s, s.pool, s.Buffers()
    ensures s.Valid() && Holds(s, held') && ShowAs(held', NextHeld(pictures, old(s.Showing()).front, e))
    ensures s.Showing().front == NextFront(old(s.Showing()).front, e)
    ensures fresh(s.pool - old(s.pool)) && fresh(s.Buffers() - old(s.Buffers()))
  {
    hide FlushView, Without;
    held' := held;
    match e {
      case Flushed(args) => ServeFlush(s, held, pictures, args);
      case Looked(width, height) => ServeLook(s, held, pictures, width, height);
      case Took => held' := ServeTake(s, held, pictures);
      case Dropped(at) => held' := ServeDrop(s, held, pictures, at);
    }
  }

  /**
   * Every run: whatever the sizes, damages, readers and looks, the published
   * picture is the whole frame redrawn, and held pictures never changed.
   */
  method ServeAll(events: seq<Event>) returns (s: Scanout, held: seq<Frame>)
    requires WellFormedEvents(events)
    ensures s.Valid() && Holds(s, held) && ShowAs(held, HeldAfter(events))
    ensures s.Showing().front == Replay(FlushesOf(events)).front
  {
    hide HeldAfter, FlushesOf, Replay, NextHeld, NextFront, FlushView;
    NoEvents();
    s := new Scanout();
    held := [];
    assert events[..0] == [];
    for i := 0 to |events|
      invariant fresh(s) && fresh(s.pool) && fresh(s.Buffers())
      invariant s.Valid() && Holds(s, held) && ShowAs(held, HeldAfter(events[..i]))
      invariant s.Showing().front == Replay(FlushesOf(events[..i])).front
    {
      OneMoreEvent(events[..i], events[i]);
      assert events[..i + 1] == events[..i] + [events[i]];
      held := Serve(s, held, HeldAfter(events[..i]), events[i]);
    }
    assert events[..|events|] == events;
  }
}
