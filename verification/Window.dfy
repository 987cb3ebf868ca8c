/**
 * The window's repaint protocol as a step machine: threads that flush set a
 * coalescing flag and post at most one message; the window thread clears the
 * flag, takes the dirty area, invalidates it, and later paints from the latest
 * picture, all interleaved arbitrarily with more flushes.
 */
module Window {
  import opened Arith
  import opened Areas
  import opened Basics
  import opened Pictures

  type Pixel = seq<byte>

  const BLACK: Pixel := [0, 0, 0, 0]

  /** Where the window thread is in its message procedure. */
  datatype Phase =
    | Idle
    /** Handling WM_APP_PAINT, flag still set. */
    | Dispatched
    /** Flag cleared, dirty area not taken yet. */
    | Cleared
    /** Dirty area taken; `resizing` until the client area has the new size. */
    | Taken(area: Area, resizing: bool)
    /** In WM_PAINT, update region taken, picture not fetched yet. */
    | Painting(clip: seq<Area>)
    /** Picture held by reference, about to be blitted to the clip. */
    | Blitting(clip: seq<Area>, held: Option<Picture>)

  datatype Machine = Machine(
    view: View,
    /** The size the window is for, and that of its client area. */
    size: (nat, nat),
    client: (nat, nat),
    win: (int, int) -> Pixel,
    /** The update region. */
    invalid: seq<Area>,
    pending: bool,
    /** Threads that flushed and have yet to swap the flag; that won the flag and have yet to post. */
    flushed: nat,
    posting: nat,
    /** WM_APP_PAINT messages in the queue. */
    queued: nat,
    phase: Phase)

  predicate Holds(region: seq<Area>, x: int, y: int) {
    exists k :: 0 <= k < |region| && region[k].Covers(x, y)
  }

  function PixelOf(p: Picture, x: nat, y: nat): Pixel
    requires p.WellFormed() && x < p.width && y < p.height
  {
    var at := y * p.width + x;
    assert at < p.width * p.height by { MulLe(y + 1, p.height, p.width); assert (y + 1) * p.width == y * p.width + p.width; }
    p.pixels[4 * at..4 * at + 4]
  }

  /** What the screen should show at a pixel: the latest picture's, black before the first. */
  function Shown(front: Option<Picture>, x: nat, y: nat): Pixel
    requires front.Some? ==> front.value.WellFormed()
  {
    if front.Some? && x < front.value.width && y < front.value.height then PixelOf(front.value, x, y) else BLACK
  }

  /** A pixel of the clip after the blit: a picture's blit leaves alone what lies beyond it. */
  function Blitted(held: Option<Picture>, x: nat, y: nat, before: Pixel): Pixel
    requires held.Some? ==> held.value.WellFormed()
  {
    if held.None? || held.value.width == 0 || held.value.height == 0 then BLACK
    else if x < held.value.width && y < held.value.height then PixelOf(held.value, x, y)
    else before
  }

  ghost predicate Init(s: Machine) {
    s.view == BLANK && s.client == s.size && s.invalid == [Full(s.size.0, s.size.1)] &&
    !s.pending && s.flushed == s.posting == s.queued == 0 && s.phase == Idle
  }

  // ---- The steps ----

  ghost predicate Flush(s: Machine, s': Machine, a: FlushArgs)
    requires WellFormedView(s.view)
  {
    a.WellFormed() &&
    s' == s.(view := FlushView(s.view, a), flushed := s.flushed + 1)
  }

  /** The system loses part of the window's pixels (uncovered, restored): it invalidates that part. */
  ghost predicate Expose(s: Machine, s': Machine, lost: Area) {
    s'.invalid == s.invalid + [lost] && s' == s.(invalid := s'.invalid, win := s'.win) &&
    forall x, y :: !lost.Covers(x, y) ==> s'.win(x, y) == s.win(x, y)
  }

  ghost predicate SwapFlag(s: Machine, s': Machine) {
    s.flushed > 0 &&
    s' == s.(flushed := s.flushed - 1, pending := true, posting := s.posting + if s.pending then 0 else 1)
  }

  ghost predicate Post(s: Machine, s': Machine) {
    s.posting > 0 && s' == s.(posting := s.posting - 1, queued := s.queued + 1)
  }

  ghost predicate Dispatch(s: Machine, s': Machine) {
    s.phase.Idle? && s.queued > 0 && s' == s.(queued := s.queued - 1, phase := Dispatched)
  }

  ghost predicate ClearFlag(s: Machine, s': Machine) {
    s.phase.Dispatched? && s' == s.(pending := false, phase := Cleared)
  }

  ghost predicate Look(s: Machine, s': Machine) {
    s.phase.Cleared? &&
    var (area, w, h) := TakeDirty(s.view, s.size.0, s.size.1);
    s' == s.(view := s.view.(dirty := None), size := (w, h),
             phase := if area.None? then Idle else Taken(area.value, (w, h) != s.size))
  }

  /** `SetWindowPos`: the client area gets the new size, its pixels are anyone's guess. */
  ghost predicate ResizeClient(s: Machine, s': Machine) {
    s.phase.Taken? && s.phase.resizing &&
    s' == s.(client := s.size, win := s'.win, phase := Taken(s.phase.area, false))
  }

  ghost predicate Invalidate(s: Machine, s': Machine) {
    s.phase.Taken? && !s.phase.resizing && s' == s.(invalid := s.invalid + [s.phase.area], phase := Idle)
  }

  ghost predicate BeginPaint(s: Machine, s': Machine) {
    s.phase.Idle? && s.invalid != [] && s' == s.(invalid := [], phase := Painting(s.invalid))
  }

  ghost predicate Fetch(s: Machine, s': Machine) {
    s.phase.Painting? && s' == s.(phase := Blitting(s.phase.clip, s.view.front))
  }

  ghost predicate Blit(s: Machine, s': Machine) {
    s.phase.Blitting? && (s.phase.held.Some? ==> s.phase.held.value.WellFormed()) &&
    s' == s.(win := s'.win, phase := Idle) &&
    forall x: nat, y: nat :: s'.win(x, y) ==
      if Holds(s.phase.clip, x, y) then Blitted(s.phase.held, x, y, s.win(x, y)) else s.win(x, y)
  }

  /** Steps that catch the window up, as opposed to ones that give it more to do. */
  ghost predicate Internal(s: Machine, s': Machine) {
    SwapFlag(s, s') || Post(s, s') || Dispatch(s, s') || ClearFlag(s, s') || Look(s, s') ||
    ResizeClient(s, s') || Invalidate(s, s') || BeginPaint(s, s') || Fetch(s, s') || Blit(s, s')
  }

  ghost predicate Next(s: Machine, s': Machine) {
    Internal(s, s') ||
    (WellFormedView(s.view) && exists a :: Flush(s, s', a)) ||
    (exists lost :: Expose(s, s', lost))
  }

  // ---- What every step keeps ----

  /** The window is for the latest picture's size (or there is none yet). */
  predicate Fits(s: Machine) {
    s.view.front.Some? ==> s.view.front.value.Sized(s.size.0, s.size.1)
  }

  /** The pixel is right, will be made right by the blit under way, or still is to be repainted. */
  ghost predicate Settled(s: Machine, x: nat, y: nat)
    requires Held(s)
  {
    var right := Shown(s.view.front, x, y);
    (s.view.dirty.Some? && s.view.dirty.value.Covers(x, y)) ||
    Holds(s.invalid, x, y) ||
    match s.phase
    case Taken(area, _) => area.Covers(x, y) || s.win(x, y) == right
    case Painting(clip) => Holds(clip, x, y) || s.win(x, y) == right
    case Blitting(clip, held) =>
      (if Holds(clip, x, y) then Blitted(held, x, y, s.win(x, y)) else s.win(x, y)) == right
    case _ => s.win(x, y) == right
  }

  /** Pictures are whole frames, the one being blitted included. */
  ghost predicate Held(s: Machine) {
    WellFormedView(s.view) &&
    (s.phase.Blitting? && s.phase.held.Some? ==> s.phase.held.value.WellFormed())
  }

  /** One update outstanding exactly while the flag is set; a dirty area always has one coming. */
  ghost predicate Signalled(s: Machine) {
    s.posting + s.queued + (if s.phase.Dispatched? then 1 else 0) == (if s.pending then 1 else 0) &&
    (s.view.dirty.Some? ==>
       s.flushed > 0 || s.posting > 0 || s.queued > 0 || s.phase.Dispatched? || s.phase.Cleared?)
  }

  /** A picture of another size is wholly dirty; the client area follows the size. */
  ghost predicate Dimensioned(s: Machine) {
    (!Fits(s) ==> s.view.dirty == Some(Full(s.view.front.value.width, s.view.front.value.height))) &&
    (if s.phase.Taken? && s.phase.resizing then s.phase.area == Full(s.size.0, s.size.1) else s.client == s.size)
  }

  ghost predicate Inv(s: Machine) {
    Held(s) && Signalled(s) && Dimensioned(s) &&
    (Fits(s) ==> forall x: nat, y: nat :: x < s.size.0 && y < s.size.1 ==> Settled(s, x, y))
  }

  lemma InitHolds(s: Machine)
    requires Init(s)
    ensures Inv(s)
  {
    forall x: nat, y: nat | x < s.size.0 && y < s.size.1
      ensures Settled(s, x, y)
    {
      assert s.invalid[0].Covers(x, y);
    }
  }

  /** A flush changes no pixel outside what it draws. */
  lemma FlushChangesOnlyDamage(v: View, a: FlushArgs, x: nat, y: nat)
    requires WellFormedView(v) && a.WellFormed() && SameSize(v, a)
    requires x < a.width && y < a.height && !a.damage.Covers(x, y)
    ensures Shown(FlushView(v, a).front, x, y) == Shown(v.front, x, y)
  {
    var at := y * a.width + x;
    var before, now := v.front.value.pixels, FlushView(v, a).front.value.pixels;
    MulLt(y, a.height, a.width);
    DivMod(y, x, a.width, at);
    assert now[4 * at..4 * at + 4] == before[4 * at..4 * at + 4] by {
      forall i | 4 * at <= i < 4 * at + 4
        ensures now[i] == before[i]
      {
        assert i / 4 == at;
      }
    }
  }

  lemma FlushKeeps(s: Machine, s': Machine, a: FlushArgs)
    requires Inv(s) && Flush(s, s', a)
    ensures Inv(s')
  {
    var full := Full(a.width, a.height);
    assert DrawnArea(s.view, a).Inside(a.width, a.height);
    if Fits(s') {
      forall x: nat, y: nat | x < s'.size.0 && y < s'.size.1
        ensures Settled(s', x, y)
      {
        assert full.Covers(x, y);
        if SameSize(s.view, a) && a.damage != full && Fits(s) {
          assert Settled(s, x, y);
          if !a.damage.Covers(x, y) {
            FlushChangesOnlyDamage(s.view, a, x, y);
          }
        }
      }
    }
  }

  lemma ExposeKeeps(s: Machine, s': Machine, lost: Area)
    requires Inv(s) && Expose(s, s', lost)
    ensures Inv(s')
  {
    if Fits(s') {
      forall x: nat, y: nat | x < s'.size.0 && y < s'.size.1
        ensures Settled(s', x, y)
      {
        assert Settled(s, x, y);
        GrownRegion(s.invalid, lost, x, y);
      }
    }
  }

  lemma GrownRegion(region: seq<Area>, area: Area, x: int, y: int)
    ensures Holds(region + [area], x, y) <==> Holds(region, x, y) || area.Covers(x, y)
  {
    var grown := region + [area];
    if Holds(region, x, y) {
      var k :| 0 <= k < |region| && region[k].Covers(x, y);
      assert grown[k].Covers(x, y);
    }
    if area.Covers(x, y) {
      assert grown[|region|].Covers(x, y);
    }
  }

  lemma SignalKeeps(s: Machine, s': Machine)
    requires Inv(s) && (SwapFlag(s, s') || Post(s, s') || Dispatch(s, s') || ClearFlag(s, s'))
    ensures Inv(s')
  {
    if Fits(s') {
      forall x: nat, y: nat | x < s'.size.0 && y < s'.size.1
        ensures Settled(s', x, y)
      {
        assert Settled(s, x, y);
      }
    }
  }

  lemma LookKeeps(s: Machine, s': Machine)
    requires Inv(s) && Look(s, s')
    ensures Inv(s')
  {
    if Fits(s') {
      forall x: nat, y: nat | x < s'.size.0 && y < s'.size.1
        ensures Settled(s', x, y)
      {
        if Fits(s) { assert Settled(s, x, y); }
      }
    }
  }

  lemma ResizeKeeps(s: Machine, s': Machine)
    requires Inv(s) && ResizeClient(s, s')
    ensures Inv(s')
  {
  }

  lemma InvalidateKeeps(s: Machine, s': Machine)
    requires Inv(s) && Invalidate(s, s')
    ensures Inv(s')
  {
    if Fits(s') {
      forall x: nat, y: nat | x < s'.size.0 && y < s'.size.1
        ensures Settled(s', x, y)
      {
        assert Settled(s, x, y);
        GrownRegion(s.invalid, s.phase.area, x, y);
      }
    }
  }

  lemma PaintKeeps(s: Machine, s': Machine)
    requires Inv(s) && (BeginPaint(s, s') || Fetch(s, s') || Blit(s, s'))
    ensures Inv(s')
  {
    if Fits(s') {
      forall x: nat, y: nat | x < s'.size.0 && y < s'.size.1
        ensures Settled(s', x, y)
      {
        assert Settled(s, x, y);
      }
    }
  }

  lemma NextKeeps(s: Machine, s': Machine)
    requires Inv(s) && Next(s, s')
    ensures Inv(s')
  {
    if a :| Flush(s, s', a) {
      FlushKeeps(s, s', a);
    } else if lost :| Expose(s, s', lost) {
      ExposeKeeps(s, s', lost);
    } else if SwapFlag(s, s') || Post(s, s') || Dispatch(s, s') || ClearFlag(s, s') {
      SignalKeeps(s, s');
    } else if Look(s, s') {
      LookKeeps(s, s');
    } else if ResizeClient(s, s') {
      ResizeKeeps(s, s');
    } else if Invalidate(s, s') {
      InvalidateKeeps(s, s');
    } else {
      PaintKeeps(s, s');
    }
  }

  /** A run: any interleaving of flushes, exposures and the two threads' steps. */
  ghost predicate Run(run: seq<Machine>) {
    run != [] && Init(run[0]) && forall k :: 0 <= k < |run| - 1 ==> Next(run[k], run[k + 1])
  }

  /** Along every run, no repaint is ever lost. */
  lemma {:induction false} RunKeeps(run: seq<Machine>, k: nat)
    requires Run(run) && k < |run|
    ensures Inv(run[k])
  {
    if k == 0 {
      InitHolds(run[0]);
    } else {
      RunKeeps(run, k - 1);
      NextKeeps(run[k - 1], run[k]);
    }
  }

  /** Nothing left to do. */
  predicate Quiet(s: Machine) {
    s.phase.Idle? && s.invalid == [] && s.flushed == s.posting == s.queued == 0
  }

  /** Whenever the machine comes to rest, in any run, the window shows exactly the latest picture. */
  lemma QuietShowsLatest(run: seq<Machine>, k: nat)
    requires Run(run) && k < |run| && Quiet(run[k])
    ensures var s := run[k];
            s.view.dirty == None && Fits(s) && s.client == s.size && !s.pending &&
            WellFormedView(s.view) &&
            forall x: nat, y: nat :: x < s.client.0 && y < s.client.1 ==> s.win(x, y) == Shown(s.view.front, x, y)
  {
    RunKeeps(run, k);
    var s := run[k];
    forall x: nat, y: nat | x < s.client.0 && y < s.client.1
      ensures s.win(x, y) == Shown(s.view.front, x, y)
    {
      assert Settled(s, x, y);
    }
  }

  /** So a window at rest holds the latest picture's own bytes, pixel by pixel. */
  lemma QuietShowsBytes(run: seq<Machine>, k: nat, x: nat, y: nat, c: nat)
    requires Run(run) && k < |run| && Quiet(run[k]) && run[k].view.front.Some?
    requires x < run[k].client.0 && y < run[k].client.1 && c < 4
    ensures var s, front := run[k], run[k].view.front.value;
            s.client == (front.width, front.height) &&
            |s.win(x, y)| == 4 && 0 <= 4 * (y * front.width + x) + c < |front.pixels| &&
            s.win(x, y)[c] == front.pixels[4 * (y * front.width + x) + c]
  {
    QuietShowsLatest(run, k);
    var s := run[k];
    var front := s.view.front.value;
    MulLt(y, front.height, front.width);
    MulLe(0, y, front.width);
    var at := y * front.width + x;
    assert s.win(x, y) == front.pixels[4 * at..4 * at + 4];
  }

  /** Before the first picture it is black. */
  lemma QuietStartsBlack(run: seq<Machine>, k: nat, x: nat, y: nat)
    requires Run(run) && k < |run| && Quiet(run[k]) && run[k].view.front.None?
    requires x < run[k].client.0 && y < run[k].client.1
    ensures run[k].win(x, y) == [0, 0, 0, 0]
  {
    QuietShowsLatest(run, k);
  }

  // ---- And the machine does come to rest ----

  function Rank(p: Phase): nat {
    match p
    case Idle => 0
    case Blitting(_, _) => 1
    case Painting(_) => 2
    case Taken(_, resizing) => if resizing then 6 else 5
    case Cleared => 7
    case Dispatched => 8
  }

  /** What is left to do: an upper bound on the steps before the window is at rest. */
  function Work(s: Machine): nat {
    11 * s.flushed + 10 * s.posting + 9 * s.queued + Rank(s.phase) + if s.invalid == [] then 0 else 3
  }

  lemma InternalProgress(s: Machine, s': Machine)
    requires Internal(s, s')
    ensures Work(s') < Work(s)
  {
  }

  /** While not at rest, some thread can move. */
  lemma NeverStuck(s: Machine) returns (s': Machine)
    requires Inv(s) && !Quiet(s)
    ensures Internal(s, s')
  {
    match s.phase {
      case Idle =>
        if s.flushed > 0 {
          s' := s.(flushed := s.flushed - 1, pending := true, posting := s.posting + if s.pending then 0 else 1);
        } else if s.posting > 0 {
          s' := s.(posting := s.posting - 1, queued := s.queued + 1);
        } else if s.queued > 0 {
          s' := s.(queued := s.queued - 1, phase := Dispatched);
        } else {
          s' := s.(invalid := [], phase := Painting(s.invalid));
        }
      case Dispatched => s' := s.(pending := false, phase := Cleared);
      case Cleared =>
        var (area, w, h) := TakeDirty(s.view, s.size.0, s.size.1);
        s' := s.(view := s.view.(dirty := None), size := (w, h),
                 phase := if area.None? then Idle else Taken(area.value, (w, h) != s.size));
      case Taken(area, resizing) =>
        s' := if resizing then s.(client := s.size, phase := Taken(area, false))
              else s.(invalid := s.invalid + [area], phase := Idle);
      case Painting(clip) => s' := s.(phase := Blitting(clip, s.view.front));
      case Blitting(clip, held) =>
        var painted := (x: int, y: int) =>
          if 0 <= x && 0 <= y && Holds(clip, x, y) then Blitted(held, x, y, s.win(x, y)) else s.win(x, y);
        s' := s.(win := painted, phase := Idle);
    }
  }

  ghost predicate InternalRun(run: seq<Machine>) {
    run != [] && forall k :: 0 <= k < |run| - 1 ==> Internal(run[k], run[k + 1])
  }

  /** Left alone, the window is at rest within `Work(s)` steps, whatever the order. */
  lemma {:induction false} InternalRunsEnd(run: seq<Machine>)
    requires InternalRun(run)
    ensures |run| - 1 + Work(run[|run| - 1]) <= Work(run[0])
  {
    var n := |run| - 1;
    if n > 0 {
      InternalRunsEnd(run[..n]);
      InternalProgress(run[n - 1], run[n]);
    }
  }
}
