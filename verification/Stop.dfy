/**
 * Stopping the VM when the user asks. Requests, the graceful thread and
 * teardown interleave; a step is one atomic action of one of them.
 */
module Stop {
  import opened Basics

  // ---- Requests, the graceful thread and teardown ----

  /** What a thread does next. */
  datatype Thread =
    /** `start`: about to look at the vCPUs' stop flags. */
    | Asked
    /** About to swap `begun`. */
    | Swapping
    /** The graceful thread: asking the guest, then waiting for it or for its disks. */
    | Waiting
    /** `now`: about to take the lock. */
    | Locking
    /** In `now`, holding the lock. */
    | Deciding
    /** Inside `stop_all`, still holding the lock. */
    | Stopping
    /** Done stopping, about to let go of the lock. */
    | Releasing
    /** `disarm`: about to take the lock; holding it; and having emptied the slot. */
    | Disarming
    | Taking
    | Taken
    | Finished

  predicate HoldsLock(t: Thread) { t.Deciding? || t.Stopping? || t.Releasing? || t.Taking? || t.Taken? }

  datatype Event =
    /** The thread ended because it saw the VM stopping, or after starting the graceful thread. */
    | Noticed(thread: nat)
    | Spawned(thread: nat)
    | StopAllBegins(thread: nat)
    | StopAllEnds(thread: nat)
    | DisarmReturns

  datatype State = State(
    stopping: bool,      // some vCPU's stop flag is set
    begun: bool,
    armed: bool,         // the `stop_all` slot is full
    owner: Option<nat>,  // who holds the slot's lock
    threads: seq<Thread>,
    log: seq<Event>)

  function Move(s: State, t: nat, to: Thread): State
    requires t < |s.threads|
  {
    s.(threads := s.threads[t := to])
  }

  datatype Step =
    /** The user asks, or teardown starts: a new thread of control. */
    | Ask
    /** The user quits at once: `now`, with no request before it. */
    | Quit
    | TearDown
    /** A vCPU stops for reasons of its own. */
    | VcpuStops
    /** Thread `t` goes on; `gaveUp` is whether the graceful thread's patience is over. */
    | Go(t: nat, gaveUp: bool)

  predicate Enabled(s: State, step: Step) {
    match step
    case Go(t, gaveUp) =>
      t < |s.threads| && s.threads[t] != Finished &&
      (s.threads[t].Locking? || s.threads[t].Disarming? ==> s.owner.None?) &&
      (s.threads[t] == Waiting && !gaveUp ==> s.stopping)
    case _ => true
  }

  function Next(s: State, step: Step): State
    requires Enabled(s, step)
  {
    match step
    case Ask => s.(threads := s.threads + [Asked])
    case Quit => s.(threads := s.threads + [Locking])
    case TearDown => s.(threads := s.threads + [Disarming])
    case VcpuStops => s.(stopping := true)
    case Go(t, gaveUp) =>
      match s.threads[t]
      case Asked => if s.stopping then Move(s, t, Finished).(log := s.log + [Noticed(t)]) else Move(s, t, Swapping)
      case Swapping =>
        if s.begun then Move(s, t, Locking)
        else State(s.stopping, true, s.armed, s.owner, s.threads[t := Finished] + [Waiting], s.log + [Spawned(t)])
      case Waiting => if gaveUp then Move(s, t, Locking) else Move(s, t, Finished).(log := s.log + [Noticed(t)])
      case Locking => Move(s, t, Deciding).(owner := Some(t))
      case Deciding =>
        if s.armed then Move(s, t, Stopping).(log := s.log + [StopAllBegins(t)]) else Move(s, t, Releasing)
      case Stopping => Move(s, t, Releasing).(stopping := true, log := s.log + [StopAllEnds(t)])
      case Releasing => Move(s, t, Finished).(owner := None)
      case Disarming => Move(s, t, Taking).(owner := Some(t))
      case Taking => Move(s, t, Taken).(armed := false)
      case Taken => Move(s, t, Finished).(owner := None, log := s.log + [DisarmReturns])
      case Finished => s
  }

  const INITIAL := State(false, false, true, None, [], [])

  /** Where a run leads, if each of its steps could be taken. */
  ghost function After(run: seq<Step>): Option<State> {
    if run == [] then Some(INITIAL)
    else
      var before := After(run[..|run| - 1]);
      if before.Some? && Enabled(before.value, run[|run| - 1]) then Some(Next(before.value, run[|run| - 1])) else None
  }

  // ---- The invariant ----

  /** The lock's owner, and only it, is in a critical section. */
  ghost predicate Exclusive(s: State) {
    (forall t :: 0 <= t < |s.threads| ==> (HoldsLock(s.threads[t]) <==> s.owner == Some(t))) &&
    (s.owner.Some? ==> s.owner.value < |s.threads|)
  }

  /** `stop_all` runs only from a full slot, and a disarm has emptied it. */
  ghost predicate Guarded(s: State) {
    (forall t :: 0 <= t < |s.threads| ==> (s.threads[t] == Stopping ==> s.armed) && (s.threads[t] == Taken ==> !s.armed)) &&
    (forall i :: 0 <= i < |s.log| && s.log[i] == DisarmReturns ==> !s.armed)
  }

  function Spawns(log: seq<Event>): nat {
    if log == [] then 0 else Spawns(log[..|log| - 1]) + (if log[|log| - 1].Spawned? then 1 else 0)
  }

  lemma OneMoreEvent(log: seq<Event>, e: Event)
    ensures Spawns(log + [e]) == Spawns(log) + (if e.Spawned? then 1 else 0)
  {
    assert (log + [e])[..|log|] == log;
  }

  /** Nothing runs `stop_all` once a disarm has returned. */
  ghost predicate QuietAfterDisarm(log: seq<Event>) {
    forall i, j :: 0 <= i < j < |log| && log[i] == DisarmReturns ==> !log[j].StopAllBegins? && !log[j].StopAllEnds?
  }

  ghost predicate Inv(s: State) {
    Exclusive(s) && Guarded(s) && QuietAfterDisarm(s.log) && Spawns(s.log) == (if s.begun then 1 else 0)
  }

  /** Only thread `t` moved, to `to`, and the lock with it. */
  lemma MoveKeepsExclusive(s: State, t: nat, to: Thread, next: State)
    requires Exclusive(s) && t < |s.threads| && next.threads == s.threads[t := to]
    requires next.owner == (if HoldsLock(to) then Some(t) else if HoldsLock(s.threads[t]) then None else s.owner)
    requires HoldsLock(to) && !HoldsLock(s.threads[t]) ==> s.owner.None?
    ensures Exclusive(next)
  {
  }

  lemma NewcomerKeepsExclusive(s: State, to: Thread, next: State)
    requires Exclusive(s) && !HoldsLock(to) && next.threads == s.threads + [to] && next.owner == s.owner
    ensures Exclusive(next)
  {
  }

  lemma NextKeepsExclusive(s: State, step: Step)
    requires Exclusive(s) && Enabled(s, step)
    ensures Exclusive(Next(s, step))
  {
    var next := Next(s, step);
    match step
    case Ask => NewcomerKeepsExclusive(s, Asked, next);
    case Quit => NewcomerKeepsExclusive(s, Locking, next);
    case TearDown => NewcomerKeepsExclusive(s, Disarming, next);
    case VcpuStops =>
    case Go(t, _) => GoKeepsExclusive(s, step, t);
  }

  lemma GoKeepsExclusive(s: State, step: Step, t: nat)
    requires Exclusive(s) && Enabled(s, step) && step.Go? && step.t == t
    ensures Exclusive(Next(s, step))
  {
    assert HoldsLock(s.threads[t]) <==> s.owner == Some(t);
    hide Exclusive;
    var next := Next(s, step);
    if s.threads[t].Swapping? && !s.begun {
      var mid := Move(s, t, Finished);
      MoveKeepsExclusive(s, t, Finished, mid);
      NewcomerKeepsExclusive(mid, Waiting, next);
    } else {
      MoveKeepsExclusive(s, t, next.threads[t], next);
    }
  }

  /** Only thread `t` moved. */
  lemma MoveKeepsGuarded(s: State, t: nat, to: Thread, next: State)
    requires Exclusive(s) && Guarded(s) && t < |s.threads| && next.threads == s.threads[t := to]
    requires next.armed == s.armed || (!next.armed && s.threads[t].Taking? && to.Taken?)
    requires to.Stopping? ==> s.armed
    requires to.Taken? ==> !next.armed
    requires next.log == s.log || (next.log == s.log + [DisarmReturns] && s.threads[t].Taken?) ||
             exists e :: e != DisarmReturns && next.log == s.log + [e]
    ensures Guarded(next)
  {
    assert s.threads[t].Taking? ==> s.owner == Some(t);
  }

  lemma NextKeepsGuarded(s: State, step: Step)
    requires Exclusive(s) && Guarded(s) && Enabled(s, step)
    ensures Guarded(Next(s, step))
  {
    if step.Go? {
      GoKeepsGuarded(s, step, step.t);
    }
  }

  lemma GoKeepsGuarded(s: State, step: Step, t: nat)
    requires Exclusive(s) && Guarded(s) && Enabled(s, step) && step.Go? && step.t == t
    ensures Guarded(Next(s, step))
  {
    assert s.threads[t].Taken? ==> !s.armed;
    var next := Next(s, step);
    if s.threads[t].Swapping? && !s.begun {
      assert Guarded(next);
    } else {
      hide Exclusive, Guarded;
      MoveKeepsGuarded(s, t, next.threads[t], next);
    }
  }

  lemma NextKeepsLog(s: State, step: Step)
    requires Inv(s) && Enabled(s, step)
    ensures QuietAfterDisarm(Next(s, step).log)
    ensures Spawns(Next(s, step).log) == (if Next(s, step).begun then 1 else 0)
  {
    hide Spawns;
    var next := Next(s, step);
    if next.log != s.log {
      assert next.log == s.log + [next.log[|s.log|]];
      OneMoreEvent(s.log, next.log[|s.log|]);
    }
  }

  lemma {:induction false} RunKeeps(run: seq<Step>)
    requires After(run).Some?
    ensures Inv(After(run).value)
  {
    if run != [] {
      var before, step := After(run[..|run| - 1]).value, run[|run| - 1];
      hide Next, Exclusive, Guarded, Spawns, QuietAfterDisarm;
      RunKeeps(run[..|run| - 1]);
      NextKeepsExclusive(before, step);
      NextKeepsGuarded(before, step);
      NextKeepsLog(before, step);
    }
  }

  /** In every interleaving: one graceful thread at most, and no `stop_all` after a disarm has returned. */
  lemma StopsAreSafe(run: seq<Step>)
    requires After(run).Some?
    ensures Spawns(After(run).value.log) <= 1 && QuietAfterDisarm(After(run).value.log)
  {
    RunKeeps(run);
  }

  /** And none is still running when it returns. */
  lemma NoneRunsAtDisarm(run: seq<Step>, t: nat)
    requires After(run).Some? && t < |After(run).value.threads| && After(run).value.threads[t] == Taken
    ensures forall u :: 0 <= u < |After(run).value.threads| ==> After(run).value.threads[u] != Stopping
  {
    RunKeeps(run);
  }

  /** While a thread has yet to finish, some thread can go on. */
  lemma NeverStuck(run: seq<Step>, t: nat)
    requires After(run).Some? && t < |After(run).value.threads| && After(run).value.threads[t] != Finished
    ensures exists u: nat :: Enabled(After(run).value, Go(u, true))
  {
    var s := After(run).value;
    RunKeeps(run);
    if s.owner.Some? {
      assert Enabled(s, Go(s.owner.value, true));
    } else {
      assert Enabled(s, Go(t, true));
    }
  }

  // ---- What a thread still has to do ----

  function Left(t: Thread): nat {
    match t
    case Asked => 7
    case Swapping => 6
    case Waiting => 5
    case Locking => 4
    case Deciding => 3
    case Stopping => 2
    case Releasing => 1
    case Disarming => 3
    case Taking => 2
    case Taken => 1
    case Finished => 0
  }

  function Work(threads: seq<Thread>): nat {
    if threads == [] then 0 else Work(threads[..|threads| - 1]) + Left(threads[|threads| - 1])
  }

  lemma {:induction false} WorkUpdate(threads: seq<Thread>, t: nat, to: Thread)
    requires t < |threads|
    ensures Work(threads[t := to]) == Work(threads) - Left(threads[t]) + Left(to)
  {
    var n := |threads| - 1;
    if t < n {
      WorkUpdate(threads[..n], t, to);
      assert threads[t := to][..n] == threads[..n][t := to];
    } else {
      assert threads[t := to][..n] == threads[..n];
    }
  }

  /** Left alone, the threads finish: every step of one leaves less to do. */
  lemma GoMakesProgress(s: State, t: nat, gaveUp: bool)
    requires Enabled(s, Go(t, gaveUp))
    ensures Work(Next(s, Go(t, gaveUp)).threads) < Work(s.threads)
  {
    hide Work;
    var next := Next(s, Go(t, gaveUp));
    WorkUpdate(s.threads, t, next.threads[t]);
    if |next.threads| > |s.threads| {
      Appended(s.threads[t := Finished], Waiting);
    } else {
      assert next.threads == s.threads[t := next.threads[t]];
    }
  }

  lemma Appended(threads: seq<Thread>, t: Thread)
    ensures Work(threads + [t]) == Work(threads) + Left(t)
  {
    assert (threads + [t])[..|threads|] == threads;
  }

  // ---- What became of each thread ----

  /**
   * A thread leaving `now` has run `stop_all`, or found the slot emptied; one
   * that is done did that, saw the VM stopping, or started the graceful thread.
   */
  ghost predicate Served(s: State, t: nat) {
    t < |s.threads| &&
    (s.threads[t].Stopping? ==> StopAllBegins(t) in s.log) &&
    (s.threads[t].Releasing? ==> StopAllEnds(t) in s.log || !s.armed) &&
    (s.threads[t].Finished? ==> Noticed(t) in s.log || Spawned(t) in s.log || StopAllEnds(t) in s.log || !s.armed)
  }

  /** What the log says has happened. */
  ghost predicate LogIsTrue(s: State) {
    (forall e :: e in s.log && (e.Noticed? || e.StopAllEnds?) ==> s.stopping) &&
    (forall e :: e in s.log && e.Spawned? ==> s.begun)
  }

  lemma NextKeepsServed(s: State, step: Step, t: nat)
    requires Enabled(s, step) && t < |Next(s, step).threads|
    requires Inv(s) && (t < |s.threads| ==> Served(s, t))
    ensures Served(Next(s, step), t)
  {
    hide Spawns, QuietAfterDisarm, Exclusive;
    if step.Go? && t < |s.threads| {
      if step.t == t {
        OwnServed(s, step, t);
      } else {
        OthersServed(s, step, t);
      }
    }
  }

  lemma OwnServed(s: State, step: Step, t: nat)
    requires Enabled(s, step) && step.Go? && step.t == t && Guarded(s) && Served(s, t)
    ensures Served(Next(s, step), t)
  {
  }

  lemma OthersServed(s: State, step: Step, t: nat)
    requires Enabled(s, step) && step.Go? && step.t != t && Served(s, t)
    ensures Served(Next(s, step), t)
  {
  }

  lemma {:induction false} EveryThreadServed(run: seq<Step>, t: nat)
    requires After(run).Some? && t < |After(run).value.threads|
    ensures Served(After(run).value, t)
  {
    if run != [] {
      var before, step := After(run[..|run| - 1]).value, run[|run| - 1];
      hide Inv, Served, Next;
      RunKeeps(run[..|run| - 1]);
      if t < |before.threads| {
        EveryThreadServed(run[..|run| - 1], t);
      }
      NextKeepsServed(before, step, t);
    }
  }

  lemma {:induction false} LogTellsTruth(run: seq<Step>)
    requires After(run).Some?
    ensures LogIsTrue(After(run).value)
  {
    if run != [] {
      var before, step := After(run[..|run| - 1]).value, run[|run| - 1];
      LogTellsTruth(run[..|run| - 1]);
      NextTellsTruth(before, step);
    }
  }

  lemma NextTellsTruth(s: State, step: Step)
    requires LogIsTrue(s) && Enabled(s, step)
    ensures LogIsTrue(Next(s, step))
  {
    var next := Next(s, step);
    if next.log != s.log {
      var e := next.log[|s.log|];
      assert next.log == s.log + [e];
      assert (s.stopping ==> next.stopping) && (s.begun ==> next.begun);
      assert (e.Noticed? || e.StopAllEnds? ==> next.stopping) && (e.Spawned? ==> next.begun);
      hide Next, Enabled;
      LogGrows(s, e, next);
    }
  }

  lemma LogGrows(s: State, e: Event, next: State)
    requires LogIsTrue(s) && next.log == s.log + [e] && (s.stopping ==> next.stopping) && (s.begun ==> next.begun)
    requires (e.Noticed? || e.StopAllEnds? ==> next.stopping) && (e.Spawned? ==> next.begun)
    ensures LogIsTrue(next)
  {
  }

  // ---- A request does stop the VM ----

  /** A thread on its way to stopping the VM, or to starting one that will. */
  predicate Owes(t: Thread) { t.Asked? || t.Swapping? || t.Waiting? || t.Locking? || t.Deciding? || t.Stopping? }

  ghost predicate Pursued(s: State) { s.stopping || exists t :: 0 <= t < |s.threads| && Owes(s.threads[t]) }

  predicate Disarms(t: Thread) { t.Disarming? || t.Taking? || t.Taken? }

  ghost predicate NoTearDown(s: State) { s.armed && forall t :: 0 <= t < |s.threads| ==> !Disarms(s.threads[t]) }

  lemma NextPursues(s: State, step: Step)
    requires NoTearDown(s) && Enabled(s, step) && step != TearDown
    ensures NoTearDown(Next(s, step))
    ensures Pursued(s) || step == Ask || step == Quit ==> Pursued(Next(s, step))
  {
    if step.Go? {
      GoPursues(s, step, step.t);
    } else {
      NewcomerPursues(s, step);
    }
  }

  lemma NewcomerPursues(s: State, step: Step)
    requires NoTearDown(s) && Enabled(s, step) && step != TearDown && !step.Go?
    ensures NoTearDown(Next(s, step))
    ensures Pursued(s) || step == Ask || step == Quit ==> Pursued(Next(s, step))
  {
    var next := Next(s, step);
    if step.Ask? || step.Quit? {
      assert Owes(next.threads[|s.threads|]);
    }
  }

  lemma GoPursues(s: State, step: Step, t: nat)
    requires NoTearDown(s) && Enabled(s, step) && step.Go? && step.t == t
    ensures NoTearDown(Next(s, step))
    ensures Pursued(s) ==> Pursued(Next(s, step))
  {
    assert !Disarms(s.threads[t]);
    var next := Next(s, step);
    assert forall u :: 0 <= u < |s.threads| && u != t ==> next.threads[u] == s.threads[u];
    if Pursued(s) && !s.stopping {
      var u :| 0 <= u < |s.threads| && Owes(s.threads[u]);
      if u != t {
        assert Owes(next.threads[u]);
      } else if s.threads[t].Swapping? && !s.begun {
        assert Owes(next.threads[|s.threads|]);
      } else {
        assert next.stopping || Owes(next.threads[t]);
      }
    }
  }

  lemma {:induction false} RunPursues(run: seq<Step>)
    requires After(run).Some? && TearDown !in run
    ensures NoTearDown(After(run).value)
    ensures Ask in run || Quit in run ==> Pursued(After(run).value)
  {
    if run != [] {
      var rest, step := run[..|run| - 1], run[|run| - 1];
      assert run == rest + [step];
      hide Next, Pursued, NoTearDown;
      RunPursues(rest);
      NextPursues(After(rest).value, step);
    } else {
      assert NoTearDown(INITIAL);
    }
  }

  /** Unless teardown comes first, asking or quitting stops the VM by the time every thread is done. */
  lemma RequestsStop(run: seq<Step>)
    requires After(run).Some? && TearDown !in run && (Ask in run || Quit in run)
    requires forall t :: 0 <= t < |After(run).value.threads| ==> After(run).value.threads[t] == Finished
    ensures After(run).value.stopping
  {
    RunPursues(run);
  }

  // ---- Teardown does disarm, and asking again does not wait ----

  ghost predicate Disarmed(s: State) { !s.armed || exists t :: 0 <= t < |s.threads| && (s.threads[t].Disarming? || s.threads[t].Taking?) }

  /** The other threads stay where they are, and teardown's own goes on until the slot is empty. */
  lemma DisarmStays(s: State, u: nat, next: State)
    requires u < |s.threads| <= |next.threads| && (s.threads[u].Disarming? || s.threads[u].Taking?)
    requires next.threads[u] == s.threads[u] || !next.armed || next.threads[u].Taking?
    ensures Disarmed(next)
  {
  }

  lemma NextDisarms(s: State, step: Step)
    requires Enabled(s, step)
    ensures Disarmed(s) || step == TearDown ==> Disarmed(Next(s, step))
  {
    var next := Next(s, step);
    if step.TearDown? {
      assert next.threads[|s.threads|].Disarming?;
    } else if !s.armed {
      assert !next.armed;
    } else if u: nat :| u < |s.threads| && (s.threads[u].Disarming? || s.threads[u].Taking?) {
      GoDisarms(s, step, u);
      hide Next;
      DisarmStays(s, u, next);
    }
  }

  lemma GoDisarms(s: State, step: Step, u: nat)
    requires Enabled(s, step) && u < |s.threads| && (s.threads[u].Disarming? || s.threads[u].Taking?)
    ensures |s.threads| <= |Next(s, step).threads|
    ensures Next(s, step).threads[u] == s.threads[u] || !Next(s, step).armed || Next(s, step).threads[u].Taking?
  {
  }

  lemma {:induction false} TearDownDisarms(run: seq<Step>)
    requires After(run).Some? && TearDown in run
    ensures Disarmed(After(run).value)
  {
    var rest, step := run[..|run| - 1], run[|run| - 1];
    assert run == rest + [step];
    hide Next, Disarmed;
    if TearDown in rest {
      TearDownDisarms(rest);
    }
    NextDisarms(After(rest).value, step);
  }

  /** Only the graceful thread waits, and there is one at most. */
  ghost predicate OneWaits(s: State) {
    forall t, u :: 0 <= t < |s.threads| && 0 <= u < |s.threads| && s.threads[t].Waiting? && s.threads[u].Waiting? ==> t == u
  }

  ghost predicate WaitsOnlyBegun(s: State) { OneWaits(s) && forall t :: 0 <= t < |s.threads| && s.threads[t].Waiting? ==> s.begun }

  lemma MoveWaits(s: State, t: nat, to: Thread, next: State)
    requires WaitsOnlyBegun(s) && t < |s.threads| && next.threads == s.threads[t := to] && (s.begun ==> next.begun) && !to.Waiting?
    ensures WaitsOnlyBegun(next)
  {
  }

  lemma NewcomerWaits(s: State, to: Thread, next: State)
    requires WaitsOnlyBegun(s) && next.threads == s.threads + [to] && (to.Waiting? ==> next.begun)
    requires if to.Waiting? then forall t :: 0 <= t < |s.threads| ==> !s.threads[t].Waiting? else s.begun ==> next.begun
    ensures WaitsOnlyBegun(next)
  {
  }

  lemma NextWaits(s: State, step: Step)
    requires WaitsOnlyBegun(s) && Enabled(s, step)
    ensures WaitsOnlyBegun(Next(s, step))
  {
    var next := Next(s, step);
    match step
    case Ask => NewcomerWaits(s, Asked, next);
    case Quit => NewcomerWaits(s, Locking, next);
    case TearDown => NewcomerWaits(s, Disarming, next);
    case VcpuStops =>
    case Go(t, _) => GoWaits(s, step, t);
  }

  lemma GoWaits(s: State, step: Step, t: nat)
    requires WaitsOnlyBegun(s) && Enabled(s, step) && step.Go? && step.t == t
    ensures WaitsOnlyBegun(Next(s, step))
  {
    var next := Next(s, step);
    if s.threads[t].Swapping? && !s.begun {
      var mid := Move(s, t, Finished);
      MoveWaits(s, t, Finished, mid);
      NewcomerWaits(mid, Waiting, next);
    } else {
      hide WaitsOnlyBegun;
      MoveWaits(s, t, next.threads[t], next);
    }
  }

  /** So a second request is never kept waiting: it goes through `now`. */
  lemma {:induction false} RequestsDoNotWait(run: seq<Step>)
    requires After(run).Some?
    ensures WaitsOnlyBegun(After(run).value)
  {
    if run != [] {
      hide Next, WaitsOnlyBegun;
      RequestsDoNotWait(run[..|run| - 1]);
      NextWaits(After(run[..|run| - 1]).value, run[|run| - 1]);
    } else {
      assert WaitsOnlyBegun(INITIAL);
    }
  }

  // ---- Waiting for the disks ----

  const MIN_WAIT := 500
  const QUIET := 1000
  const MAX_WAIT := 15000
  const POLL := 50

  /** Sample `k` saw a write since the one before it, or a request in flight. */
  ghost predicate Active(writes: nat -> nat, busy: nat -> bool, k: nat) { k > 0 && (writes(k) != writes(k - 1) || busy(k)) }

  /** Times in milliseconds; sample 0 is the start. Sleeping takes at least as long as asked. */
  ghost predicate Ticking(clock: nat -> nat) { forall k: nat :: clock(k) + POLL <= clock(k + 1) }

  /** At sample `n` there has been no activity for a second, and none since less than a second from the start. */
  ghost predicate Settled(clock: nat -> nat, writes: nat -> nat, busy: nat -> bool, n: nat) {
    clock(n) - clock(0) >= QUIET &&
    forall k: nat :: k <= n && Active(writes, busy, k) ==> clock(n) - clock(k) >= QUIET
  }

  lemma {:induction false} TicksAddUp(clock: nat -> nat, n: nat)
    requires Ticking(clock)
    ensures clock(n) >= clock(0) + POLL * n
  {
    if n > 0 {
      TicksAddUp(clock, n - 1);
      assert clock(n - 1) + POLL <= clock(n - 1 + 1);
    }
  }

  lemma {:induction false} ClockIsMonotone(clock: nat -> nat, a: nat, b: nat)
    requires Ticking(clock) && a <= b
    ensures clock(a) <= clock(b)
  {
    if a < b {
      ClockIsMonotone(clock, a, b - 1);
      assert clock(b - 1) + POLL <= clock(b - 1 + 1);
    }
  }

  /** The wait ends at the first sample where the disks have settled, or where the 15 s are over. */
  method WaitForDisks(clock: nat -> nat, writes: nat -> nat, busy: nat -> bool) returns (n: nat)
    requires Ticking(clock)
    ensures 1 <= n <= MAX_WAIT / POLL
    ensures clock(n) - clock(0) >= MAX_WAIT || Settled(clock, writes, busy, n)
    ensures forall m: nat :: 1 <= m < n ==> clock(m) - clock(0) < MAX_WAIT && !Settled(clock, writes, busy, m)
  {
    hide Settled;
    var start, last, quietSince := clock(0), writes(0), clock(0);
    n := 0;
    ghost var q := 0;
    while true
      invariant last == writes(n) && q <= n && quietSince == clock(q)
      invariant q == 0 || Active(writes, busy, q)
      invariant forall k: nat :: q < k <= n ==> !Active(writes, busy, k)
      invariant forall m: nat :: 1 <= m <= n ==> clock(m) - clock(0) < MAX_WAIT && !Settled(clock, writes, busy, m)
      invariant n < MAX_WAIT / POLL
      decreases MAX_WAIT / POLL - n
    {
      TicksAddUp(clock, n);
      n := n + 1;
      TicksAddUp(clock, n);
      var now, w := clock(n), writes(n);
      if w != last || busy(n) {
        last, quietSince := w, now;
        q := n;
      }
      var waited := now - start;
      QuietIsSettled(clock, writes, busy, q, n);
      ClockIsMonotone(clock, 0, q);
      if waited >= MAX_WAIT || (waited >= MIN_WAIT && now - quietSince >= QUIET) {
        return;
      }
    }
  }

  /** With `q` the last activity, a quiet second since then is what settles the disks. */
  lemma QuietIsSettled(clock: nat -> nat, writes: nat -> nat, busy: nat -> bool, q: nat, n: nat)
    requires Ticking(clock) && q <= n && (q == 0 || Active(writes, busy, q))
    requires forall k: nat :: q < k <= n ==> !Active(writes, busy, k)
    ensures clock(n) - clock(q) >= QUIET <==> Settled(clock, writes, busy, n)
  {
    ClockIsMonotone(clock, 0, q);
    if clock(n) - clock(q) >= QUIET {
      forall k: nat | k <= n && Active(writes, busy, k)
        ensures clock(n) - clock(k) >= QUIET
      {
        ClockIsMonotone(clock, k, q);
      }
    }
  }
}
