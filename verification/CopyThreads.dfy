/**
 * Boot images are copied into guest RAM by several threads, each claiming the
 * next chunk with a fetch-and-add. A step is one atomic action of one thread:
 * a claim, the store of one byte, or the end of a chunk.
 */
module CopyThreads {
  import opened Arith
  import opened Basics
  import opened GuestRam

  const CHUNK: nat := 0x40_0000
  const MAX_THREADS := 8

  datatype Worker =
    | Claiming
    | Writing(from: nat, at: nat, end: nat)
    | Exited

  /** A byte no thread has written yet: not claimed, or waiting in a claimed chunk. */
  ghost predicate Pending(next: nat, workers: seq<Worker>, i: nat) {
    next <= i || exists t :: 0 <= t < |workers| && Holding(workers[t], i)
  }

  ghost predicate Holding(w: Worker, i: nat) { w.Writing? && w.at <= i < w.end }

  /** Claimed chunks are within the image and below `next`, and no two threads share one. */
  ghost predicate Exclusive(next: nat, workers: seq<Worker>, n: nat) {
    (forall t :: 0 <= t < |workers| && workers[t].Writing? ==>
      workers[t].from <= workers[t].at <= workers[t].end && workers[t].end <= n && workers[t].end <= next) &&
    (forall t, u :: 0 <= t < u < |workers| && workers[t].Writing? && workers[u].Writing? ==>
      workers[t].end <= workers[u].from || workers[u].end <= workers[t].from) &&
    (forall t :: 0 <= t < |workers| && workers[t].Exited? ==> n <= next)
  }

  /** Each byte of the image is in place once it is not pending, and has been written once; nothing else changed. */
  ghost predicate Progress(next: nat, workers: seq<Worker>, writes: seq<nat>, now: seq<byte>, before: seq<byte>, off: nat, src: seq<byte>) {
    |writes| == |src| && |now| == |before| && off + |src| <= |now| &&
    (forall i {:trigger writes[i]} {:trigger src[i]} :: 0 <= i < |src| ==>
      if Pending(next, workers, i) then writes[i] == 0 else writes[i] == 1 && now[off + i] == src[i]) &&
    (forall k :: 0 <= k < |now| && !(off <= k < off + |src|) ==> now[k] == before[k])
  }

  // ---- Termination ----

  function Rank(w: Worker): nat
  {
    match w
    case Claiming => 1
    case Writing(_, at, end) => 2 + Max(0, end - at)
    case Exited => 0
  }

  function Work(workers: seq<Worker>): nat {
    if workers == [] then 0 else Rank(workers[0]) + Work(workers[1..])
  }

  lemma {:induction false} WorkUpdate(workers: seq<Worker>, t: nat, w: Worker)
    requires t < |workers|
    ensures Work(workers[t := w]) == Work(workers) - Rank(workers[t]) + Rank(w)
  {
    if t == 0 {
      assert workers[t := w][1..] == workers[1..];
    } else {
      WorkUpdate(workers[1..], t - 1, w);
      assert workers[t := w][1..] == workers[1..][t - 1 := w];
    }
  }

  // ---- What each step keeps ----

  lemma ClaimKeeps(next: nat, workers: seq<Worker>, t: nat, writes: seq<nat>, now: seq<byte>, before: seq<byte>, off: nat, src: seq<byte>)
    requires t < |workers| && workers[t].Claiming? && next < |src|
    requires Exclusive(next, workers, |src|) && Progress(next, workers, writes, now, before, off, src)
    ensures
      var claimed := workers[t := Writing(next, next, Min(next + CHUNK, |src|))];
      Exclusive(next + CHUNK, claimed, |src|) && Progress(next + CHUNK, claimed, writes, now, before, off, src)
  {
    var w := Writing(next, next, Min(next + CHUNK, |src|));
    var claimed := workers[t := w];
    forall i | 0 <= i < |src|
      ensures Pending(next + CHUNK, claimed, i) <==> Pending(next, workers, i)
    {
      assert claimed[t] == w;
      if next <= i < next + CHUNK {
        assert Holding(claimed[t], i);
      } else if u :| 0 <= u < |workers| && Holding(workers[u], i) {
        assert claimed[u] == workers[u];
      }
      assert forall u :: 0 <= u < |claimed| && u != t ==> claimed[u] == workers[u];
    }
  }

  lemma ExitKeeps(next: nat, workers: seq<Worker>, t: nat, writes: seq<nat>, now: seq<byte>, before: seq<byte>, off: nat, src: seq<byte>)
    requires t < |workers| && workers[t].Claiming? && |src| <= next
    requires Exclusive(next, workers, |src|) && Progress(next, workers, writes, now, before, off, src)
    ensures Exclusive(next + CHUNK, workers[t := Exited], |src|)
    ensures Progress(next + CHUNK, workers[t := Exited], writes, now, before, off, src)
  {
    SamePending(next, next + CHUNK, workers, t, Exited, |src|);
  }

  lemma SamePending(next: nat, later: nat, workers: seq<Worker>, t: nat, w: Worker, n: nat)
    requires t < |workers| && next <= later && (next == later || n <= next)
    requires !w.Writing? && (workers[t].Writing? ==> workers[t].end <= workers[t].at)
    ensures forall i :: 0 <= i < n ==> (Pending(later, workers[t := w], i) <==> Pending(next, workers, i))
  {
    var after := workers[t := w];
    forall i | 0 <= i < n
      ensures Pending(later, after, i) <==> Pending(next, workers, i)
    {
      if u :| 0 <= u < |workers| && Holding(workers[u], i) {
        assert after[u] == workers[u];
      }
    }
  }

  lemma DoneKeeps(next: nat, workers: seq<Worker>, t: nat, writes: seq<nat>, now: seq<byte>, before: seq<byte>, off: nat, src: seq<byte>)
    requires t < |workers| && workers[t].Writing? && workers[t].at == workers[t].end
    requires Exclusive(next, workers, |src|) && Progress(next, workers, writes, now, before, off, src)
    ensures Exclusive(next, workers[t := Claiming], |src|)
    ensures Progress(next, workers[t := Claiming], writes, now, before, off, src)
  {
    SamePending(next, next, workers, t, Claiming, |src|);
  }

  lemma StoreKeeps(next: nat, workers: seq<Worker>, t: nat, writes: seq<nat>, now: seq<byte>, before: seq<byte>, off: nat, src: seq<byte>)
    requires t < |workers| && workers[t].Writing? && workers[t].at < workers[t].end
    requires Exclusive(next, workers, |src|) && Progress(next, workers, writes, now, before, off, src)
    ensures
      var i := workers[t].at;
      i < |src| && |writes| == |src| && off + i < |now| && writes[i] == 0 &&
      var moved := workers[t := workers[t].(at := i + 1)];
      Exclusive(next, moved, |src|) && Progress(next, moved, writes[i := 1], now[off + i := src[i]], before, off, src)
  {
    var i := workers[t].at;
    var moved := workers[t := workers[t].(at := i + 1)];
    assert Holding(workers[t], i);
    assert writes[i] == 0;
    forall k | 0 <= k < |src|
      ensures Pending(next, moved, k) <==> Pending(next, workers, k) && k != i
    {
      assert moved[t] == workers[t].(at := i + 1);
      if u :| 0 <= u < |workers| && Holding(workers[u], k) && k != i {
        assert Holding(moved[u], k);
      }
      if u :| 0 <= u < |moved| && Holding(moved[u], k) {
        assert Holding(workers[u], k);
      }
    }
  }

  /** When every thread has exited, the image is in place. */
  lemma AllExited(next: nat, workers: seq<Worker>, writes: seq<nat>, now: seq<byte>, before: seq<byte>, off: nat, src: seq<byte>)
    requires workers != [] && forall t :: 0 <= t < |workers| ==> workers[t].Exited?
    requires Exclusive(next, workers, |src|) && Progress(next, workers, writes, now, before, off, src)
    ensures now == Spliced(before, off, src)
    ensures forall i :: 0 <= i < |src| ==> writes[i] == 1
  {
    assert workers[0].Exited?;
    forall i | 0 <= i < |src|
      ensures writes[i] == 1 && now[off + i] == src[i]
    {
      assert !Pending(next, workers, i);
    }
    var r := Spliced(before, off, src);
    forall k | 0 <= k < |now|
      ensures now[k] == r[k]
    {
      if off <= k < off + |src| {
        assert r[k] == src[k - off] && now[off + (k - off)] == src[k - off];
      }
    }
  }

  /** The copy in progress: the shared counter and flag, and where each thread is. */
  class CopyJob {
    const ram: GuestMemory
    const gpa: nat
    const src: seq<byte>
    var next: nat
    var failed: bool
    var workers: seq<Worker>
    /** How often each byte of the image has been written. */
    ghost var writes: seq<nat>
    ghost const before: seq<byte>

    ghost predicate Valid()
      reads this, ram.store
    {
      ram.Valid() && src != [] && ram.ranges.Offset(gpa, |src|).Some? && !failed &&
      Exclusive(next, workers, |src|) &&
      Progress(next, workers, writes, ram.store[..], before, ram.ranges.Offset(gpa, |src|).value, src)
    }

    constructor (ram: GuestMemory, gpa: nat, src: seq<byte>, threads: nat)
      requires ram.Valid() && src != [] && ram.ranges.Offset(gpa, |src|).Some?
      ensures Valid() && this.ram == ram && this.gpa == gpa && this.src == src && before == ram.store[..]
      ensures workers == seq(threads, _ => Claiming)
    {
      this.ram, this.gpa, this.src := ram, gpa, src;
      next, failed := 0, false;
      workers := seq(threads, _ => Claiming);
      writes := seq(|src|, _ => 0);
      before := ram.store[..];
    }

    /** One action of thread `t`. */
    method Step(t: nat)
      requires Valid() && t < |workers| && !workers[t].Exited?
      modifies this, ram.store
      ensures Valid() && |workers| == |old(workers)|
      ensures forall u :: 0 <= u < |workers| && u != t ==> workers[u] == old(workers)[u]
      ensures Max(0, |src| - next) < Max(0, |src| - old(next)) ||
              (Max(0, |src| - next) == Max(0, |src| - old(next)) && Work(workers) < Work(old(workers)))
    {
      hide Progress, Exclusive, Work;
      ghost var off := ram.ranges.Offset(gpa, |src|).value;
      if workers[t].Claiming? {
        Claim(t);
      } else if workers[t].at < workers[t].end {
        var i := workers[t].at;
        StoreKeeps(next, workers, t, writes, ram.store[..], before, off, src);
        WorkUpdate(workers, t, workers[t].(at := i + 1));
        var first := ram.ranges.Offset(gpa, |src|).value;
        ghost var image := ram.store[..];
        ram.store[first + i] := src[i];
        assert ram.store[..] == image[off + i := src[i]];
        workers := workers[t := workers[t].(at := i + 1)];
        writes := writes[i := writes[i] + 1];
      } else {
        assert workers[t].at == workers[t].end by { AtMostEnd(next, workers, |src|, t); }
        DoneKeeps(next, workers, t, writes, ram.store[..], before, off, src);
        WorkUpdate(workers, t, Claiming);
        workers := workers[t := Claiming];
      }
    }

    /** The fetch-and-add, and the bounds check of the write it leads to. */
    method Claim(t: nat)
      requires Valid() && t < |workers| && workers[t].Claiming?
      modifies this
      ensures Valid() && |workers| == |old(workers)| && next == old(next) + CHUNK
      ensures forall u :: 0 <= u < |workers| && u != t ==> workers[u] == old(workers)[u]
      ensures old(next) >= |src| ==> Work(workers) < Work(old(workers))
    {
      hide Progress, Exclusive, Work;
      ghost var off := ram.ranges.Offset(gpa, |src|).value;
      var offset := next;
      if offset >= |src| {
        ExitKeeps(next, workers, t, writes, ram.store[..], before, off, src);
        WorkUpdate(workers, t, Exited);
        next := next + CHUNK;
        workers := workers[t := Exited];
        return;
      }
      ClaimKeeps(next, workers, t, writes, ram.store[..], before, off, src);
      next := next + CHUNK;
      var end := Min(offset + CHUNK, |src|);
      SubRange(ram.ranges, gpa, |src|, offset, end - offset);
      if ram.ranges.Offset(gpa + offset, end - offset).Some? {
        workers := workers[t := Writing(offset, offset, end)];
      } else {
        failed := true;
      }
    }
  }

  lemma AtMostEnd(next: nat, workers: seq<Worker>, n: nat, t: nat)
    requires Exclusive(next, workers, n) && t < |workers| && workers[t].Writing?
    ensures workers[t].at <= workers[t].end
  {
  }

  function DivCeil(a: nat, b: nat): nat
    requires b > 0
  {
    (a + b - 1) / b
  }

  /**
   * Copy an image into guest RAM. The scheduler picks any thread that has not
   * exited, so what is proved holds in every interleaving.
   */
  method CopyToGuest(ram: GuestMemory, gpa: nat, src: seq<byte>, parallelism: nat) returns (ok: bool)
    requires ram.Valid()
    modifies ram.store
    ensures ok <==> src == [] || ram.ranges.Offset(gpa, |src|).Some?
    ensures ram.store[..] ==
      if ok && src != [] then Spliced(old(ram.store[..]), ram.ranges.Offset(gpa, |src|).value, src) else old(ram.store[..])
  {
    var threads := Min(Min(parallelism, MAX_THREADS), DivCeil(|src|, CHUNK));
    if threads <= 1 {
      ok := ram.WriteAt(gpa, src);
      return;
    }
    assert src != [];
    if ram.ranges.Offset(gpa, |src|).None? {
      return false;
    }
    var job := new CopyJob(ram, gpa, src, threads);
    while exists t :: 0 <= t < |job.workers| && !job.workers[t].Exited?
      invariant job.Valid() && job.ram == ram && job.gpa == gpa && job.src == src && |job.workers| == threads
      invariant job.before == old(ram.store[..])
      decreases Max(0, |src| - job.next), Work(job.workers)
    {
      var t: nat :| t < |job.workers| && !job.workers[t].Exited?;
      job.Step(t);
    }
    ok := !job.failed;
    AllExited(job.next, job.workers, job.writes, ram.store[..], job.before, ram.ranges.Offset(gpa, |src|).value, src);
  }
}
