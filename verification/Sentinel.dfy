/** The console observer that stops the VM when the guest prints the shutdown marker. */
module Sentinel {
  import opened Basics

  type Bytes = seq<byte>

  predicate At(w: Bytes, s: Bytes, i: int) { 0 <= i && i + |w| <= |s| && s[i..i + |w|] == w }

  predicate Occurs(w: Bytes, s: Bytes) { exists i :: 0 <= i < |s| + 1 && At(w, s, i) }

  /** The last `n` bytes, or all when there are fewer. */
  function Tail(s: Bytes, n: nat): (r: Bytes)
    ensures |r| == Min(|s|, n)
  {
    if |s| > n then s[|s| - n..] else s
  }

  function Concat(chunks: seq<Bytes>): Bytes {
    if chunks == [] then [] else Concat(chunks[..|chunks| - 1]) + chunks[|chunks| - 1]
  }

  lemma TailOfTail(s: Bytes, b: Bytes, n: nat)
    ensures Tail(Tail(s, n) + b, n) == Tail(s + b, n)
  {
  }

  /** More output never takes an occurrence away. */
  lemma StillOccurs(w: Bytes, s: Bytes, b: Bytes)
    requires Occurs(w, s)
    ensures Occurs(w, s + b)
  {
    var i :| 0 <= i < |s| + 1 && At(w, s, i);
    assert (s + b)[i..i + |w|] == w;
    assert At(w, s + b, i);
  }

  lemma Shift(w: Bytes, s: Bytes, b: Bytes, n: nat, i: int)
    requires |w| <= n && |s| > n && 0 <= i
    ensures At(w, Tail(s, n) + b, i) <==> At(w, s + b, i + (|s| - n))
  {
    var t, u, k := Tail(s, n) + b, s + b, |s| - n;
    assert t == u[k..];
    if i + |w| <= |t| {
      assert t[i..i + |w|] == u[i + k..i + k + |w|];
    }
  }

  /** A sentinel-length tail of a stream without the sentinel is all that finding it later takes. */
  lemma TailSuffices(w: Bytes, s: Bytes, b: Bytes)
    requires w != [] && !Occurs(w, s)
    ensures Occurs(w, Tail(s, |w|) + b) <==> Occurs(w, s + b)
  {
    var n := |w|;
    if |s| > n {
      var t, k := Tail(s, n) + b, |s| - n;
      if Occurs(w, t) {
        var i :| 0 <= i < |t| + 1 && At(w, t, i);
        Shift(w, s, b, n, i);
        assert At(w, s + b, i + k);
      }
      if Occurs(w, s + b) {
        var j :| 0 <= j < |s + b| + 1 && At(w, s + b, j);
        if j < k {
          assert s[j..j + n] == (s + b)[j..j + n];
          assert At(w, s, j);
        } else {
          Shift(w, s, b, n, j - k);
          assert At(w, t, j - k);
        }
      }
    }
  }

  class Observer {
    const sentinel: Bytes
    var acc: Bytes
    var fired: bool
    /** Calls of `stop_all`. */
    var stops: nat
    /** Everything the guest has printed. */
    ghost var stream: Bytes

    ghost predicate Valid()
      reads this
    {
      sentinel != [] && (fired <==> Occurs(sentinel, stream)) && stops == (if fired then 1 else 0) &&
      (!fired ==> acc == Tail(stream, |sentinel|))
    }

    constructor (sentinel: Bytes)
      requires sentinel != []
      ensures Valid() && this.sentinel == sentinel && stream == [] && stops == 0
    {
      this.sentinel := sentinel;
      acc, fired, stops, stream := [], false, 0, [];
    }

    /** The guest printed `bytes`. */
    method Observe(bytes: Bytes)
      requires Valid()
      modifies this
      ensures Valid() && stream == old(stream) + bytes
      ensures stops - old(stops) == if Occurs(sentinel, stream) && !Occurs(sentinel, old(stream)) then 1 else 0
      ensures |acc| <= Max(|old(acc)|, |sentinel|)
    {
      hide Occurs;
      ghost var before := stream;
      stream := stream + bytes;
      if fired {
        StillOccurs(sentinel, before, bytes);
        return;
      }
      TailSuffices(sentinel, before, bytes);
      TailOfTail(before, bytes, |sentinel|);
      acc := acc + bytes;
      if Occurs(sentinel, acc) {
        fired := true;
        stops := stops + 1;
      }
      if |acc| > |sentinel| {
        acc := acc[|acc| - |sentinel|..];
      }
    }
  }

  /** The chunk that completes the first occurrence in the whole stream. */
  ghost predicate CompletedBy(w: Bytes, chunks: seq<Bytes>, k: nat) {
    k < |chunks| && Occurs(w, Concat(chunks[..k + 1])) && !Occurs(w, Concat(chunks[..k]))
  }

  /** However the stream is cut into chunks, the VM is stopped once, at the completing chunk, or never. */
  method ObserveAll(sentinel: Bytes, chunks: seq<Bytes>) returns (firings: seq<nat>)
    requires sentinel != []
    ensures |firings| <= 1
    ensures forall k :: k in firings ==> CompletedBy(sentinel, chunks, k)
    ensures firings == [] <==> !Occurs(sentinel, Concat(chunks))
  {
    hide Occurs;
    var observer := new Observer(sentinel);
    firings := [];
    for i := 0 to |chunks|
      invariant observer.Valid() && observer.sentinel == sentinel && observer.stream == Concat(chunks[..i])
      invariant fresh(observer) && |firings| == observer.stops
      invariant forall k :: k in firings ==> CompletedBy(sentinel, chunks, k)
    {
      var stops := observer.stops;
      observer.Observe(chunks[i]);
      assert chunks[..i + 1][..i] == chunks[..i];
      if observer.stops > stops {
        firings := firings + [i];
      }
    }
    assert chunks[..|chunks|] == chunks;
  }
}
