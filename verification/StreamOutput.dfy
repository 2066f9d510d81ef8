/** The write side of the stream transport: a queue of byte buffers with a parallel iovec array,
    partial writes, the loop that removes written bytes, and the write event loop. */
module StreamOutput {
  import opened ByteBuffers
  import opened ManagerResult

  // A queued vector. `data` are its elements; `stale` are the bytes that lie behind its end but still
  // inside the memory its iovec describes: erasing at the front moves elements down and leaves the iovec alone.
  datatype Buf = Buf(data: Bytes, stale: Bytes) {
    function Memory(): Bytes {
      data + stale
    }
  }

  datatype WriteResult = Accepted(count: nat) | WouldBlock | Failed

  datatype Limits = Limits(maxFetches: nat, maxWrites: nat, maxEnqueuedBytes: nat)

  // The transport together with its next layer: each element of `app` holds the chunks that one call
  // of produce enqueues. `sent` and `offered` record the bytes the socket took and the bytes enqueued so far.
  datatype Out = Out(
    queue: seq<Buf>, iovecs: seq<nat>, enqueued: nat, cache: seq<Bytes>, writing: bool,
    app: seq<seq<Bytes>>, sent: Bytes, offered: Bytes)

  function Data(q: seq<Buf>): Bytes {
    if q == [] then [] else q[0].data + Data(q[1..])
  }

  // What the kernel finds when it follows the iovecs.
  function View(q: seq<Buf>): Bytes {
    if q == [] then [] else q[0].Memory() + View(q[1..])
  }

  // -- Removing written bytes -------------------------------------------------

  function Erased(b: Buf, n: nat): Buf
    requires n <= |b.data|
  {
    Buf(b.data[n..], b.data[|b.data| - n..] + b.stale)
  }

  // The loop over the write queue: the trimmed buffers and how many were found empty.
  function Trim(q: seq<Buf>, n: nat): (r: (seq<Buf>, nat))
    requires n > 0
    ensures |r.0| == |q| && r.1 <= |q|
  {
    if q == [] then ([], 0)
    else if |q[0].data| <= n then
      var m := n - |q[0].data|;
      var rest := if m == 0 then (q[1..], 0) else Trim(q[1..], m);
      ([Erased(q[0], |q[0].data|)] + rest.0, 1 + rest.1)
    else
      var rest := Trim(q[1..], n);
      ([Erased(q[0], n)] + rest.0, rest.1)
  }

  function Empties(q: seq<Buf>, n: nat): (e: nat)
    ensures e <= |q|
  {
    if n == 0 then 0 else Trim(q, n).1
  }

  function Removed(q: seq<Buf>, n: nat): seq<Buf> {
    if n == 0 then q else Trim(q, n).0[Trim(q, n).1..]
  }

  // return_buffer, called `count` times with an empty buffer: a cache with room for `limit` buffers.
  function Recycled(cache: seq<Bytes>, count: nat, limit: nat): seq<Bytes> {
    cache + seq(if |cache| < limit then Min(count, limit - |cache|) else 0, _ => [])
  }

  // The write stopped exactly between two buffers.
  predicate OnBoundary(q: seq<Buf>, n: nat) {
    exists k :: 0 <= k <= |q| && |Data(q[..k])| == n
  }

  // The write stopped inside the last buffer.
  predicate InLast(q: seq<Buf>, n: nat) {
    |q| > 0 && |Data(q[..|q| - 1])| < n < |Data(q)|
  }

  lemma {:induction false} DataAppend(a: seq<Buf>, b: seq<Buf>)
    ensures Data(a + b) == Data(a) + Data(b)
    ensures View(a + b) == View(a) + View(b)
  {
    if a == [] {
      assert a + b == b;
    } else {
      assert (a + b)[1..] == a[1..] + b;
      DataAppend(a[1..], b);
      Regrouped(a[0].data, Data(a[1..]), Data(b));
      Regrouped(a[0].Memory(), View(a[1..]), View(b));
    }
  }

  lemma Regrouped(a: Bytes, b: Bytes, c: Bytes)
    ensures a + (b + c) == a + b + c
  {
  }

  lemma DataSplit(q: seq<Buf>, k: nat)
    requires k <= |q|
    ensures Data(q) == Data(q[..k]) + Data(q[k..])
    ensures View(q) == View(q[..k]) + View(q[k..])
  {
    assert q == q[..k] + q[k..];
    DataAppend(q[..k], q[k..]);
  }

  lemma BoundaryTail(q: seq<Buf>, n: nat)
    requires q != []
    ensures |q[0].data| <= n && OnBoundary(q[1..], n - |q[0].data|) ==> OnBoundary(q, n)
    ensures n > 0 && OnBoundary(q, n) ==> |q[0].data| <= n && OnBoundary(q[1..], n - |q[0].data|)
  {
    if |q[0].data| <= n && OnBoundary(q[1..], n - |q[0].data|) {
      var k :| 0 <= k <= |q[1..]| && |Data(q[1..][..k])| == n - |q[0].data|;
      assert q[..k + 1][1..] == q[1..][..k];
      assert |Data(q[..k + 1])| == n;
    }
    if n > 0 && OnBoundary(q, n) {
      var k :| 0 <= k <= |q| && |Data(q[..k])| == n;
      assert q[..k][1..] == q[1..][..k - 1];
      assert |Data(q[1..][..k - 1])| == n - |q[0].data|;
    }
  }

  lemma InLastTail(q: seq<Buf>, n: nat)
    requires |q| > 1 && |q[0].data| <= n
    ensures InLast(q, n) <==> InLast(q[1..], n - |q[0].data|)
  {
    assert q[..|q| - 1][1..] == q[1..][..|q| - 2];
  }

  lemma TrivialStops(q: seq<Buf>, n: nat)
    ensures n == 0 || n == |Data(q)| ==> OnBoundary(q, n)
    ensures |q| == 1 && 0 < n < |Data(q)| ==> InLast(q, n)
  {
    assert q[..0] == [] && q[..|q|] == q;
    assert |Data(q[..0])| == 0 && |Data(q[..|q|])| == |Data(q)|;
  }

  lemma {:induction false} RemovedOnBoundary(q: seq<Buf>, n: nat)
    requires OnBoundary(q, n)
    ensures Empties(q, n) <= |q| && Removed(q, n) == q[Empties(q, n)..]
    ensures |Data(q[..Empties(q, n)])| == n
  {
    if n > 0 {
      var k :| 0 <= k <= |q| && |Data(q[..k])| == n;
      assert k > 0;
      BoundaryTail(q, n);
      var m := n - |q[0].data|;
      RemovedOnBoundary(q[1..], m);
      var e := Empties(q, n);
      assert e == 1 + Empties(q[1..], m);
      assert q[..e][1..] == q[1..][..e - 1];
      assert Removed(q, n) == Removed(q[1..], m);
    }
  }

  // The last buffer alone is cut, and keeps what was cut off behind its end.
  lemma RemovedFromOne(b: Buf, n: nat)
    requires 0 < n < |b.data|
    ensures Trim([b], n) == ([Erased(b, n)], 0)
    ensures Removed([b], n) == [Erased(b, n)] && Empties([b], n) == 0
    ensures Data([b]) == b.data && Data([Erased(b, n)]) == b.data[n..]
  {
    assert [b][1..] == [];
    assert Trim([b][1..], n) == ([], 0);
    assert [Erased(b, n)] + [] == [Erased(b, n)];
    assert Trim([b], n).0[0..] == [Erased(b, n)];
    assert Data([b]) == b.data + [] && Data([Erased(b, n)]) == b.data[n..] + [];
  }

  lemma {:induction false} RemovedInLast(q: seq<Buf>, n: nat)
    requires InLast(q, n)
    ensures n > 0 && Empties(q, n) == |q| - 1
    ensures Data(Removed(q, n)) == Data(q)[n..]
    ensures |Removed(q, n)| == 1 && Removed(q, n)[0].stale != []
  {
    if |q| == 1 {
      assert q == [q[0]] && q[..0] == [];
      RemovedFromOne(q[0], n);
    } else {
      assert q[..|q| - 1][1..] == q[1..][..|q| - 2];
      InLastTail(q, n);
      var m := n - |q[0].data|;
      RemovedInLast(q[1..], m);
      RemovedBehind(q, n);
    }
  }

  // Buffers that were written whole are dropped.
  lemma RemovedBehind(q: seq<Buf>, n: nat)
    requires q != [] && |q[0].data| < n <= |Data(q)|
    ensures var m := n - |q[0].data|;
            && Empties(q, n) == 1 + Empties(q[1..], m)
            && Removed(q, n) == Removed(q[1..], m)
            && Data(q)[n..] == Data(q[1..])[m..]
  {
    var m := n - |q[0].data|;
    var rest := Trim(q[1..], m);
    assert Trim(q, n) == ([Erased(q[0], |q[0].data|)] + rest.0, 1 + rest.1);
    Behind([Erased(q[0], |q[0].data|)], rest.0, rest.1);
    Behind(q[0].data, Data(q[1..]), m);
    hide Trim, Data, Erased;
  }

  lemma Behind<T>(a: seq<T>, b: seq<T>, k: nat)
    requires k <= |b|
    ensures (a + b)[|a| + k..] == b[k..]
  {
  }

  lemma {:induction false} TrimShrinks(q: seq<Buf>, n: nat)
    requires n > 0
    ensures |Data(Trim(q, n).0)| <= |Data(q)|
    ensures q != [] ==> Trim(q, n).1 > 0 || |Data(Trim(q, n).0)| < |Data(q)|
  {
    if q != [] {
      var t := Trim(q, n).0;
      if |q[0].data| <= n {
        var m := n - |q[0].data|;
        if m == 0 {
          assert t[1..] == q[1..];
        } else {
          TrimShrinks(q[1..], m);
          assert t[1..] == Trim(q[1..], m).0;
        }
      } else {
        TrimShrinks(q[1..], n);
        assert t[1..] == Trim(q[1..], n).0;
      }
    }
  }

  // Away from a boundary and from the last buffer the loop always drops bytes that were never written.
  lemma {:induction false} RemovedElsewhere(q: seq<Buf>, n: nat)
    requires 0 < n < |Data(q)| && !OnBoundary(q, n) && !InLast(q, n)
    ensures |Data(Removed(q, n))| < |Data(q)| - n
  {
    BoundaryTail(q, n);
    var t := Trim(q, n).0;
    var e := Trim(q, n).1;
    TrivialStops(q, n);
    if |q| == 1 {
    } else if |q[0].data| <= n {
      var m := n - |q[0].data|;
      TrivialStops(q[1..], m);
      InLastTail(q, n);
      RemovedElsewhere(q[1..], m);
      assert Removed(q, n) == Removed(q[1..], m);
    } else {
      TrimShrinks(q[1..], n);
      var t' := Trim(q[1..], n).0;
      assert t == [Erased(q[0], n)] + t';
      if e > 0 {
        assert t[e..] == t'[e - 1..];
        DataSplit(t', e - 1);
      } else {
        assert t[e..] == t;
        assert t[1..] == t';
      }
    }
  }

  /** A write of n bytes leaves exactly the unwritten bytes in the queue if and only if it stopped
      between two buffers or inside the last one. */
  lemma {:induction false} RemovalExactness(q: seq<Buf>, n: nat)
    requires n <= |Data(q)|
    ensures Data(Removed(q, n)) == Data(q)[n..] <==> OnBoundary(q, n) || InLast(q, n)
  {
    TrivialStops(q, n);
    if OnBoundary(q, n) {
      RemovedOnBoundary(q, n);
      DataSplit(q, Empties(q, n));
    } else if InLast(q, n) {
      RemovedInLast(q, n);
    } else {
      RemovedElsewhere(q, n);
    }
  }

  lemma {:induction false} TrimMemory(q: seq<Buf>, n: nat)
    ensures n > 0 ==> forall i :: 0 <= i < |q| ==> |Trim(q, n).0[i].Memory()| == |q[i].Memory()|
  {
    if n > 0 && q != [] {
      var m := if |q[0].data| <= n then n - |q[0].data| else n;
      if m > 0 {
        TrimMemory(q[1..], m);
      }
      var rest := if m == 0 then (q[1..], 0) else Trim(q[1..], m);
      var t := Trim(q, n).0;
      assert t[1..] == rest.0;
      forall i | 0 <= i < |q| ensures |t[i].Memory()| == |q[i].Memory()| {
        if i > 0 {
          assert t[i] == rest.0[i - 1] && q[i] == q[1..][i - 1];
        }
      }
    }
  }

  // -- Steps ------------------------------------------------------------------

  // Both vectors always run in parallel, and each iovec spans the memory of its buffer.
  predicate Parallel(s: Out) {
    && |s.iovecs| == |s.queue|
    && forall i :: 0 <= i < |s.queue| ==> s.iovecs[i] == |s.queue[i].Memory()|
  }

  // enqueue(byte_buffer&&)
  function Enqueue(s: Out, bytes: Bytes): (r: Out)
    requires Parallel(s)
    ensures Parallel(r)
  {
    s.(queue := s.queue + [Buf(bytes, [])],
       iovecs := s.iovecs + [|bytes|],
       enqueued := (s.enqueued + |bytes|) % SIZE_T,
       writing := true,
       offered := s.offered + bytes)
  }

  // enqueue(const_byte_span) copies into a cached buffer when there is one.
  function EnqueueCopy(s: Out, bytes: Bytes): (r: Out)
    requires Parallel(s)
    ensures Parallel(r)
  {
    Enqueue(s.(cache := if s.cache == [] then [] else s.cache[1..]), bytes)
  }

  function EnqueueAll(s: Out, chunks: seq<Bytes>): (r: Out)
    requires Parallel(s)
    ensures Parallel(r) && r.app == s.app && r.sent == s.sent
    decreases |chunks|
  {
    if chunks == [] then s else EnqueueAll(EnqueueCopy(s, chunks[0]), chunks[1..])
  }

  function Produce(s: Out): (r: Out)
    requires Parallel(s)
    ensures Parallel(r)
  {
    if s.app == [] then s else EnqueueAll(s.(app := s.app[1..]), s.app[0])
  }

  // The socket takes n of the bytes the iovecs describe; then they are removed from the queue.
  function Wrote(s: Out, c: Limits, n: nat): (r: Out)
    requires Parallel(s) && n <= |View(s.queue)|
    ensures Parallel(r)
  {
    TrimMemory(s.queue, n);
    var e := Empties(s.queue, n);
    if n == 0 then s else
    s.(queue := Removed(s.queue, n),
       iovecs := s.iovecs[e..],
       enqueued := (s.enqueued + SIZE_T - n % SIZE_T) % SIZE_T,
       cache := Recycled(s.cache, e, c.maxEnqueuedBytes),
       sent := s.sent + View(s.queue)[..n])
  }

  /** Wherever the write stopped, the bytes it took were those the iovecs describe, the counter falls by as many, modulo
      2^64, and every buffer taken off the queue joins the cache, emptied, while that has room. */
  lemma WroteCounts(s: Out, c: Limits, n: nat)
    requires Parallel(s) && n <= |View(s.queue)|
    ensures var r := Wrote(s, c, n);
            && |r.queue| <= |s.queue|
            && r.sent == s.sent + View(s.queue)[..n]
            && r.iovecs == s.iovecs[|s.queue| - |r.queue|..]
            && (r.enqueued + n) % SIZE_T == s.enqueued % SIZE_T
            && s.cache <= r.cache
            && (forall i :: |s.cache| <= i < |r.cache| ==> r.cache[i] == [])
            && |r.cache| - |s.cache|
               == (if |s.cache| < c.maxEnqueuedBytes
                   then Min(|s.queue| - |r.queue|, c.maxEnqueuedBytes - |s.cache|) else 0)
            && r.app == s.app && r.offered == s.offered && r.writing == s.writing
  {
    if n == 0 {
      assert s.sent + View(s.queue)[..0] == s.sent;
    } else {
      assert |Removed(s.queue, n)| == |s.queue| - Empties(s.queue, n);
    }
  }

  // -- FIFO conservation over runs --------------------------------------------

  datatype Step = Offer(bytes: Bytes) | ProduceStep | WriteStep(limit: nat)

  function Taken(s: Out, limit: nat): (n: nat)
    ensures n <= |View(s.queue)|
  {
    Min(limit, |View(s.queue)|)
  }

  function Apply(s: Out, c: Limits, step: Step): (r: Out)
    requires Parallel(s)
    ensures Parallel(r)
  {
    match step
    case Offer(bytes) => Enqueue(s, bytes)
    case ProduceStep => Produce(s)
    case WriteStep(limit) => Wrote(s, c, Taken(s, limit))
  }

  function Run(s: Out, c: Limits, steps: seq<Step>): (r: Out)
    requires Parallel(s)
    ensures Parallel(r)
    decreases |steps|
  {
    if steps == [] then s else Run(Apply(s, c, steps[0]), c, steps[1..])
  }

  // Nothing lost, nothing duplicated, order kept, counter right, and iovec i describes exactly buffer i.
  predicate Conserved(s: Out) {
    && Parallel(s)
    && s.sent + Data(s.queue) == s.offered
    && s.enqueued == |Data(s.queue)| % SIZE_T
    && forall i :: 0 <= i < |s.queue| ==> s.queue[i].stale == []
  }

  predicate AlwaysConserved(s: Out, c: Limits, steps: seq<Step>)
    requires Parallel(s)
    decreases |steps|
  {
    Conserved(s) && (steps != [] ==> AlwaysConserved(Apply(s, c, steps[0]), c, steps[1..]))
  }

  // Every write of the run stops between two buffers.
  predicate AlignedRun(s: Out, c: Limits, steps: seq<Step>)
    requires Parallel(s)
    decreases |steps|
  {
    steps != [] ==>
      && (steps[0].WriteStep? ==> OnBoundary(s.queue, Taken(s, steps[0].limit)))
      && AlignedRun(Apply(s, c, steps[0]), c, steps[1..])
  }

  lemma WrapSub(a: nat, b: nat)
    ensures b <= a ==> (a % SIZE_T + SIZE_T - b % SIZE_T) % SIZE_T == (a - b) % SIZE_T
  {
  }

  lemma {:induction false} ViewIsData(q: seq<Buf>)
    requires forall i :: 0 <= i < |q| ==> q[i].stale == []
    ensures View(q) == Data(q)
  {
    if q != [] {
      ViewIsData(q[1..]);
    }
  }

  lemma EnqueueConserves(s: Out, bytes: Bytes)
    requires Conserved(s)
    ensures Conserved(Enqueue(s, bytes))
  {
    DataAppend(s.queue, [Buf(bytes, [])]);
    assert Data([Buf(bytes, [])]) == bytes + Data([]);
    assert s.sent + (Data(s.queue) + bytes) == (s.sent + Data(s.queue)) + bytes;
  }

  lemma {:induction false} EnqueueAllConserves(s: Out, chunks: seq<Bytes>)
    requires Conserved(s)
    ensures Conserved(EnqueueAll(s, chunks))
    decreases |chunks|
  {
    if chunks != [] {
      var s' := s.(cache := if s.cache == [] then [] else s.cache[1..]);
      EnqueueConserves(s', chunks[0]);
      EnqueueAllConserves(EnqueueCopy(s, chunks[0]), chunks[1..]);
    }
  }

  lemma AlignedRemoval(q: seq<Buf>, n: nat)
    requires OnBoundary(q, n)
    ensures var e := Empties(q, n);
            && e <= |q| && Removed(q, n) == q[e..]
            && Data(q) == Data(q[..e]) + Data(q[e..])
            && |Data(q[..e])| == n
  {
    RemovedOnBoundary(q, n);
    DataSplit(q, Empties(q, n));
  }

  lemma WriteAligned(s: Out, c: Limits, n: nat)
    requires Conserved(s) && n <= |View(s.queue)| && OnBoundary(s.queue, n)
    ensures Conserved(Wrote(s, c, n))
  {
    hide Data, View, Trim, Removed, Empties, OnBoundary, Recycled;
    var q := s.queue;
    ViewIsData(q);
    AlignedRemoval(q, n);
    WrapSub(|Data(q)|, n);
    var e := Empties(q, n);
    var front, rest := Data(q[..e]), Data(q[e..]);
    assert (s.sent + front) + rest == s.sent + (front + rest);
    assert Data(q)[..n] == front;
  }

  lemma WriteUnaligned(s: Out, c: Limits, n: nat)
    requires Conserved(s) && n <= |View(s.queue)| && !OnBoundary(s.queue, n)
    ensures !Conserved(Wrote(s, c, n))
  {
    var q := s.queue;
    ViewIsData(q);
    TrivialStops(q, n);
    var r := Wrote(s, c, n);
    if InLast(q, n) {
      RemovedInLast(q, n);
      assert r.queue[0].stale != [];
    } else {
      RemovedElsewhere(q, n);
      assert |r.sent| == |s.sent| + n && |s.offered| == |s.sent| + |Data(q)|;
      assert |r.sent + Data(r.queue)| < |s.offered|;
    }
  }

  /** One partial write: order, content, counter and iovecs all survive it exactly when it stopped on a boundary. */
  lemma WriteExactness(s: Out, c: Limits, n: nat)
    requires Conserved(s) && n <= |View(s.queue)|
    ensures Conserved(Wrote(s, c, n)) <==> OnBoundary(s.queue, n)
  {
    if OnBoundary(s.queue, n) {
      WriteAligned(s, c, n);
    } else {
      WriteUnaligned(s, c, n);
    }
  }

  /** FIFO conservation: a run keeps every byte, in order, with correct counter and iovecs at every point
      if and only if every partial write along it stopped between two buffers. */
  lemma {:induction false} FifoConservation(s: Out, c: Limits, steps: seq<Step>)
    requires Conserved(s)
    ensures AlwaysConserved(s, c, steps) <==> AlignedRun(s, c, steps)
    decreases |steps|
  {
    if steps != [] {
      var s' := Apply(s, c, steps[0]);
      match steps[0] {
        case Offer(bytes) => EnqueueConserves(s, bytes);
        case ProduceStep =>
          if s.app != [] {
            EnqueueAllConserves(s.(app := s.app[1..]), s.app[0]);
          }
        case WriteStep(limit) => WriteExactness(s, c, Taken(s, limit));
      }
      if Conserved(s') {
        FifoConservation(s', c, steps[1..]);
      } else {
        assert !AlwaysConserved(s', c, steps[1..]);
      }
    }
  }

  // -- What is offered --------------------------------------------------------

  /** Enqueueing puts exactly the bytes at the end of the queue, in a buffer of their own that its iovec spans, and asks
      to write. */
  lemma EnqueueExactness(s: Out, bytes: Bytes)
    requires Parallel(s)
    ensures var r := Enqueue(s, bytes);
            && Data(r.queue) == Data(s.queue) + bytes
            && View(r.queue) == View(s.queue) + bytes
            && r.queue[..|s.queue|] == s.queue && |r.queue| == |s.queue| + 1
            && r.iovecs[|s.queue|] == |bytes|
            && r.offered == s.offered + bytes
            && r.sent == s.sent
            && r.app == s.app
            && r.writing
            && (s.enqueued == |Data(s.queue)| % SIZE_T ==> r.enqueued == |Data(r.queue)| % SIZE_T)
  {
    var last := [Buf(bytes, [])];
    DataAppend(s.queue, last);
    assert Data(last) == bytes + [] && View(last) == bytes + [] + [];
  }

  /** The copying form does the same with a buffer of the cache, if there is one. */
  lemma EnqueueCopyExactness(s: Out, bytes: Bytes)
    requires Parallel(s)
    ensures EnqueueCopy(s, bytes) == Enqueue(s, bytes).(cache := EnqueueCopy(s, bytes).cache)
    ensures |EnqueueCopy(s, bytes).cache| == if |s.cache| == 0 then 0 else |s.cache| - 1
  {
  }

  lemma {:induction false} EnqueueAllOffers(s: Out, chunks: seq<Bytes>)
    requires Parallel(s)
    ensures EnqueueAll(s, chunks).offered == s.offered + Flat(chunks)
    ensures Data(EnqueueAll(s, chunks).queue) == Data(s.queue) + Flat(chunks)
    decreases |chunks|
  {
    hide EnqueueCopy, Data, View, Enqueue, Parallel;
    if chunks != [] {
      var r := EnqueueCopy(s, chunks[0]);
      EnqueueExactness(s, chunks[0]);
      EnqueueCopyExactness(s, chunks[0]);
      EnqueueAllOffers(r, chunks[1..]);
      Regrouped(s.offered, chunks[0], Flat(chunks[1..]));
      Regrouped(Data(s.queue), chunks[0], Flat(chunks[1..]));
    }
  }

  /** What a run offers, told by its steps and the application alone. */
  function Offers(steps: seq<Step>, app: seq<seq<Bytes>>): Bytes
    decreases |steps|
  {
    if steps == [] then []
    else
      match steps[0]
      case Offer(bytes) => bytes + Offers(steps[1..], app)
      case ProduceStep =>
        if app == [] then Offers(steps[1..], app) else Flat(app[0]) + Offers(steps[1..], app[1..])
      case WriteStep(_) => Offers(steps[1..], app)
  }

  lemma ApplyOffers(s: Out, c: Limits, step: Step)
    requires Parallel(s)
    ensures var r := Apply(s, c, step);
            match step
            case Offer(bytes) => r.offered == s.offered + bytes && r.app == s.app
            case ProduceStep =>
              if s.app == [] then r == s else r.offered == s.offered + Flat(s.app[0]) && r.app == s.app[1..]
            case WriteStep(_) => r.offered == s.offered && r.app == s.app
  {
    if step.ProduceStep? && s.app != [] {
      EnqueueAllOffers(s.(app := s.app[1..]), s.app[0]);
    }
  }

  lemma {:induction false} RunOffers(s: Out, c: Limits, steps: seq<Step>)
    requires Parallel(s)
    ensures Run(s, c, steps).offered == s.offered + Offers(steps, s.app)
    decreases |steps|
  {
    if steps != [] {
      var r := Apply(s, c, steps[0]);
      ApplyOffers(s, c, steps[0]);
      RunOffers(r, c, steps[1..]);
      hide Apply, Run;
      assert steps[0].Offer? ==>
          s.offered + (steps[0].bytes + Offers(steps[1..], s.app))
          == (s.offered + steps[0].bytes) + Offers(steps[1..], s.app);
      assert steps[0].ProduceStep? && s.app != [] ==>
          s.offered + (Flat(s.app[0]) + Offers(steps[1..], s.app[1..]))
          == (s.offered + Flat(s.app[0])) + Offers(steps[1..], s.app[1..]);
    }
  }

  /** First in, first out: after every run whose writes stop on boundaries the bytes sent, followed by those queued, are
      what was sent and queued before followed by what the steps and the application offered, in order. */
  lemma FifoOverRuns(s: Out, c: Limits, steps: seq<Step>)
    requires Conserved(s) && AlignedRun(s, c, steps)
    ensures var r := Run(s, c, steps);
            && r.sent + Data(r.queue) == s.sent + Data(s.queue) + Offers(steps, s.app)
            && r.enqueued == |Data(r.queue)| % SIZE_T
  {
    FifoConservation(s, c, steps);
    EndConserved(s, c, steps);
    RunOffers(s, c, steps);
  }

  lemma {:induction false} EndConserved(s: Out, c: Limits, steps: seq<Step>)
    requires Parallel(s) && AlwaysConserved(s, c, steps)
    ensures Conserved(Run(s, c, steps))
    decreases |steps|
  {
    hide Conserved, Apply;
    if steps != [] {
      EndConserved(Apply(s, c, steps[0]), c, steps[1..]);
    }
  }

  // All the chunks the application has to write.
  function AllChunks(app: seq<seq<Bytes>>): Bytes {
    if app == [] then [] else Flat(app[0]) + AllChunks(app[1..])
  }

  // What is offered and what is still to come do not change together.
  lemma {:induction false} FetchOffers(s: Out, c: Limits, i: nat)
    requires Parallel(s)
    ensures var f := Fetch(s, c, i);
            f.offered + AllChunks(f.app) == s.offered + AllChunks(s.app)
    decreases |s.app|
  {
    hide EnqueueAll, Data, Flat;
    if s.enqueued < c.maxEnqueuedBytes && i < c.maxFetches && s.app != [] {
      ProduceShape(s);
      EnqueueAllOffers(s.(app := s.app[1..]), s.app[0]);
      FetchOffers(Produce(s), c, i + 1);
      Regrouped(s.offered, Flat(s.app[0]), AllChunks(s.app[1..]));
    }
  }

  lemma {:induction false} EventOffers(s: Out, c: Limits, socket: seq<WriteResult>, k: nat)
    requires Parallel(s) && k <= c.maxWrites
    ensures var r := WriteEvent(s, c, socket, k).0;
            r.offered + AllChunks(r.app) == s.offered + AllChunks(s.app)
    decreases c.maxWrites - k
  {
    hide Fetch, Wrote, WriteEvent, Parallel, AllChunks, Finished;
    FetchOffers(s, c, 0);
    EventUnfolds(s, c, socket, k);
    var f := Fetch(s, c, 0);
    if !Finished(f) && Outcome(socket, k).Accepted? {
      var n := Taken(f, Outcome(socket, k).count);
      WroteCounts(f, c, n);
      if k < c.maxWrites {
        EventOffers(Wrote(f, c, n), c, socket, k + 1);
      }
    }
  }

  // A write inside the last buffer leaves what it sent behind the end.
  lemma WroteOne(s: Out, c: Limits)
    requires Parallel(s) && s.queue == [Buf([97, 98], [])] && s.enqueued == 2
    ensures var w := Wrote(s, c, Taken(s, 1));
            && w.queue == [Buf([98], [98])] && w.enqueued == 1 && w.app == s.app
            && w.sent == s.sent + [97] && w.offered == s.offered
  {
    var b := Erased(s.queue[0], 1);
    assert b.data == [98] && b.stale == [98];
    RemovedFromOne(s.queue[0], 1);
    assert View(s.queue) == [97, 98] + View(s.queue[1..]);
    assert View(s.queue)[..1] == [97];
  }

  lemma WroteTwice(s: Out, c: Limits)
    requires Parallel(s) && s.queue == [Buf([98], [98])]
    ensures Wrote(s, c, Taken(s, 2)).sent == s.sent + [98, 98]
    ensures Wrote(s, c, Taken(s, 2)).offered == s.offered
  {
    assert View(s.queue) == [98, 98] + View(s.queue[1..]);
    assert View(s.queue)[..2] == [98, 98];
  }

  lemma RunThree(s: Out, c: Limits, x: Step, y: Step, z: Step)
    requires Parallel(s)
    ensures Run(s, c, [x, y, z]) == Apply(Apply(Apply(s, c, x), c, y), c, z)
  {
    hide Apply, Parallel;
    assert [x, y, z][1..] == [y, z] && [y, z][1..] == [z] && [z][1..] == [];
    var r := Apply(s, c, x);
    assert Run(r, c, [y, z]) == Run(Apply(r, c, y), c, [z]);
    assert Run(Apply(r, c, y), c, [z]) == Run(Apply(Apply(r, c, y), c, z), c, []);
  }

  /** Stopping inside the last buffer already corrupts the stream: with "ab" queued and one byte written,
      the next full write sends the last byte twice. */
  lemma StaleIovecExample(c: Limits)
    ensures var s := Run(Out([], [], 0, [], false, [], [], []), c, [Offer([97, 98]), WriteStep(1), WriteStep(2)]);
            s.offered == [97, 98] && s.sent == [97, 98, 98]
  {
    var s0 := Out([], [], 0, [], false, [], [], []);
    var s1 := Enqueue(s0, [97, 98]);
    assert s1.queue == [Buf([97, 98], [])] && s1.enqueued == 2 && s1.sent == [] && s1.offered == [97, 98];
    WroteOne(s1, c);
    hide Wrote, Enqueue, Taken, Run, View;
    var s2 := Wrote(s1, c, Taken(s1, 1));
    WroteTwice(s2, c);
    RunThree(s0, c, Offer([97, 98]), WriteStep(1), WriteStep(2));
    assert [] + [97] + [98, 98] == [97, 98, 98];
  }

  // -- The write event --------------------------------------------------------

  // done_writing()
  predicate Finished(s: Out) {
    s.queue == [] && s.app == []
  }

  // The loop of fetch_more_data(), entered with `i` fetches done.
  function Fetch(s: Out, c: Limits, i: nat): (r: Out)
    requires Parallel(s)
    ensures Parallel(r)
    decreases |s.app|
  {
    if s.enqueued < c.maxEnqueuedBytes && i < c.maxFetches && s.app != [] then
      ProduceShape(s);
      Fetch(Produce(s), c, i + 1)
    else s
  }

  // The state after n calls of produce.
  function Produced(s: Out, n: nat): (r: Out)
    requires Parallel(s)
    ensures Parallel(r)
    decreases n
  {
    if n == 0 then s else Produced(Produce(s), n - 1)
  }

  /** A fetch asks the application again and again, and stops exactly at the limit of calls, when enough is enqueued or
      when there is no more. */
  lemma {:induction false} FetchExactness(s: Out, c: Limits, i: nat)
    requires Parallel(s)
    ensures var f := Fetch(s, c, i);
            var n := |s.app| - |f.app|;
            && n >= 0
            && f == Produced(s, n)
            && (i <= c.maxFetches ==> i + n <= c.maxFetches)
            && (i + n >= c.maxFetches || f.app == [] || f.enqueued >= c.maxEnqueuedBytes)
            && forall m :: 0 <= m < n ==> Produced(s, m).enqueued < c.maxEnqueuedBytes
    decreases |s.app|
  {
    if s.enqueued < c.maxEnqueuedBytes && i < c.maxFetches && s.app != [] {
      ProduceShape(s);
      FetchExactness(Produce(s), c, i + 1);
      var n := |s.app| - |Fetch(s, c, i).app|;
      forall m | 0 < m < n ensures Produced(s, m).enqueued < c.maxEnqueuedBytes {
        assert Produced(s, m) == Produced(Produce(s), m - 1);
      }
    }
  }

  lemma ProduceShape(s: Out)
    ensures Parallel(s) && s.app != [] ==> Produce(s).app == s.app[1..]
  {
  }

  // The outcome of write number k of an event; after the given ones the socket would block.
  function Outcome(socket: seq<WriteResult>, k: nat): WriteResult {
    if k < |socket| then socket[k] else WouldBlock
  }

  // handle_write_event(), entered with k writes done.
  // The last component counts the writes.
  function WriteEvent(s: Out, c: Limits, socket: seq<WriteResult>, k: nat): (r: (Out, Verdict, nat))
    requires Parallel(s) && k <= c.maxWrites
    ensures Parallel(r.0)
    decreases c.maxWrites - k
  {
    var f := Fetch(s, c, 0);
    if Finished(f) then (f, Done, k)
    else
      match Outcome(socket, k)
      case WouldBlock => (f, TemporaryError, k + 1)
      case Failed => (f, Error, k + 1)
      case Accepted(count) =>
        var w := Wrote(f, c, Taken(f, count));
        if k < c.maxWrites then WriteEvent(w, c, socket, k + 1)
        else (w, if Finished(w) then Done else Ok, k + 1)
  }

  // The steps such an event is made of.
  function FetchSteps(s: Out, c: Limits, i: nat): (r: seq<Step>)
    requires Parallel(s)
    decreases |s.app|
  {
    if s.enqueued < c.maxEnqueuedBytes && i < c.maxFetches && s.app != [] then
      ProduceShape(s);
      [ProduceStep] + FetchSteps(Produce(s), c, i + 1)
    else []
  }

  function EventSteps(s: Out, c: Limits, socket: seq<WriteResult>, k: nat): seq<Step>
    requires Parallel(s) && k <= c.maxWrites
    decreases c.maxWrites - k
  {
    var f := Fetch(s, c, 0);
    if Finished(f) || !Outcome(socket, k).Accepted? then FetchSteps(s, c, 0)
    else
      var w := Wrote(f, c, Taken(f, Outcome(socket, k).count));
      FetchSteps(s, c, 0) + [WriteStep(Outcome(socket, k).count)]
      + if k < c.maxWrites then EventSteps(w, c, socket, k + 1) else []
  }

  lemma {:induction false} RunAppend(s: Out, c: Limits, a: seq<Step>, b: seq<Step>)
    requires Parallel(s)
    ensures Run(s, c, a + b) == Run(Run(s, c, a), c, b)
    decreases |a|
  {
    if a == [] {
      assert a + b == b;
    } else {
      assert (a + b)[1..] == a[1..] + b;
      RunAppend(Apply(s, c, a[0]), c, a[1..], b);
    }
  }

  lemma {:induction false} FetchIsRun(s: Out, c: Limits, i: nat)
    requires Parallel(s)
    ensures Run(s, c, FetchSteps(s, c, i)) == Fetch(s, c, i)
    ensures i <= c.maxFetches ==> |FetchSteps(s, c, i)| <= c.maxFetches - i
    decreases |s.app|
  {
    if s.enqueued < c.maxEnqueuedBytes && i < c.maxFetches && s.app != [] {
      ProduceShape(s);
      FetchIsRun(Produce(s), c, i + 1);
      assert FetchSteps(s, c, i)[1..] == FetchSteps(Produce(s), c, i + 1);
    }
  }

  lemma EventUnfolds(s: Out, c: Limits, socket: seq<WriteResult>, k: nat)
    requires Parallel(s) && k <= c.maxWrites
    ensures var f := Fetch(s, c, 0);
            if Finished(f) then WriteEvent(s, c, socket, k) == (f, Done, k)
            else if Outcome(socket, k).WouldBlock? then WriteEvent(s, c, socket, k) == (f, TemporaryError, k + 1)
            else if Outcome(socket, k).Failed? then WriteEvent(s, c, socket, k) == (f, Error, k + 1)
            else
              var w := Wrote(f, c, Taken(f, Outcome(socket, k).count));
              WriteEvent(s, c, socket, k) == if k < c.maxWrites then WriteEvent(w, c, socket, k + 1)
                                             else (w, if Finished(w) then Done else Ok, k + 1)
  {
  }

  /** A write event is a run of steps and makes at most maxWrites + 1 writes. It answers Done only with an empty queue
      and a dry application, Ok only while there is more to write, and ends with the first write that is not accepted,
      whose failure it answers. */
  lemma {:induction false} EventShape(s: Out, c: Limits, socket: seq<WriteResult>, k: nat)
    requires Parallel(s) && k <= c.maxWrites
    ensures var r := WriteEvent(s, c, socket, k);
            && Run(s, c, EventSteps(s, c, socket, k)) == r.0
            && k <= r.2 <= c.maxWrites + 1
            && (r.1 == Done ==> Finished(r.0))
            && (r.1 == Ok ==> !Finished(r.0) && r.2 == c.maxWrites + 1)
            && (forall j :: k <= j < r.2 - 1 ==> Outcome(socket, j).Accepted?)
            && (r.1 == Error <==> r.2 > k && Outcome(socket, r.2 - 1).Failed?)
            && (r.1 == TemporaryError <==> r.2 > k && Outcome(socket, r.2 - 1).WouldBlock?)
    decreases c.maxWrites - k
  {
    hide Fetch, FetchSteps, Wrote, Parallel, WriteEvent, Taken;
    var f := Fetch(s, c, 0);
    FetchIsRun(s, c, 0);
    EventUnfolds(s, c, socket, k);
    if !Finished(f) && Outcome(socket, k).Accepted? {
      var fs := FetchSteps(s, c, 0);
      var one := [WriteStep(Outcome(socket, k).count)];
      var w := Wrote(f, c, Taken(f, Outcome(socket, k).count));
      assert Run(w, c, []) == w;
      assert one[1..] == [];
      assert Run(f, c, one) == w;
      RunAppend(s, c, fs, one);
      if k < c.maxWrites {
        EventShape(w, c, socket, k + 1);
        RunAppend(s, c, fs + one, EventSteps(w, c, socket, k + 1));
      } else {
        assert fs + one + [] == fs + one;
      }
    }
  }

  // -- Progress ---------------------------------------------------------------

  function AppLoad(app: seq<seq<Bytes>>): nat {
    if app == [] then 0 else |Flat(app[0])| + |app[0]| + AppLoad(app[1..])
  }

  // Bytes and buffers still to be written, in the application and in the queue.
  function Remaining(s: Out): nat {
    AppLoad(s.app) + |Data(s.queue)| + |s.queue|
  }

  /** Whatever the write did to the buffers, it left strictly less to do. */
  lemma WriteProgress(s: Out, c: Limits, n: nat)
    requires Parallel(s) && 0 < n <= |View(s.queue)|
    ensures Remaining(Wrote(s, c, n)) < Remaining(s)
  {
    var t := Trim(s.queue, n);
    TrimShrinks(s.queue, n);
    DataSplit(t.0, t.1);
  }

  lemma {:induction false} EnqueueAllLoad(s: Out, chunks: seq<Bytes>)
    requires Parallel(s)
    ensures |Data(EnqueueAll(s, chunks).queue)| == |Data(s.queue)| + |Flat(chunks)|
    ensures |EnqueueAll(s, chunks).queue| == |s.queue| + |chunks|
    decreases |chunks|
  {
    if chunks != [] {
      DataAppend(s.queue, [Buf(chunks[0], [])]);
      assert Data([Buf(chunks[0], [])]) == chunks[0] + Data([]);
      EnqueueAllLoad(EnqueueCopy(s, chunks[0]), chunks[1..]);
    }
  }

  // A finite application whose produce always enqueues something, and no empty buffers.
  predicate Ample(app: seq<seq<Bytes>>) {
    && (forall i :: 0 <= i < |app| ==> app[i] != [])
    && (forall i, j :: 0 <= i < |app| && 0 <= j < |app[i]| ==> app[i][j] != [])
  }

  predicate Lively(s: Out) {
    && (forall i :: 0 <= i < |s.queue| ==> s.queue[i].data != [])
    && Ample(s.app)
  }

  lemma {:induction false} EnqueueAllLively(s: Out, chunks: seq<Bytes>)
    requires Parallel(s) && Lively(s) && forall j :: 0 <= j < |chunks| ==> chunks[j] != []
    ensures Lively(EnqueueAll(s, chunks))
    decreases |chunks|
  {
    if chunks != [] {
      EnqueueAllLively(EnqueueCopy(s, chunks[0]), chunks[1..]);
    }
  }

  lemma {:induction false} FetchKeeps(s: Out, c: Limits, i: nat)
    requires Conserved(s) && Lively(s)
    ensures var f := Fetch(s, c, i);
            && Conserved(f)
            && Lively(f)
            && Remaining(f) == Remaining(s)
            && (s.queue != [] ==> f.queue != [])
            && (f.queue == [] && i < c.maxFetches && c.maxEnqueuedBytes > 0 ==> f.app == [])
    decreases |s.app|
  {
    if s.enqueued < c.maxEnqueuedBytes && i < c.maxFetches && s.app != [] {
      var s' := s.(app := s.app[1..]);
      EnqueueAllConserves(s', s.app[0]);
      EnqueueAllLoad(s', s.app[0]);
      EnqueueAllLively(s', s.app[0]);
      ProduceShape(s);
      FetchKeeps(Produce(s), c, i + 1);
    }
  }

  // The socket takes at least one byte in every write of the event and always stops on a boundary.
  predicate Flowing(s: Out, c: Limits, socket: seq<WriteResult>, k: nat)
    requires Parallel(s) && k <= c.maxWrites
    decreases c.maxWrites - k
  {
    var f := Fetch(s, c, 0);
    Finished(f) ||
    (&& Outcome(socket, k).Accepted? && Outcome(socket, k).count > 0
     && OnBoundary(f.queue, Taken(f, Outcome(socket, k).count))
     && (k < c.maxWrites ==> Flowing(Wrote(f, c, Taken(f, Outcome(socket, k).count)), c, socket, k + 1)))
  }

  lemma FlowingUnfolds(s: Out, c: Limits, socket: seq<WriteResult>, k: nat)
    requires Parallel(s) && k <= c.maxWrites && Flowing(s, c, socket, k)
    ensures var f := Fetch(s, c, 0);
            Finished(f) ||
            (&& Outcome(socket, k).Accepted? && Outcome(socket, k).count > 0
             && OnBoundary(f.queue, Taken(f, Outcome(socket, k).count))
             && (k < c.maxWrites ==> Flowing(Wrote(f, c, Taken(f, Outcome(socket, k).count)), c, socket, k + 1)))
  {
  }

  lemma AlignedProgress(f: Out, c: Limits, limit: nat)
    requires Conserved(f) && Lively(f) && f.queue != [] && limit > 0
    requires OnBoundary(f.queue, Taken(f, limit))
    ensures var w := Wrote(f, c, Taken(f, limit));
            && Conserved(w)
            && Lively(w)
            && Remaining(w) < Remaining(f)
  {
    var n := Taken(f, limit);
    ViewIsData(f.queue);
    assert |View(f.queue)| > 0;
    WriteAligned(f, c, n);
    WriteProgress(f, c, n);
    RemovedOnBoundary(f.queue, n);
  }

  // One round of the loop: nothing is left, or there is less to do.
  lemma RoundProgress(s: Out, c: Limits, socket: seq<WriteResult>, k: nat)
    requires Parallel(s) && Conserved(s) && Lively(s)
    requires k <= c.maxWrites && c.maxFetches > 0 && c.maxEnqueuedBytes > 0 && Flowing(s, c, socket, k)
    ensures var f := Fetch(s, c, 0);
            if Finished(f) then Conserved(f) && Lively(f)
            else
              var w := Wrote(f, c, Taken(f, Outcome(socket, k).count));
              && Outcome(socket, k).Accepted?
              && Conserved(w) && Lively(w) && Remaining(w) < Remaining(s)
              && (k < c.maxWrites ==> Flowing(w, c, socket, k + 1))
  {
    FlowingUnfolds(s, c, socket, k);
    hide Conserved, Lively, Remaining, Wrote, Fetch, OnBoundary, Taken, Parallel, Flowing;
    FetchKeeps(s, c, 0);
    var f := Fetch(s, c, 0);
    if !Finished(f) {
      AlignedProgress(f, c, Outcome(socket, k).count);
    }
  }

  lemma {:induction false} EventProgress(s: Out, c: Limits, socket: seq<WriteResult>, k: nat)
    requires Parallel(s) && Conserved(s) && Lively(s)
    requires k <= c.maxWrites && c.maxFetches > 0 && c.maxEnqueuedBytes > 0 && Flowing(s, c, socket, k)
    ensures var r := WriteEvent(s, c, socket, k);
            && Conserved(r.0)
            && Lively(r.0)
            && (r.1 == Done || Remaining(r.0) < Remaining(s))
    decreases c.maxWrites - k
  {
    hide *;
    RoundProgress(s, c, socket, k);
    EventUnfolds(s, c, socket, k);
    var f := Fetch(s, c, 0);
    if !Finished(f) && k < c.maxWrites {
      EventProgress(Wrote(f, c, Taken(f, Outcome(socket, k).count)), c, socket, k + 1);
    }
  }

  // Write events one after the other until one answers Done.
  predicate AllFlowing(s: Out, c: Limits, sockets: seq<seq<WriteResult>>)
    requires Parallel(s)
    decreases |sockets|
  {
    sockets != [] ==>
      && Flowing(s, c, sockets[0], 0)
      && AllFlowing(WriteEvent(s, c, sockets[0], 0).0, c, sockets[1..])
  }

  predicate Delivers(s: Out, c: Limits, sockets: seq<seq<WriteResult>>, all: Bytes)
    requires Parallel(s)
    decreases |sockets|
  {
    sockets != [] &&
    var r := WriteEvent(s, c, sockets[0], 0);
    if r.1 == Done then Finished(r.0) && r.0.sent == all
    else Delivers(r.0, c, sockets[1..], all)
  }

  /** All chunks of a finite application are delivered behind what was offered before, in order, within as many write
      events as there are bytes and buffers to write, plus one, provided every write takes something and stops on a
      boundary. */
  lemma {:induction false} EventuallyDone(s: Out, c: Limits, sockets: seq<seq<WriteResult>>)
    requires Conserved(s) && Lively(s) && c.maxFetches > 0 && c.maxEnqueuedBytes > 0
    requires AllFlowing(s, c, sockets) && |sockets| > Remaining(s)
    ensures Delivers(s, c, sockets, s.offered + AllChunks(s.app))
    decreases |sockets|
  {
    EventProgress(s, c, sockets[0], 0);
    EventShape(s, c, sockets[0], 0);
    EventOffers(s, c, sockets[0], 0);
    var r := WriteEvent(s, c, sockets[0], 0);
    hide WriteEvent, Lively, Remaining;
    if r.1 == Done {
      assert r.0.sent + [] == r.0.sent && r.0.offered + [] == r.0.offered;
    } else {
      EventuallyDone(r.0, c, sockets[1..]);
    }
  }

  // -- Writes that stop anywhere ----------------------------------------------

  // Every iovec spans something, even when its buffer has been emptied.
  predicate Fed(s: Out) {
    && (forall i :: 0 <= i < |s.queue| ==> s.queue[i].Memory() != [])
    && Ample(s.app)
  }

  // Nothing is queued, but the counter forbids to ask the application for more.
  predicate Starved(s: Out, c: Limits) {
    s.queue == [] && s.app != [] && s.enqueued >= c.maxEnqueuedBytes
  }

  lemma {:induction false} EnqueueAllFed(s: Out, chunks: seq<Bytes>)
    requires Parallel(s) && Fed(s) && forall j :: 0 <= j < |chunks| ==> chunks[j] != []
    ensures Fed(EnqueueAll(s, chunks))
    decreases |chunks|
  {
    if chunks != [] {
      EnqueueAllFed(EnqueueCopy(s, chunks[0]), chunks[1..]);
    }
  }

  lemma {:induction false} FetchFed(s: Out, c: Limits, i: nat)
    requires Parallel(s) && Fed(s)
    ensures var f := Fetch(s, c, i);
            && Fed(f)
            && Remaining(f) == Remaining(s)
            && (s.queue != [] ==> f.queue != [])
            && (i < c.maxFetches ==> (f.queue == [] && f.app != [] <==> Starved(s, c)))
            && (Starved(s, c) ==> f == s)
    decreases |s.app|
  {
    if s.enqueued < c.maxEnqueuedBytes && i < c.maxFetches && s.app != [] {
      var s' := s.(app := s.app[1..]);
      EnqueueAllLoad(s', s.app[0]);
      EnqueueAllFed(s', s.app[0]);
      ProduceShape(s);
      FetchFed(Produce(s), c, i + 1);
    }
  }

  lemma FedProgress(f: Out, c: Limits, limit: nat)
    requires Parallel(f) && Fed(f) && f.queue != [] && limit > 0
    ensures Fed(Wrote(f, c, Taken(f, limit)))
    ensures Remaining(Wrote(f, c, Taken(f, limit))) < Remaining(f)
  {
    var n := Taken(f, limit);
    assert |View(f.queue)| >= |f.queue[0].Memory()| > 0;
    WriteProgress(f, c, n);
    TrimMemory(f.queue, n);
  }

  /** A starved transport stays as it is, whatever its socket would take, and never answers Done. */
  lemma {:induction false} StarvedForever(s: Out, c: Limits, socket: seq<WriteResult>, k: nat)
    requires Parallel(s) && Starved(s, c) && k <= c.maxWrites
    ensures WriteEvent(s, c, socket, k).0 == s && WriteEvent(s, c, socket, k).1 != Done
    decreases c.maxWrites - k
  {
    assert Fetch(s, c, 0) == s;
    if Outcome(socket, k).Accepted? && k < c.maxWrites {
      StarvedForever(s, c, socket, k + 1);
    }
  }

  // As long as anything is queued, every write of the event takes at least one byte, wherever it stops.
  predicate Taking(s: Out, c: Limits, socket: seq<WriteResult>, k: nat)
    requires Parallel(s) && k <= c.maxWrites
    decreases c.maxWrites - k
  {
    var f := Fetch(s, c, 0);
    f.queue == [] ||
    (&& Outcome(socket, k).Accepted? && Outcome(socket, k).count > 0
     && (k < c.maxWrites ==> Taking(Wrote(f, c, Taken(f, Outcome(socket, k).count)), c, socket, k + 1)))
  }

  lemma TakingUnfolds(s: Out, c: Limits, socket: seq<WriteResult>, k: nat)
    requires Parallel(s) && k <= c.maxWrites && Taking(s, c, socket, k)
    ensures var f := Fetch(s, c, 0);
            f.queue == [] ||
            (&& Outcome(socket, k).Accepted? && Outcome(socket, k).count > 0
             && (k < c.maxWrites ==> Taking(Wrote(f, c, Taken(f, Outcome(socket, k).count)), c, socket, k + 1)))
  {
  }

  lemma {:induction false} EventAdvances(s: Out, c: Limits, socket: seq<WriteResult>, k: nat)
    requires Parallel(s) && Fed(s) && k <= c.maxWrites && c.maxFetches > 0 && Taking(s, c, socket, k)
    ensures var r := WriteEvent(s, c, socket, k);
            && Fed(r.0)
            && (r.1 == Done || Starved(r.0, c) || Remaining(r.0) < Remaining(s))
    decreases c.maxWrites - k
  {
    hide Fed, Remaining, Wrote, Fetch, Taken, WriteEvent, Taking, Parallel, Starved;
    TakingUnfolds(s, c, socket, k);
    FetchFed(s, c, 0);
    EventUnfolds(s, c, socket, k);
    var f := Fetch(s, c, 0);
    if Starved(s, c) {
      StarvedForever(s, c, socket, k);
    } else if f.queue != [] {
      FedProgress(f, c, Outcome(socket, k).count);
      var w := Wrote(f, c, Taken(f, Outcome(socket, k).count));
      if k < c.maxWrites {
        EventAdvances(w, c, socket, k + 1);
      }
    }
  }

  // Write events one after the other until one answers Done.
  predicate AllTaking(s: Out, c: Limits, sockets: seq<seq<WriteResult>>)
    requires Parallel(s)
    decreases |sockets|
  {
    sockets != [] ==>
      && Taking(s, c, sockets[0], 0)
      && AllTaking(WriteEvent(s, c, sockets[0], 0).0, c, sockets[1..])
  }

  predicate Ends(s: Out, c: Limits, sockets: seq<seq<WriteResult>>)
    requires Parallel(s)
    decreases |sockets|
  {
    sockets != [] &&
    var r := WriteEvent(s, c, sockets[0], 0);
    r.1 == Done || Ends(r.0, c, sockets[1..])
  }

  predicate Starves(s: Out, c: Limits, sockets: seq<seq<WriteResult>>)
    requires Parallel(s)
    decreases |sockets|
  {
    Starved(s, c) ||
    (sockets != [] &&
     var r := WriteEvent(s, c, sockets[0], 0);
     r.1 != Done && Starves(r.0, c, sockets[1..]))
  }

  /** Wherever the writes stop, as long as each takes something, a finite application is done within as many write
      events as there are bytes and buffers to write, plus one, if and only if the transport never starves. */
  lemma {:induction false} DoneExactness(s: Out, c: Limits, sockets: seq<seq<WriteResult>>)
    requires Parallel(s) && Fed(s) && c.maxFetches > 0
    requires AllTaking(s, c, sockets) && |sockets| > Remaining(s)
    ensures Ends(s, c, sockets) <==> !Starves(s, c, sockets)
    decreases |sockets|
  {
    EventAdvances(s, c, sockets[0], 0);
    var r := WriteEvent(s, c, sockets[0], 0);
    if Starved(s, c) {
      StarvedForever(s, c, sockets[0], 0);
    }
    hide WriteEvent, Starved, Fed, Taking, Remaining;
    if Starved(r.0, c) && r.1 != Done {
      NeverEnds(r.0, c, sockets[1..]);
    } else if r.1 != Done {
      DoneExactness(r.0, c, sockets[1..]);
    }
  }

  lemma {:induction false} NeverEnds(s: Out, c: Limits, sockets: seq<seq<WriteResult>>)
    requires Parallel(s) && Starved(s, c)
    ensures !Ends(s, c, sockets) && Starves(s, c, sockets)
    decreases |sockets|
  {
    if sockets != [] {
      StarvedForever(s, c, sockets[0], 0);
      NeverEnds(s, c, sockets[1..]);
    }
  }

  lemma FetchNone(s: Out, c: Limits)
    requires Parallel(s) && s.enqueued >= c.maxEnqueuedBytes
    ensures Fetch(s, c, 0) == s
  {
  }

  lemma WroteRest(s: Out, c: Limits)
    requires Parallel(s) && s.queue == [Buf([98], [98]), Buf([99], [])] && s.enqueued == 2
    ensures var w := Wrote(s, c, Taken(s, 3));
            w.queue == [] && w.enqueued == SIZE_T - 1 && w.app == s.app
  {
    assert s.queue[1..] == [Buf([99], [])] && s.queue[1..][1..] == [];
    assert View(s.queue[1..]) == [99] + View([]);
    assert View(s.queue) == [98, 98] + View(s.queue[1..]);
    assert Trim([], 1) == ([], 0);
    assert Trim(s.queue[1..], 2).1 == 1;
    assert Trim(s.queue, 3).1 == 2;
  }

  lemma FetchedOne(s: Out, c: Limits)
    requires Parallel(s) && s.queue == [Buf([98], [98])] && s.enqueued == 1 && s.app == [[[99]], [[100]]]
    requires c.maxFetches == 1 && c.maxEnqueuedBytes == 2
    ensures var f := Fetch(s, c, 0);
            f.queue == [Buf([98], [98]), Buf([99], [])] && f.enqueued == 2 && f.app == [[[100]]]
  {
    var p := s.(app := s.app[1..]);
    assert [[99]][1..] == [];
    assert EnqueueAll(p, [[99]]) == EnqueueAll(EnqueueCopy(p, [99]), []) == EnqueueCopy(p, [99]);
    assert Fetch(s, c, 0) == Fetch(Produce(s), c, 1) == Produce(s);
  }

  // "ab" is queued and two more chunks are to come.
  function AboutToStarve(): Out {
    Out([Buf([97, 98], [])], [2], 2, [], true, [[[99]], [[100]]], [], [97, 98])
  }

  lemma WellBefore()
    ensures Conserved(AboutToStarve()) && Lively(AboutToStarve())
  {
    var s := AboutToStarve();
    assert Data(s.queue) == [97, 98] + Data(s.queue[1..]);
  }

  /** Sending stale bytes takes the counter below zero, and the transport starves: one byte is written, a chunk is
      fetched, and the next write takes all that the iovecs span. */
  lemma StarvedExample()
    ensures Conserved(AboutToStarve()) && Lively(AboutToStarve())
    ensures var c := Limits(1, 1, 2);
            Starved(WriteEvent(AboutToStarve(), c, [Accepted(1), Accepted(3)], 0).0, c)
  {
    WellBefore();
    hide WriteEvent, Fetch, Wrote, Taken, Conserved, Lively;
    var c := Limits(1, 1, 2);
    var s := AboutToStarve();
    var socket := [Accepted(1), Accepted(3)];
    FetchNone(s, c);
    EventUnfolds(s, c, socket, 0);
    WroteOne(s, c);
    var w := Wrote(s, c, Taken(s, 1));
    FetchedOne(w, c);
    EventUnfolds(w, c, socket, 1);
    WroteRest(Fetch(w, c, 0), c);
  }

  /** The cache of write buffers is limited by max-enqueued-bytes; it respects max-cached-write-buffers
      for every number of returned buffers only if the former is not the larger one. */
  lemma CacheLimit(c: Limits, maxCached: nat)
    ensures (forall k :: |Recycled([], k, c.maxEnqueuedBytes)| <= maxCached) <==> c.maxEnqueuedBytes <= maxCached
  {
    assert |Recycled([], c.maxEnqueuedBytes, c.maxEnqueuedBytes)| == c.maxEnqueuedBytes;
  }

  // -- The transport ----------------------------------------------------------

  // Where the loop over the write queue q stands: `w` is the queue, buffers before i are done, n bytes and
  // e empty buffers are left and counted.
  ghost predicate Trimmed(q: seq<Buf>, count: nat, w: seq<Buf>, i: nat, n: nat, e: nat) {
    && count > 0 && |w| == |q| && i <= |q|
    && w[i..] == q[i..]
    && var (t, empties) := Trim(q, count);
       var (t', empties') := if n == 0 then (q[i..], 0) else Trim(q[i..], n);
       t == w[..i] + t' && empties == e + empties'
  }

  lemma TrimStart(q: seq<Buf>, count: nat)
    ensures count > 0 ==> Trimmed(q, count, q, 0, count, 0)
  {
    if count > 0 {
      assert q[0..] == q;
    }
  }

  lemma TrimEnd(q: seq<Buf>, count: nat, w: seq<Buf>, i: nat, n: nat, e: nat)
    requires Trimmed(q, count, w, i, n, e) && (i == |w| || n == 0)
    ensures (w, e) == Trim(q, count)
  {
    assert w[..i] + w[i..] == w;
  }

  lemma RecycledStep(cache: seq<Bytes>, k: nat, limit: nat)
    ensures Recycled(Recycled(cache, k, limit), 1, limit) == Recycled(cache, k + 1, limit)
    ensures Recycled(cache, 0, limit) == cache
  {
  }

  lemma TrimStep(q: seq<Buf>, count: nat, w: seq<Buf>, i: nat, n: nat, e: nat)
    requires Trimmed(q, count, w, i, n, e) && i < |w| && n > 0
    ensures if |w[i].data| <= n
            then Trimmed(q, count, w[i := Erased(w[i], |w[i].data|)], i + 1, n - |w[i].data|, e + 1)
            else Trimmed(q, count, w[i := Erased(w[i], n)], i + 1, n, e)
  {
    assert w[i] == w[i..][0] && q[i] == q[i..][0];
    assert q[i..][1..] == q[i + 1..];
    var buf := if |w[i].data| <= n then Erased(w[i], |w[i].data|) else Erased(w[i], n);
    var w' := w[i := buf];
    assert w'[..i + 1] == w[..i] + [buf];
    assert w'[i + 1..] == w[i..][1..];
  }

  class StreamWriter {
    const limits: Limits
    var writeQueue: seq<Buf>
    var iovecs: seq<nat>
    var numEnqueuedBytes: nat
    var bufferCache: seq<Bytes>
    var writeRegistered: bool
    var nextLayer: seq<seq<Bytes>>
    ghost var sent: Bytes
    ghost var offered: Bytes

    ghost function State(): Out
      reads this
    {
      Out(writeQueue, iovecs, numEnqueuedBytes, bufferCache, writeRegistered, nextLayer, sent, offered)
    }

    // Buffers wait in the cache empty.
    ghost predicate CacheEmptied()
      reads this`bufferCache
    {
      forall i :: 0 <= i < |bufferCache| ==> bufferCache[i] == []
    }

    ghost predicate Valid()
      reads this
    {
      Parallel(State()) && CacheEmptied()
    }

    constructor (limits: Limits, app: seq<seq<Bytes>>)
      ensures Valid()
      ensures Conserved(State())
      ensures State() == Out([], [], 0, [], false, app, [], [])
      ensures this.limits == limits
    {
      this.limits := limits;
      writeQueue, iovecs, numEnqueuedBytes, bufferCache := [], [], 0, [];
      writeRegistered, nextLayer, sent, offered := false, app, [], [];
    }

    method GetBuffer() returns (buf: Bytes)
      requires Valid()
      modifies this`bufferCache
      ensures Valid() && buf == []
      ensures bufferCache == if old(bufferCache) == [] then [] else old(bufferCache)[1..]
    {
      if bufferCache == [] {
        return [];
      }
      buf := bufferCache[0];
      bufferCache := bufferCache[1..];
    }

    method ReturnBuffer(buf: Bytes)
      requires CacheEmptied() && buf == []
      modifies this`bufferCache
      ensures CacheEmptied()
      ensures bufferCache == Recycled(old(bufferCache), 1, limits.maxEnqueuedBytes)
    {
      if |bufferCache| < limits.maxEnqueuedBytes {
        bufferCache := bufferCache + [buf];
      }
    }

    method RegisterWriting()
      modifies this`writeRegistered
      ensures writeRegistered
    {
      if !writeRegistered {
        writeRegistered := true;
      }
    }

    method EnqueueBuffer(bytes: Bytes)
      requires Valid()
      modifies this
      ensures Valid() && State() == Enqueue(old(State()), bytes)
    {
      iovecs := iovecs + [|bytes|];
      numEnqueuedBytes := (numEnqueuedBytes + |bytes|) % SIZE_T;
      writeQueue := writeQueue + [Buf(bytes, [])];
      offered := offered + bytes;
      RegisterWriting();
    }

    method EnqueueSpan(bytes: Bytes)
      requires Valid()
      modifies this
      ensures Valid() && State() == EnqueueCopy(old(State()), bytes)
    {
      var buf := GetBuffer();
      buf := buf + bytes;
      assert buf == bytes;
      EnqueueBuffer(buf);
    }

    // The next layer's produce.
    method ProduceMore()
      requires Valid() && nextLayer != []
      modifies this
      ensures Valid() && State() == Produce(old(State()))
    {
      var chunks := nextLayer[0];
      nextLayer := nextLayer[1..];
      ghost var s0 := State();
      for i := 0 to |chunks|
        invariant Valid()
        invariant EnqueueAll(State(), chunks[i..]) == EnqueueAll(s0, chunks)
      {
        EnqueueSpan(chunks[i]);
        assert chunks[i..][1..] == chunks[i + 1..];
      }
      assert chunks[|chunks|..] == [];
    }

    method RemoveWrittenData(count: nat)
      requires Valid() && count <= |View(writeQueue)|
      modifies this
      ensures Valid() && State() == Wrote(old(State()), limits, count)
    {
      if count == 0 {
        return;
      }
      sent := sent + View(writeQueue)[..count];
      numEnqueuedBytes := (numEnqueuedBytes + SIZE_T - count % SIZE_T) % SIZE_T;
      var numEmptyBuffers := TrimQueue(count);
      writeQueue := writeQueue[numEmptyBuffers..];
      iovecs := iovecs[numEmptyBuffers..];
      assert State() == Wrote(old(State()), limits, count);
    }

    // The loop over the write queue.
    method TrimQueue(count: nat) returns (numEmptyBuffers: nat)
      requires CacheEmptied() && count > 0
      modifies this`writeQueue, this`bufferCache
      ensures CacheEmptied()
      ensures (writeQueue, numEmptyBuffers) == Trim(old(writeQueue), count)
      ensures bufferCache == Recycled(old(bufferCache), numEmptyBuffers, limits.maxEnqueuedBytes)
    {
      hide Trim, Trimmed, Recycled;
      numEmptyBuffers := 0;
      var numBytes: nat := count;
      ghost var q := writeQueue;
      var i: nat := 0;
      TrimStart(q, count);
      RecycledStep(bufferCache, 0, limits.maxEnqueuedBytes);
      while i < |writeQueue| && numBytes > 0
        invariant CacheEmptied() && i <= |writeQueue| == |q|
        invariant Trimmed(q, count, writeQueue, i, numBytes, numEmptyBuffers)
        invariant bufferCache == Recycled(old(bufferCache), numEmptyBuffers, limits.maxEnqueuedBytes)
        decreases |q| - i
      {
        TrimStep(q, count, writeQueue, i, numBytes, numEmptyBuffers);
        RecycledStep(old(bufferCache), numEmptyBuffers, limits.maxEnqueuedBytes);
        var buf := writeQueue[i];
        if |buf.data| <= numBytes {
          numBytes := numBytes - |buf.data|;
          buf := Erased(buf, |buf.data|);
        } else {
          buf := Erased(buf, numBytes);
        }
        writeQueue := writeQueue[i := buf];
        if buf.data == [] {
          ReturnBuffer([]);
          numEmptyBuffers := numEmptyBuffers + 1;
        }
        i := i + 1;
      }
      TrimEnd(q, count, writeQueue, i, numBytes, numEmptyBuffers);
    }

    method FetchMoreData() returns (verdict: Verdict)
      requires Valid()
      modifies this
      ensures Valid() && State() == Fetch(old(State()), limits, 0)
      ensures verdict == if Finished(State()) then Done else Ok
    {
      var i: nat := 0;
      while numEnqueuedBytes < limits.maxEnqueuedBytes && i < limits.maxFetches
        invariant Valid()
        invariant Fetch(State(), limits, i) == Fetch(old(State()), limits, 0)
        decreases limits.maxFetches - i
      {
        if nextLayer != [] {
          ProduceMore();
          i := i + 1;
        } else {
          break;
        }
      }
      verdict := if writeQueue == [] && nextLayer == [] then Done else Ok;
    }

    method HandleWriteEvent(socket: seq<WriteResult>) returns (verdict: Verdict, writes: nat)
      requires Valid()
      modifies this
      ensures Valid()
      ensures (State(), verdict, writes) == WriteEvent(old(State()), limits, socket, 0)
    {
      writes := 0;
      var again := true;
      while again
        invariant Valid() && (again ==> writes <= limits.maxWrites)
        invariant again ==> WriteEvent(State(), limits, socket, writes) == WriteEvent(old(State()), limits, socket, 0)
        invariant !again ==> (State(), if Finished(State()) then Done else Ok, writes)
                             == WriteEvent(old(State()), limits, socket, 0)
        decreases again, limits.maxWrites + 1 - writes
      {
        var fetched := FetchMoreData();
        if fetched == Done {
          verdict := Done;
          return;
        }
        match Outcome(socket, writes) {
          case WouldBlock =>
            verdict, writes := TemporaryError, writes + 1;
            return;
          case Failed =>
            verdict, writes := Error, writes + 1;
            return;
          case Accepted(count) =>
            RemoveWrittenData(Min(count, |View(writeQueue)|));
        }
        again := writes < limits.maxWrites;
        writes := writes + 1;
      }
      verdict := if writeQueue == [] && nextLayer == [] then Done else Ok;
    }
  }
}
