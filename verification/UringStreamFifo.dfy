/** The io_uring stream transport over whole runs: what the kernel took and what is still queued is what was offered, in
    order. */
module UringStreamFifo {
  import opened ByteBuffers
  import opened ManagerResult
  import opened UringStream
  import Output = StreamOutput

  // -- What is offered --------------------------------------------------------

  // The bytes enqueued by a fetch while the write bit is set: the application's chunks as they come.
  function FetchedWriting(t: Transport, c: Limits, i: nat): Bytes
    decreases |t.app|
  {
    if MayFetch(t, c, i)
    then Flat(t.app[0]) + FetchedWriting(PushAll(t.(app := t.app[1..]), t.app[0]), c, i + 1) else []
  }

  // With the bit clear an enqueue is followed by the fetch it causes.
  function Enqueued(t: Transport, c: Limits, bytes: Bytes): Bytes {
    if t.writing then bytes else bytes + FetchedWriting(Pushed(t, bytes).(writing := true), c, 0)
  }

  function EnqueuedAll(t: Transport, c: Limits, chunks: seq<Bytes>): Bytes
    decreases |chunks|
  {
    if chunks == [] then [] else Enqueued(t, c, chunks[0]) + EnqueuedAll(Enqueue(t, c, chunks[0]), c, chunks[1..])
  }

  function Fetched(t: Transport, c: Limits, i: nat): Bytes
    decreases |t.app|
  {
    if MayFetch(t, c, i)
    then EnqueuedAll(t.(app := t.app[1..]), c, t.app[0])
         + Fetched(EnqueueAll(t.(app := t.app[1..]), c, t.app[0]), c, i + 1)
    else []
  }

  // The bytes a step enqueues, and those the kernel took before it.
  function Offered(t: Transport, c: Limits, step: Step): Bytes
    requires ValidStep(t, step)
  {
    match step
    case EnqueueStep(bytes) => Enqueued(t, c, bytes)
    case WriteCompletes(Accepted(n)) => Fetched(Wrote(t.(writes := t.writes[1..]), n), c, 0)
    case PollCompletes => Fetched(t.(polls := t.polls - 1), c, 0)
    case _ => []
  }

  function Taken(t: Transport, step: Step): Bytes
    requires ValidStep(t, step)
  {
    match step
    case WriteCompletes(Accepted(n)) => Output.View(t.writes[0])[..n]
    case _ => []
  }

  // -- Growth -----------------------------------------------------------------

  predicate Clean(q: seq<Buf>) {
    forall i :: 0 <= i < |q| ==> q[i].stale == []
  }

  predicate Counts(t: Transport) {
    t.enqueued == |Output.Data(t.queue)| % SIZE_T
  }

  // The queue got these bytes behind what it held.
  predicate Grows(t: Transport, r: Transport, bytes: Bytes) {
    && t.queue <= r.queue
    && Output.Data(r.queue) == Output.Data(t.queue) + bytes
    && (Clean(t.queue) ==> Clean(r.queue))
    && (Counts(t) ==> Counts(r))
  }

  lemma GrowsThrough(a: Transport, b: Transport, c: Transport, x: Bytes, y: Bytes)
    requires Grows(a, b, x) && Grows(b, c, y)
    ensures Grows(a, c, x + y)
  {
    assert Output.Data(a.queue) + (x + y) == (Output.Data(a.queue) + x) + y;
  }

  lemma GrowsNothing(t: Transport, r: Transport)
    requires r.queue == t.queue && r.enqueued == t.enqueued
    ensures Grows(t, r, [])
  {
    assert Output.Data(t.queue) + [] == Output.Data(t.queue);
  }

  lemma WrapAdd(a: nat, b: nat)
    ensures (a % SIZE_T + b) % SIZE_T == (a + b) % SIZE_T
  {
  }

  lemma PushedGrows(t: Transport, bytes: Bytes)
    ensures Grows(t, Pushed(t, bytes), bytes)
  {
    var last := [Output.Buf(bytes, [])];
    Output.DataAppend(t.queue, last);
    assert Output.Data(last) == bytes + [];
    WrapAdd(|Output.Data(t.queue)|, |bytes|);
    hide Output.Data;
  }

  lemma {:induction false} PushAllGrows(t: Transport, chunks: seq<Bytes>)
    ensures Grows(t, PushAll(t, chunks), Flat(chunks))
    decreases |chunks|
  {
    hide Grows, Pushed;
    if chunks == [] {
      GrowsNothing(t, t);
    } else {
      PushedGrows(t, chunks[0]);
      PushAllGrows(Pushed(t, chunks[0]), chunks[1..]);
      GrowsThrough(t, Pushed(t, chunks[0]), PushAll(t, chunks), chunks[0], Flat(chunks[1..]));
    }
  }

  lemma SameQueue(t: Transport, u: Transport, r: Transport, bytes: Bytes)
    requires u.queue == t.queue && u.enqueued == t.enqueued && Grows(u, r, bytes)
    ensures Grows(t, r, bytes)
  {
  }

  lemma {:induction false} FetchWritingGrows(t: Transport, c: Limits, i: nat)
    ensures Grows(t, FetchWriting(t, c, i), FetchedWriting(t, c, i))
    decreases |t.app|
  {
    hide Grows, PushAll;
    if MayFetch(t, c, i) {
      var s := t.(app := t.app[1..]);
      var p := PushAll(s, t.app[0]);
      PushAllGrows(s, t.app[0]);
      SameQueue(t, s, p, Flat(t.app[0]));
      FetchWritingGrows(p, c, i + 1);
      GrowsThrough(t, p, FetchWriting(p, c, i + 1), Flat(t.app[0]), FetchedWriting(p, c, i + 1));
    } else {
      GrowsNothing(t, t);
    }
  }

  // Submitting and the write bit leave the queue alone.
  lemma EnableQueue(t: Transport, c: Limits)
    ensures var f := FetchWriting(t.(writing := true), c, 0);
            EnableWriting(t, c).queue == f.queue && EnableWriting(t, c).enqueued == f.enqueued
  {
  }

  lemma SameResult(t: Transport, r: Transport, u: Transport, bytes: Bytes)
    requires u.queue == r.queue && u.enqueued == r.enqueued && Grows(t, r, bytes)
    ensures Grows(t, u, bytes)
  {
  }

  lemma EnqueueGrows(t: Transport, c: Limits, bytes: Bytes)
    ensures Grows(t, Enqueue(t, c, bytes), Enqueued(t, c, bytes))
  {
    hide Grows, FetchWriting, FetchedWriting, EnableWriting;
    var p := Pushed(t, bytes);
    PushedGrows(t, bytes);
    if !t.writing {
      var w := p.(writing := true);
      FetchWritingGrows(w, c, 0);
      SameQueue(p, w, FetchWriting(w, c, 0), FetchedWriting(w, c, 0));
      GrowsThrough(t, p, FetchWriting(w, c, 0), bytes, FetchedWriting(w, c, 0));
      EnableQueue(p, c);
      SameResult(t, FetchWriting(w, c, 0), EnableWriting(p, c), bytes + FetchedWriting(w, c, 0));
    }
  }

  lemma {:induction false} EnqueueAllGrows(t: Transport, c: Limits, chunks: seq<Bytes>)
    ensures Grows(t, EnqueueAll(t, c, chunks), EnqueuedAll(t, c, chunks))
    decreases |chunks|
  {
    hide Grows, Enqueue, Enqueued;
    if chunks == [] {
      GrowsNothing(t, t);
    } else {
      var e := Enqueue(t, c, chunks[0]);
      EnqueueGrows(t, c, chunks[0]);
      EnqueueAllGrows(e, c, chunks[1..]);
      GrowsThrough(t, e, EnqueueAll(t, c, chunks), Enqueued(t, c, chunks[0]), EnqueuedAll(e, c, chunks[1..]));
    }
  }

  lemma {:induction false} FetchGrows(t: Transport, c: Limits, i: nat)
    ensures Grows(t, Fetch(t, c, i), Fetched(t, c, i))
    decreases |t.app|
  {
    hide Grows, EnqueueAll, EnqueuedAll;
    if MayFetch(t, c, i) {
      var s := t.(app := t.app[1..]);
      var e := EnqueueAll(s, c, t.app[0]);
      EnqueueAllGrows(s, c, t.app[0]);
      SameQueue(t, s, e, EnqueuedAll(s, c, t.app[0]));
      FetchGrows(e, c, i + 1);
      GrowsThrough(t, e, Fetch(e, c, i + 1), EnqueuedAll(s, c, t.app[0]), Fetched(e, c, i + 1));
    } else {
      GrowsNothing(t, t);
    }
  }

  lemma ResumeGrows(t: Transport, c: Limits)
    ensures Grows(t, Resume(t, c).transport, Fetched(t, c, 0))
  {
    hide Grows, Fetch, Fetched;
    FetchGrows(t, c, 0);
    SameResult(t, Fetch(t, c, 0), Resume(t, c).transport, Fetched(t, c, 0));
  }

  // -- First in, first out ----------------------------------------------------

  // One truthful write, clean buffers, a right counter, and nothing lost, repeated or out of order so far.
  predicate Fifo(t: Transport, taken: Bytes, offered: Bytes) {
    && SingleWriter(t)
    && Clean(t.queue)
    && Counts(t)
    && taken + Output.Data(t.queue) == offered
  }

  predicate Aligned(t: Transport, step: Step) {
    step.WriteCompletes? && step.res.Accepted? ==> Output.OnBoundary(t.queue, step.res.count)
  }

  // What the kernel takes of a write is the front of the queue.
  lemma TakenIsFront(t: Transport, n: nat)
    requires SingleWriter(t) && Clean(t.queue) && t.writes != [] && n <= |Output.View(t.writes[0])|
    ensures n <= |Output.Data(t.queue)| && Output.View(t.writes[0])[..n] == Output.Data(t.queue)[..n]
  {
    var w, q := t.writes[0], t.queue;
    Output.DataSplit(q, |w|);
    assert q[..|w|] == w;
    Output.ViewIsData(q);
  }

  lemma WroteAligned(t: Transport, n: nat)
    requires Clean(t.queue) && Counts(t) && Output.OnBoundary(t.queue, n)
    ensures var w := Wrote(t, n);
            && n <= |Output.Data(t.queue)|
            && Output.Data(w.queue) == Output.Data(t.queue)[n..]
            && Clean(w.queue) && Counts(w)
  {
    Output.AlignedRemoval(t.queue, n);
    Output.WrapSub(|Output.Data(t.queue)|, n);
  }

  // A write that stops inside a buffer loses bytes, or leaves some behind its end.
  lemma WroteUnaligned(t: Transport, n: nat)
    requires !Output.OnBoundary(t.queue, n) && n <= |Output.Data(t.queue)|
    ensures var w := Wrote(t, n);
            !Clean(w.queue) || |Output.Data(w.queue)| < |Output.Data(t.queue)| - n
  {
    Output.TrivialStops(t.queue, n);
    if Output.InLast(t.queue, n) {
      Output.RemovedInLast(t.queue, n);
      assert Wrote(t, n).queue[0].stale != [];
    } else {
      Output.RemovedElsewhere(t.queue, n);
    }
  }

  lemma GrowsDirty(t: Transport, r: Transport, bytes: Bytes)
    requires Grows(t, r, bytes)
    ensures !Clean(t.queue) ==> !Clean(r.queue)
    ensures |Output.Data(r.queue)| == |Output.Data(t.queue)| + |bytes|
  {
  }

  lemma StepFifo(t: Transport, c: Limits, step: Step, taken: Bytes, offered: Bytes)
    requires Fifo(t, taken, offered) && ValidStep(t, step) && Next(t, c, step).verdict != Error
    ensures Fifo(Next(t, c, step).transport, taken + Taken(t, step), offered + Offered(t, c, step))
       <==> !Breaks(t, c, step) && Aligned(t, step)
  {
    StepExactness(t, c, step);
    var r := Next(t, c, step).transport;
    hide SingleWriter, Breaks, Counts, Clean, Output.OnBoundary, Output.View, Output.Removed, Fetch, Fetched, Enqueue,
         Enqueued;
    match step {
      case EnqueueStep(bytes) =>
        EnqueueGrows(t, c, bytes);
        Appended(t, r, taken, offered, Enqueued(t, c, bytes));
      case PollCompletes =>
        var p := t.(polls := t.polls - 1);
        ResumeGrows(p, c);
        SameQueue(t, p, r, Fetched(p, c, 0));
        Appended(t, r, taken, offered, Fetched(p, c, 0));
      case WriteCompletes(res) =>
        match res {
          case Accepted(n) => CompletionFifo(t, c, n, taken, offered);
          case _ =>
            GrowsNothing(t, r);
            Appended(t, r, taken, offered, []);
        }
      case _ =>
        GrowsNothing(t, r);
        Appended(t, r, taken, offered, []);
    }
  }

  lemma Appended(t: Transport, r: Transport, taken: Bytes, offered: Bytes, bytes: Bytes)
    requires Fifo(t, taken, offered) && Grows(t, r, bytes)
    ensures Clean(r.queue) && Counts(r)
    ensures (taken + []) + Output.Data(r.queue) == offered + bytes
  {
    assert (taken + []) + (Output.Data(t.queue) + bytes) == (taken + Output.Data(t.queue)) + bytes;
  }

  lemma CompletionIs(t: Transport, c: Limits, n: nat)
    requires SingleWriter(t) && Clean(t.queue) && ValidStep(t, WriteCompletes(Output.Accepted(n)))
    ensures var step := WriteCompletes(Output.Accepted(n));
            && n <= |Output.Data(t.queue)|
            && Taken(t, step) == Output.Data(t.queue)[..n]
            && Grows(Wrote(t.(writes := t.writes[1..]), n), Next(t, c, step).transport, Offered(t, c, step))
  {
    hide SingleWriter, Clean, Grows, Output.View, Output.Data, Resume, Fetched, Wrote;
    TakenIsFront(t, n);
    var w := Wrote(t.(writes := t.writes[1..]), n);
    ResumeGrows(w, c);
    SameResult(w, Resume(w, c).transport, Next(t, c, WriteCompletes(Output.Accepted(n))).transport, Fetched(w, c, 0));
  }

  lemma CompletionFifo(t: Transport, c: Limits, n: nat, taken: Bytes, offered: Bytes)
    requires Fifo(t, taken, offered) && ValidStep(t, WriteCompletes(Output.Accepted(n)))
    ensures var step := WriteCompletes(Output.Accepted(n));
            var r := Next(t, c, step).transport;
            && Clean(r.queue) && Counts(r)
            && taken + Taken(t, step) + Output.Data(r.queue) == offered + Offered(t, c, step)
            <==> Output.OnBoundary(t.queue, n)
  {
    CompletionIs(t, c, n);
    var step := WriteCompletes(Output.Accepted(n));
    var r, more := Next(t, c, step).transport, Offered(t, c, step);
    var s := t.(writes := t.writes[1..]);
    hide SingleWriter, Next, Offered, Taken, Wrote, Output.OnBoundary, Output.Data, ValidStep;
    if Output.OnBoundary(t.queue, n) {
      WroteAligned(s, n);
      AlignedAddsUp(Output.Data(t.queue), n, taken, more);
    } else {
      WroteUnaligned(s, n);
      GrowsDirty(Wrote(s, n), r, more);
    }
  }

  lemma AlignedAddsUp(q: Bytes, n: nat, taken: Bytes, more: Bytes)
    requires n <= |q|
    ensures taken + q[..n] + (q[n..] + more) == taken + q + more
  {
    assert q[..n] + q[n..] == q;
    assert taken + q[..n] + (q[n..] + more) == taken + (q[..n] + q[n..]) + more;
  }

  predicate AlwaysFifo(t: Transport, c: Limits, steps: seq<Step>, taken: Bytes, offered: Bytes)
    requires ValidRun(t, c, steps)
    decreases |steps|
  {
    && Fifo(t, taken, offered)
    && (steps != [] ==>
          AlwaysFifo(Next(t, c, steps[0]).transport, c, steps[1..],
                     taken + Taken(t, steps[0]), offered + Offered(t, c, steps[0])))
  }

  predicate AlignedRun(t: Transport, c: Limits, steps: seq<Step>)
    requires ValidRun(t, c, steps)
    decreases |steps|
  {
    steps != [] ==> Aligned(t, steps[0]) && AlignedRun(Next(t, c, steps[0]).transport, c, steps[1..])
  }

  /** At every point of a run the bytes the kernel took, followed by those queued, are the bytes offered so far, with
      one truthful write and a right counter, if and only if every write stops on a boundary, no completed poll submits
      a write and no completed write fails to submit its successor. */
  lemma {:induction false} FifoOverRuns(t: Transport, c: Limits, steps: seq<Step>, taken: Bytes, offered: Bytes)
    requires Fifo(t, taken, offered) && ValidRun(t, c, steps)
    ensures AlwaysFifo(t, c, steps, taken, offered) <==> NeverBreaks(t, c, steps) && AlignedRun(t, c, steps)
    decreases |steps|
  {
    hide Fifo, Breaks, Aligned, Next, Taken, Offered;
    if steps != [] {
      StepFifo(t, c, steps[0], taken, offered);
      var r := Next(t, c, steps[0]).transport;
      var x, y := taken + Taken(t, steps[0]), offered + Offered(t, c, steps[0]);
      if Fifo(r, x, y) {
        FifoOverRuns(r, c, steps[1..], x, y);
      } else {
        assert !AlwaysFifo(r, c, steps[1..], x, y);
      }
    }
  }

  // -- Where the offered bytes come from --------------------------------------

  lemma {:induction false} FetchedInOrder(t: Transport, c: Limits, i: nat)
    ensures FetchedWriting(t, c, i) + Output.AllChunks(FetchWriting(t, c, i).app) == Output.AllChunks(t.app)
    decreases |t.app|
  {
    if MayFetch(t, c, i) {
      var p := PushAll(t.(app := t.app[1..]), t.app[0]);
      FetchedInOrder(p, c, i + 1);
      hide PushAll;
      assert Flat(t.app[0]) + FetchedWriting(p, c, i + 1) + Output.AllChunks(FetchWriting(p, c, i + 1).app)
          == Flat(t.app[0]) + (FetchedWriting(p, c, i + 1) + Output.AllChunks(FetchWriting(p, c, i + 1).app));
    } else {
      assert [] + Output.AllChunks(t.app) == Output.AllChunks(t.app);
    }
  }

  // An enqueue offers its bytes and then the application's next ones.
  lemma EnqueuedInOrder(t: Transport, c: Limits, bytes: Bytes)
    ensures Enqueued(t, c, bytes) + Output.AllChunks(Enqueue(t, c, bytes).app) == bytes + Output.AllChunks(t.app)
  {
    if !t.writing {
      var w := Pushed(t, bytes).(writing := true);
      FetchedInOrder(w, c, 0);
      hide FetchWriting, FetchedWriting;
      var f := FetchWriting(w, c, 0);
      assert bytes + FetchedWriting(w, c, 0) + Output.AllChunks(f.app)
          == bytes + (FetchedWriting(w, c, 0) + Output.AllChunks(f.app));
    }
  }

  // From what two steps give to what they give together.
  lemma Together(
    x: multiset<Byte>, y: multiset<Byte>, a: multiset<Byte>, b: multiset<Byte>, p: multiset<Byte>, q: multiset<Byte>,
    r: multiset<Byte>)
    requires x + q == a + p && y + r == b + q
    ensures x + y + r == a + b + p
  {
    assert x + y + r == x + (y + r);
    assert x + (b + q) == (x + q) + b;
    assert a + p + b == a + b + p;
  }

  lemma MultisetSplits(a: Bytes, b: Bytes)
    ensures multiset(a + b) == multiset(a) + multiset(b)
  {
  }

  lemma {:induction false} EnqueuedAllIs(t: Transport, c: Limits, chunks: seq<Bytes>)
    ensures multiset(EnqueuedAll(t, c, chunks)) + multiset(Output.AllChunks(EnqueueAll(t, c, chunks).app))
         == multiset(Flat(chunks)) + multiset(Output.AllChunks(t.app))
    decreases |chunks|
  {
    hide Enqueue, Enqueued, Output.AllChunks;
    if chunks != [] {
      var e := Enqueue(t, c, chunks[0]);
      var x, y := Enqueued(t, c, chunks[0]), EnqueuedAll(e, c, chunks[1..]);
      var p, q := Output.AllChunks(t.app), Output.AllChunks(e.app);
      var r := Output.AllChunks(EnqueueAll(t, c, chunks).app);
      EnqueuedInOrder(t, c, chunks[0]);
      EnqueuedAllIs(e, c, chunks[1..]);
      MultisetSplits(x, q);
      MultisetSplits(chunks[0], p);
      MultisetSplits(x, y);
      MultisetSplits(chunks[0], Flat(chunks[1..]));
      Together(multiset(x), multiset(y), multiset(chunks[0]), multiset(Flat(chunks[1..])), multiset(p), multiset(q),
               multiset(r));
    }
  }

  lemma {:induction false} EnqueuedAllWriting(t: Transport, c: Limits, chunks: seq<Bytes>)
    requires t.writing
    ensures EnqueuedAll(t, c, chunks) == Flat(chunks)
    decreases |chunks|
  {
    if chunks != [] {
      EnqueuedAllWriting(Pushed(t, chunks[0]), c, chunks[1..]);
    }
  }

  /** A fetch offers just what the application gives up, each byte once. */
  lemma {:induction false} FetchedIs(t: Transport, c: Limits, i: nat)
    ensures multiset(Fetched(t, c, i)) + multiset(Output.AllChunks(Fetch(t, c, i).app))
         == multiset(Output.AllChunks(t.app))
    decreases |t.app|
  {
    hide EnqueueAll, EnqueuedAll;
    if MayFetch(t, c, i) {
      var s := t.(app := t.app[1..]);
      var e := EnqueueAll(s, c, t.app[0]);
      EnqueuedAllIs(s, c, t.app[0]);
      FetchedIs(e, c, i + 1);
      MultisetSplits(Flat(t.app[0]), Output.AllChunks(t.app[1..]));
      hide Output.AllChunks;
      var x, y := EnqueuedAll(s, c, t.app[0]), Fetched(e, c, i + 1);
      var q, r := Output.AllChunks(e.app), Output.AllChunks(Fetch(e, c, i + 1).app);
      MultisetSplits(x, y);
      Together(multiset(x), multiset(y), multiset(Flat(t.app[0])), multiset{}, multiset(Output.AllChunks(s.app)),
               multiset(q), multiset(r));
    }
  }

  /** While the write bit is set it offers the application's bytes in their order. */
  lemma FetchedIsInOrder(t: Transport, c: Limits)
    requires t.writing
    ensures Fetched(t, c, 0) + Output.AllChunks(Fetch(t, c, 0).app) == Output.AllChunks(t.app)
  {
    FetchWhileWriting(t, c, 0);
    FetchedInOrder(t, c, 0);
    FetchedSame(t, c, 0);
  }

  lemma {:induction false} FetchedSame(t: Transport, c: Limits, i: nat)
    requires t.writing
    ensures Fetched(t, c, i) == FetchedWriting(t, c, i)
    decreases |t.app|
  {
    if MayFetch(t, c, i) {
      var s := t.(app := t.app[1..]);
      EnqueueWhileWriting(s, c, t.app[0]);
      EnqueuedAllWriting(s, c, t.app[0]);
      FetchedSame(PushAll(s, t.app[0]), c, i + 1);
    }
  }
}
