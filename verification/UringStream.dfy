/** The io_uring stream transport: at most one vectored write is meant to be in flight, and the write bit of the mask
    says whether there is one. */
module UringStream {
  import opened ByteBuffers
  import opened ManagerResult
  import Output = StreamOutput

  type Buf = Output.Buf
  type Limits = Output.Limits

  /** `writes` are the buffers named by each outstanding vectored write, `polls` counts outstanding poll submissions and
      `room` free submission entries; `app` holds the chunks of each coming call of produce. */
  datatype Transport = Transport(
    queue: seq<Buf>, enqueued: nat, writing: bool, writes: seq<seq<Buf>>, polls: nat, room: nat, app: seq<seq<Bytes>>)

  datatype Result = Result(transport: Transport, verdict: Verdict)

  function Pushed(t: Transport, bytes: Bytes): Transport {
    t.(queue := t.queue + [Output.Buf(bytes, [])], enqueued := (t.enqueued + |bytes|) % SIZE_T)
  }

  function PushAll(t: Transport, chunks: seq<Bytes>): (r: Transport)
    ensures r == t.(queue := r.queue, enqueued := r.enqueued)
    ensures t.queue <= r.queue
    decreases |chunks|
  {
    if chunks == [] then t else PushAll(Pushed(t, chunks[0]), chunks[1..])
  }

  predicate MayFetch(t: Transport, c: Limits, i: nat) {
    && t.enqueued < c.maxEnqueuedBytes
    && i < c.maxFetches
    && t.app != []
  }

  // fetch_more_data() while the write bit is set: register_writing() does nothing.
  function FetchWriting(t: Transport, c: Limits, i: nat): (r: Transport)
    ensures r == t.(queue := r.queue, enqueued := r.enqueued, app := r.app)
    ensures t.queue <= r.queue
    ensures |r.app| <= |t.app|
    decreases |t.app|
  {
    if MayFetch(t, c, i) then FetchWriting(PushAll(t.(app := t.app[1..]), t.app[0]), c, i + 1) else t
  }

  predicate DoneWriting(t: Transport) {
    t.queue == [] && t.app == []
  }

  function SubmitWritev(t: Transport): Transport {
    if t.room == 0 then t else t.(writes := t.writes + [t.queue], room := t.room - 1)
  }

  // The multiplexer's enable(): the bit is set first and taken back unless a write was submitted.
  function EnableWriting(t: Transport, c: Limits): (r: Transport)
    ensures |r.app| <= |t.app|
  {
    var f := FetchWriting(t.(writing := true), c, 0);
    if DoneWriting(f) || f.room == 0 then f.(writing := false) else SubmitWritev(f)
  }

  function Enqueue(t: Transport, c: Limits, bytes: Bytes): (r: Transport)
    ensures |r.app| <= |t.app|
  {
    if t.writing then Pushed(t, bytes) else EnableWriting(Pushed(t, bytes), c)
  }

  function EnqueueAll(t: Transport, c: Limits, chunks: seq<Bytes>): (r: Transport)
    ensures |r.app| <= |t.app|
    decreases |chunks|
  {
    if chunks == [] then t else EnqueueAll(Enqueue(t, c, chunks[0]), c, chunks[1..])
  }

  // fetch_more_data(), whose enqueues may re-enter enable().
  function Fetch(t: Transport, c: Limits, i: nat): Transport
    decreases |t.app|
  {
    if MayFetch(t, c, i) then Fetch(EnqueueAll(t.(app := t.app[1..]), c, t.app[0]), c, i + 1) else t
  }

  // The end of handle_completion() for write and poll_write; whether the submission succeeds is not looked at.
  function Resume(t: Transport, c: Limits): Result {
    var f := Fetch(t, c, 0);
    if DoneWriting(f) then Result(f, Done) else Result(SubmitWritev(f), Ok)
  }

  datatype Step =
    | EnqueueStep(bytes: Bytes)
    | WriteCompletes(res: Output.WriteResult)
    | PollCompletes
    | Elapse(room: nat)
    | AppGains(call: seq<Bytes>)

  // The kernel completes the oldest write, having taken at most what it names.
  predicate ValidStep(t: Transport, step: Step) {
    match step
    case WriteCompletes(res) => t.writes != [] && (res.Accepted? ==> res.count <= |Output.View(t.writes[0])|)
    case PollCompletes => t.polls > 0
    case _ => true
  }

  function Wrote(t: Transport, n: nat): Transport {
    t.(queue := Output.Removed(t.queue, n), enqueued := (t.enqueued + SIZE_T - n % SIZE_T) % SIZE_T)
  }

  // handle_completion(operation::write, ...)
  function WriteCompletion(t: Transport, c: Limits, res: Output.WriteResult): Result {
    match res
    case WouldBlock =>
      Result(if t.room == 0 then t else t.(polls := t.polls + 1, room := t.room - 1), TemporaryError)
    case Failed => Result(t, Error)
    case Accepted(n) => Resume(Wrote(t, n), c)
  }

  // The multiplexer disables writing after done and after a temporary error; for a completed poll it would disable
  // poll_write, which no mask holds.
  function Next(t: Transport, c: Limits, step: Step): Result
    requires ValidStep(t, step)
  {
    match step
    case EnqueueStep(bytes) => Result(Enqueue(t, c, bytes), Ok)
    case WriteCompletes(res) =>
      var r := WriteCompletion(t.(writes := t.writes[1..]), c, res);
      if r.verdict == Done || r.verdict == TemporaryError then r.(transport := r.transport.(writing := false)) else r
    case PollCompletes => Resume(t.(polls := t.polls - 1), c)
    case Elapse(room) => Result(t.(room := room), Ok)
    case AppGains(call) => Result(t.(app := t.app + [call]), Ok)
  }

  // -- Single writer ----------------------------------------------------------

  // The write bit is set exactly when one write is outstanding, and that write names the head of the queue.
  predicate SingleWriter(t: Transport) {
    && (if t.writing then |t.writes| == 1 else t.writes == [])
    && (t.writes != [] ==> t.writes[0] <= t.queue)
  }

  lemma {:induction false} EnqueueWhileWriting(t: Transport, c: Limits, chunks: seq<Bytes>)
    requires t.writing
    ensures EnqueueAll(t, c, chunks) == PushAll(t, chunks)
    decreases |chunks|
  {
    if chunks != [] {
      EnqueueWhileWriting(Pushed(t, chunks[0]), c, chunks[1..]);
    }
  }

  /** With the write bit set, fetching never re-enters: enqueue() only queues. */
  lemma {:induction false} FetchWhileWriting(t: Transport, c: Limits, i: nat)
    requires t.writing
    ensures Fetch(t, c, i) == FetchWriting(t, c, i)
    decreases |t.app|
  {
    if MayFetch(t, c, i) {
      var t' := t.(app := t.app[1..]);
      EnqueueWhileWriting(t', c, t.app[0]);
      FetchWhileWriting(PushAll(t', t.app[0]), c, i + 1);
    }
  }

  /** Enqueueing keeps the single writer, whether or not the submission it may cause succeeds. */
  lemma EnqueueKeeps(t: Transport, c: Limits, bytes: Bytes)
    requires SingleWriter(t)
    ensures SingleWriter(Enqueue(t, c, bytes))
    ensures Enqueue(t, c, bytes).polls == t.polls
  {
    hide FetchWriting;
    var p := Pushed(t, bytes);
    assert t.queue <= p.queue;
    var f := FetchWriting(p.(writing := true), c, 0);
    assert f == p.(writing := true, queue := f.queue, enqueued := f.enqueued, app := f.app);
  }

  // Something is left to write after n bytes have been taken and the application was asked.
  predicate MoreToWrite(t: Transport, c: Limits, n: nat) {
    !DoneWriting(FetchWriting(Wrote(t, n), c, 0))
  }

  // A completed write whose successor cannot be submitted while there is more to write, or a completed poll that
  // submits a write of its own.
  predicate Breaks(t: Transport, c: Limits, step: Step)
    requires ValidStep(t, step)
  {
    match step
    case WriteCompletes(Accepted(n)) => t.room == 0 && MoreToWrite(t, c, n)
    case PollCompletes => var f := Fetch(t.(polls := t.polls - 1), c, 0); !DoneWriting(f) && f.room > 0
    case _ => false
  }

  /** One step keeps the write bit truthful exactly when it is none of the two that break it. A temporary error alone
      does not: the write is gone and the bit cleared. */
  lemma StepExactness(t: Transport, c: Limits, step: Step)
    requires SingleWriter(t) && ValidStep(t, step) && Next(t, c, step).verdict != Error
    ensures SingleWriter(Next(t, c, step).transport) <==> !Breaks(t, c, step)
  {
    hide FetchWriting, Fetch, Output.Removed;
    match step {
      case EnqueueStep(bytes) => EnqueueKeeps(t, c, bytes);
      case WriteCompletes(res) =>
        if res.Accepted? {
          CompletionExactness(t, c, res.count);
        }
      case PollCompletes => PollExactness(t, c);
      case Elapse(room) =>
      case AppGains(call) =>
    }
  }

  lemma CompletionExactness(t: Transport, c: Limits, n: nat)
    requires SingleWriter(t) && t.writes != [] && n <= |Output.View(t.writes[0])|
    ensures SingleWriter(Next(t, c, WriteCompletes(Output.Accepted(n))).transport)
       <==> t.room > 0 || !MoreToWrite(t, c, n)
  {
    hide FetchWriting, Fetch, Output.Removed;
    var w := Wrote(t.(writes := t.writes[1..]), n);
    FetchWhileWriting(w, c, 0);
    assert t.writes[1..] == [];
    SameFetch(Wrote(t, n), [], c, 0);
    var f := FetchWriting(w, c, 0);
    assert f.writing && f.writes == [] && f.room == t.room;
  }

  /** When the poll that follows a temporary error completes, whatever was enqueued in between, the write bit stays
      truthful exactly when nothing is left to write or no entry is left to submit with; two writes are in flight
      exactly when the bit was set again by an enqueue, before the completion or out of its own fetch. */
  lemma PollExactness(t: Transport, c: Limits)
    requires SingleWriter(t) && t.polls > 0
    ensures var f := Fetch(t.(polls := t.polls - 1), c, 0);
            var r := Next(t, c, PollCompletes).transport;
            && (SingleWriter(r) <==> DoneWriting(f) || f.room == 0)
            && (|r.writes| == 2 <==> !DoneWriting(f) && f.room > 0 && f.writing)
  {
    hide Fetch;
    var p := t.(polls := t.polls - 1);
    FetchSingle(p, c, 0);
  }

  lemma {:induction false} FetchSingle(t: Transport, c: Limits, i: nat)
    requires SingleWriter(t)
    ensures SingleWriter(Fetch(t, c, i))
    decreases |t.app|
  {
    hide EnqueueAll;
    if MayFetch(t, c, i) {
      EnqueueAllSingle(t.(app := t.app[1..]), c, t.app[0]);
      FetchSingle(EnqueueAll(t.(app := t.app[1..]), c, t.app[0]), c, i + 1);
    }
  }

  lemma {:induction false} EnqueueAllSingle(t: Transport, c: Limits, chunks: seq<Bytes>)
    requires SingleWriter(t)
    ensures SingleWriter(EnqueueAll(t, c, chunks))
    decreases |chunks|
  {
    hide SingleWriter, Enqueue;
    if chunks != [] {
      EnqueueKeeps(t, c, chunks[0]);
      EnqueueAllSingle(Enqueue(t, c, chunks[0]), c, chunks[1..]);
    }
  }

  // What is in flight does not influence fetching.
  lemma {:induction false} SameFetch(t: Transport, writes: seq<seq<Buf>>, c: Limits, i: nat)
    ensures FetchWriting(t.(writes := writes), c, i) == FetchWriting(t, c, i).(writes := writes)
    decreases |t.app|
  {
    if MayFetch(t, c, i) {
      SamePush(t.(app := t.app[1..]), writes, t.app[0]);
      SameFetch(PushAll(t.(app := t.app[1..]), t.app[0]), writes, c, i + 1);
    }
  }

  lemma {:induction false} SamePush(t: Transport, writes: seq<seq<Buf>>, chunks: seq<Bytes>)
    ensures PushAll(t.(writes := writes), chunks) == PushAll(t, chunks).(writes := writes)
    decreases |chunks|
  {
    if chunks != [] {
      SamePush(Pushed(t, chunks[0]), writes, chunks[1..]);
    }
  }

  predicate ValidRun(t: Transport, c: Limits, steps: seq<Step>)
    decreases |steps|
  {
    steps != [] ==>
      && ValidStep(t, steps[0]) && Next(t, c, steps[0]).verdict != Error
      && ValidRun(Next(t, c, steps[0]).transport, c, steps[1..])
  }

  predicate AlwaysSingle(t: Transport, c: Limits, steps: seq<Step>)
    requires ValidRun(t, c, steps)
    decreases |steps|
  {
    SingleWriter(t) && (steps != [] ==> AlwaysSingle(Next(t, c, steps[0]).transport, c, steps[1..]))
  }

  predicate NeverBreaks(t: Transport, c: Limits, steps: seq<Step>)
    requires ValidRun(t, c, steps)
    decreases |steps|
  {
    steps != [] ==> !Breaks(t, c, steps[0]) && NeverBreaks(Next(t, c, steps[0]).transport, c, steps[1..])
  }

  /** Over every run that meets no fatal error, despite enqueues re-entering from produce and consume: the write bit is
      set exactly when one write naming the head of the queue is outstanding, at every point of the run, if and only if
      no completed poll submits a write and no completed write fails to submit its successor. */
  lemma {:induction false} SingleWriterOverRuns(t: Transport, c: Limits, steps: seq<Step>)
    requires SingleWriter(t) && ValidRun(t, c, steps)
    ensures AlwaysSingle(t, c, steps) <==> NeverBreaks(t, c, steps)
    decreases |steps|
  {
    hide SingleWriter, Breaks, Next;
    if steps != [] {
      StepExactness(t, c, steps[0]);
      var t' := Next(t, c, steps[0]).transport;
      if SingleWriter(t') {
        SingleWriterOverRuns(t', c, steps[1..]);
      } else {
      }
    }
  }

  // -- What each step does ----------------------------------------------------

  // A fetch stops exactly at the limit of calls, when enough is enqueued or when there is no more.
  lemma {:induction false} FetchWritingStops(t: Transport, c: Limits, i: nat)
    ensures var r := FetchWriting(t, c, i);
            var n := |t.app| - |r.app|;
            && n >= 0
            && r.app == t.app[n..]
            && (i <= c.maxFetches ==> i + n <= c.maxFetches)
            && (i + n >= c.maxFetches || r.app == [] || r.enqueued >= c.maxEnqueuedBytes)
    decreases |t.app|
  {
    if MayFetch(t, c, i) {
      FetchWritingStops(PushAll(t.(app := t.app[1..]), t.app[0]), c, i + 1);
    }
  }

  /** While the write bit is set an enqueue only queues. With the bit clear it submits the whole queue in one write and
      sets the bit if an entry is free; otherwise nothing is submitted and the bit stays clear. */
  lemma EnqueueExactness(t: Transport, c: Limits, bytes: Bytes)
    ensures var r := Enqueue(t, c, bytes);
            && t.queue + [Output.Buf(bytes, [])] <= r.queue
            && r.polls == t.polls
            && (t.writing ==> r.writing && r.writes == t.writes && r.room == t.room && r.app == t.app
                              && r.queue == t.queue + [Output.Buf(bytes, [])])
            && (!t.writing && t.room > 0 ==> r.writing && r.writes == t.writes + [r.queue] && r.room == t.room - 1)
            && (!t.writing && t.room == 0 ==> !r.writing && r.writes == t.writes && r.room == 0)
  {
    hide FetchWriting;
    var p := Pushed(t, bytes);
    var f := FetchWriting(p.(writing := true), c, 0);
    assert f == p.(writing := true, queue := f.queue, enqueued := f.enqueued, app := f.app);
    assert p.queue <= f.queue && f.queue != [];
  }

  // What a write or poll that has completed is answered, and what is in flight then.
  predicate Resumed(f: Transport, o: Result) {
    && (o.verdict == Done <==> f.queue == [] && f.app == [])
    && (o.verdict == Done || o.verdict == Ok)
    && o.transport.writes == f.writes + (if o.verdict == Ok && f.room > 0 then [f.queue] else [])
    && o.transport.room == f.room - (if o.verdict == Ok && f.room > 0 then 1 else 0)
    && o.transport.queue == f.queue && o.transport.app == f.app && o.transport.polls == f.polls
  }

  /** After a write of n bytes these are gone from the queue, the application is asked, and what is left is submitted in
      one write; done is answered, and the bit cleared, exactly when nothing is left. A temporary error clears the bit
      and starts a poll if an entry is free. */
  lemma NextExactness(t: Transport, c: Limits, step: Step)
    requires SingleWriter(t) && ValidStep(t, step)
    ensures var o := Next(t, c, step);
            && (step.WriteCompletes? && step.res.WouldBlock? ==>
                  && o.verdict == TemporaryError && !o.transport.writing
                  && o.transport.queue == t.queue && o.transport.writes == []
                  && o.transport.polls == t.polls + (if t.room > 0 then 1 else 0))
            && (step.WriteCompletes? && step.res.Failed? ==> o.verdict == Error)
            && (step.WriteCompletes? && step.res.Accepted? ==>
                  && Resumed(FetchWriting(Wrote(t, step.res.count), c, 0).(writes := []), o)
                  && (o.transport.writing <==> o.verdict != Done))
            && (step.PollCompletes? ==>
                  var f := Fetch(t.(polls := t.polls - 1), c, 0);
                  Resumed(f, o) && o.transport.writing == f.writing)
            && (!step.WriteCompletes? && !step.PollCompletes? ==> o.verdict == Ok)
  {
    hide FetchWriting, Fetch, Output.Removed;
    if step.WriteCompletes? && step.res.Accepted? {
      assert t.writes[1..] == [];
      FetchWhileWriting(Wrote(t.(writes := []), step.res.count), c, 0);
      SameFetch(Wrote(t, step.res.count), [], c, 0);
    }
  }

  /** Two writes of the same head at once: a poll completes, the application still has a chunk, and its enqueue submits
      a write that the completion handler does not know of. */
  lemma TwoWritersExample(c: Limits, oldChunk: Bytes, newChunk: Bytes)
    requires c.maxFetches == 1 && c.maxEnqueuedBytes > |oldChunk| && |oldChunk| < SIZE_T
    ensures var o, n := Output.Buf(oldChunk, []), Output.Buf(newChunk, []);
            var t := Transport([o], |oldChunk|, true, [[o]], 0, 8, [[newChunk]]);
            var blocked := Next(t, c, WriteCompletes(Output.WouldBlock)).transport;
            && SingleWriter(t) && SingleWriter(blocked)
            && Next(blocked, c, PollCompletes).transport.writes == [[o, n], [o, n]]
  {
    hide FetchWriting;
    var o := Output.Buf(oldChunk, []);
    var t := Transport([o], |oldChunk|, true, [[o]], 0, 8, [[newChunk]]);
    var blocked := Next(t, c, WriteCompletes(Output.WouldBlock)).transport;
    assert blocked == Transport([Output.Buf(oldChunk, [])], |oldChunk|, false, [], 1, 7, [[newChunk]]);
    var p := blocked.(polls := 0, app := []);
    assert [[newChunk]][1..] == [] && [newChunk][1..] == [];
    var q := Pushed(p, newChunk);
    assert q.queue == [Output.Buf(oldChunk, []), Output.Buf(newChunk, [])];
    FetchDry(q.(writing := true), c, 0);
    var e := Enqueue(p, c, newChunk);
    assert e.writes == [q.queue] && e.room == 6 && e.app == [];
    assert EnqueueAll(p, c, [newChunk]) == EnqueueAll(e, c, []) == e;
    assert Fetch(blocked.(polls := 0), c, 0) == Fetch(e, c, 1) == e;
  }

  lemma FetchDry(t: Transport, c: Limits, i: nat)
    ensures t.app == [] ==> FetchWriting(t, c, i) == t
  {
  }

  // -- The transport ----------------------------------------------------------

  class StreamTransport {
    const limits: Limits
    var writeQueue: seq<Buf>
    var numEnqueuedBytes: nat
    var writing: bool
    var writes: seq<seq<Buf>>
    var polls: nat
    var room: nat
    var nextLayer: seq<seq<Bytes>>

    ghost function State(): Transport
      reads this
    {
      Transport(writeQueue, numEnqueuedBytes, writing, writes, polls, room, nextLayer)
    }

    constructor (limits: Limits, room: nat, app: seq<seq<Bytes>>)
      ensures this.limits == limits
      ensures State() == Transport([], 0, false, [], 0, room, app)
      ensures SingleWriter(State())
    {
      this.limits, this.room, nextLayer := limits, room, app;
      writeQueue, numEnqueuedBytes, writing, writes, polls := [], 0, false, [], 0;
    }

    method Submit() returns (success: bool)
      modifies this`writes, this`room
      ensures State() == SubmitWritev(old(State()))
      ensures success == (old(room) > 0)
    {
      success := room > 0;
      if success {
        writes, room := writes + [writeQueue], room - 1;
      }
    }

    method EnqueueBytes(bytes: Bytes)
      modifies this
      ensures State() == Enqueue(old(State()), limits, bytes)
      ensures old(writing) ==> writing
      decreases !writing, 2, 0
    {
      hide EnableWriting;
      numEnqueuedBytes := (numEnqueuedBytes + |bytes|) % SIZE_T;
      writeQueue := writeQueue + [Output.Buf(bytes, [])];
      if !writing {
        EnableWrite();
      }
    }

    // The multiplexer's enable() for operation::write, which calls the transport's.
    method EnableWrite()
      requires !writing
      modifies this
      ensures State() == EnableWriting(old(State()), limits)
      decreases !writing, 1, 0
    {
      hide FetchWriting, Fetch;
      writing := true;
      FetchWhileWriting(State(), limits, 0);
      FetchMoreData();
      if writeQueue == [] && nextLayer == [] {
        writing := false;
        return;
      }
      var success := Submit();
      if !success {
        writing := false;
      }
    }

    method FetchMoreData()
      modifies this
      ensures State() == Fetch(old(State()), limits, 0)
      ensures old(writing) ==> writing
      decreases !writing, 4, 0
    {
      ghost var t := State();
      var i := 0;
      while numEnqueuedBytes < limits.maxEnqueuedBytes && i < limits.maxFetches && nextLayer != []
        invariant i <= limits.maxFetches || i == 0
        invariant Fetch(State(), limits, i) == Fetch(t, limits, 0)
        invariant t.writing ==> writing
        decreases |nextLayer|
      {
        ProduceMore();
        i := i + 1;
      }
    }

    // The next layer's produce.
    method ProduceMore()
      requires nextLayer != []
      modifies this
      ensures State() == EnqueueAll(old(State()).(app := old(nextLayer)[1..]), limits, old(nextLayer)[0])
      ensures old(writing) ==> writing
      ensures |nextLayer| < |old(nextLayer)|
      decreases !writing, 3, 0
    {
      hide Enqueue;
      var chunks := nextLayer[0];
      nextLayer := nextLayer[1..];
      ghost var t := State();
      for i := 0 to |chunks|
        invariant EnqueueAll(State(), limits, chunks[i..]) == EnqueueAll(t, limits, chunks)
        invariant t.writing ==> writing
        invariant |nextLayer| <= |t.app|
      {
        EnqueueBytes(chunks[i]);
        assert chunks[i..][1..] == chunks[i + 1..];
      }
      assert chunks[|chunks|..] == [];
    }

    // handle_completion for operation::write, after the kernel has retired the submission.
    method HandleWriteCompletion(res: Output.WriteResult) returns (verdict: Verdict)
      modifies this
      ensures Result(State(), verdict) == WriteCompletion(old(State()), limits, res)
    {
      match res {
        case WouldBlock =>
          if room > 0 {
            polls, room := polls + 1, room - 1;
          }
          verdict := TemporaryError;
        case Failed =>
          verdict := Error;
        case Accepted(n) =>
          hide Resume;
          writeQueue := Output.Removed(writeQueue, n);
          numEnqueuedBytes := (numEnqueuedBytes + SIZE_T - n % SIZE_T) % SIZE_T;
          verdict := HandlePollCompletion();
      }
    }

    // handle_completion for operation::poll_write, where a completed write falls through to.
    method HandlePollCompletion() returns (verdict: Verdict)
      modifies this
      ensures Result(State(), verdict) == Resume(old(State()), limits)
    {
      hide Fetch;
      FetchMoreData();
      if writeQueue == [] && nextLayer == [] {
        return Done;
      }
      var _ := Submit();
      verdict := Ok;
    }
  }
}
