/** The io_uring datagram transport: a queue of datagrams, each submitted on its own, whose completions arrive in
    any order and are matched by submission id. */
module UringDatagram {
  import opened ByteBuffers
  import opened ManagerResult

  datatype Payload = Payload(bytes: Bytes, endpoint: nat)

  // id keeps its default 0 until the first submission, and its last value after a temporary error.
  datatype Datagram = Datagram(payload: Payload, id: nat, submitted: bool)

  datatype Limits = Limits(maxEnqueuedBytes: nat, maxConsecutiveFetches: nat)

  /** `outstanding` is what the kernel is sending, by submission id; `room` counts free submission entries; `polls`
      counts outstanding poll submissions; `app` is what the next layer will enqueue, call by call. */
  datatype Transport = Transport(
    queue: seq<Datagram>,
    bytes: int,
    writing: bool,
    nextId: nat,
    room: nat,
    outstanding: map<nat, Payload>,
    polls: nat,
    app: seq<seq<Payload>>,
    enqueued: multiset<Payload>,
    sent: multiset<Payload>)

  datatype Outcome = Outcome(transport: Transport, verdict: Verdict)

  // -- Submitting -------------------------------------------------------------

  function SubmitOne(t: Transport, i: nat): Transport
    requires i < |t.queue| && t.room > 0
  {
    t.(queue := t.queue[i := Datagram(t.queue[i].payload, t.nextId, true)],
       outstanding := t.outstanding[t.nextId := t.queue[i].payload],
       nextId := t.nextId + 1, room := t.room - 1)
  }

  // The loop of submit_datagrams() from datagram i on.
  function SubmitFrom(t: Transport, i: nat): Outcome
    requires i <= |t.queue|
    decreases |t.queue| - i
  {
    if i == |t.queue| then Outcome(t, Ok)
    else if t.queue[i].submitted then SubmitFrom(t, i + 1)
    else if t.room == 0 then Outcome(t, Error)
    else SubmitFrom(SubmitOne(t, i), i + 1)
  }

  function Pushed(t: Transport, p: Payload): Transport {
    t.(queue := t.queue + [Datagram(p, 0, false)], bytes := t.bytes + |p.bytes|, enqueued := t.enqueued + multiset{p})
  }

  predicate DoneWriting(t: Transport) {
    t.queue == [] && t.app == []
  }

  function SubmitAll(t: Transport): Outcome {
    if DoneWriting(t) then Outcome(t, Done) else SubmitFrom(t, 0)
  }

  // While the write bit is set, register_writing() does nothing and enqueue() only queues.
  function PushAll(t: Transport, ps: seq<Payload>): Transport
    decreases |ps|
  {
    if ps == [] then t else PushAll(Pushed(t, ps[0]), ps[1..])
  }

  function FetchWriting(t: Transport, limits: Limits, i: nat): Transport
    decreases |t.app|
  {
    if t.bytes < limits.maxEnqueuedBytes && i < limits.maxConsecutiveFetches && t.app != [] then
      AppShrinks(t.(app := t.app[1..]), t.app[0]);
      FetchWriting(PushAll(t.(app := t.app[1..]), t.app[0]), limits, i + 1)
    else t
  }

  lemma {:induction false} AppShrinks(t: Transport, ps: seq<Payload>)
    ensures PushAll(t, ps).app == t.app
    ensures PushAll(t, ps).writing == t.writing
    decreases |ps|
  {
    if ps != [] {
      AppShrinks(Pushed(t, ps[0]), ps[1..]);
    }
  }

  // enable(operation::write): the bit is set first and taken back unless something was submitted.
  function EnableWriting(t: Transport, limits: Limits): Transport {
    var o := SubmitAll(FetchWriting(t.(writing := true), limits, 0));
    if o.verdict == Ok then o.transport else o.transport.(writing := false)
  }

  function Enqueue(t: Transport, limits: Limits, p: Payload): Transport {
    if t.writing then Pushed(t, p) else EnableWriting(Pushed(t, p), limits)
  }

  function EnqueueAll(t: Transport, limits: Limits, ps: seq<Payload>): Transport
    decreases |ps|
  {
    if ps == [] then t else EnqueueAll(Enqueue(t, limits, ps[0]), limits, ps[1..])
  }

  // fetch_more_data(), whose enqueues may re-enter submit_datagrams().
  function Fetch(t: Transport, limits: Limits, i: nat): Transport
    decreases |t.app|
  {
    if t.bytes < limits.maxEnqueuedBytes && i < limits.maxConsecutiveFetches && t.app != [] then
      EnqueueShrinks(t.(app := t.app[1..]), limits, t.app[0]);
      Fetch(EnqueueAll(t.(app := t.app[1..]), limits, t.app[0]), limits, i + 1)
    else t
  }

  // submit_datagrams()
  function Submit(t: Transport, limits: Limits): Outcome {
    SubmitAll(Fetch(t, limits, 0))
  }

  lemma {:induction false} FetchWritingShrinks(t: Transport, limits: Limits, i: nat)
    ensures |FetchWriting(t, limits, i).app| <= |t.app|
    ensures FetchWriting(t, limits, i).writing == t.writing
    decreases |t.app|
  {
    if t.bytes < limits.maxEnqueuedBytes && i < limits.maxConsecutiveFetches && t.app != [] {
      AppShrinks(t.(app := t.app[1..]), t.app[0]);
      FetchWritingShrinks(PushAll(t.(app := t.app[1..]), t.app[0]), limits, i + 1);
    }
  }

  lemma {:induction false} SubmitFromKeepsApp(t: Transport, i: nat)
    requires i <= |t.queue|
    ensures SubmitFrom(t, i).transport.app == t.app
    ensures SubmitFrom(t, i).transport.writing == t.writing
    decreases |t.queue| - i
  {
    if i < |t.queue| {
      if t.queue[i].submitted {
        SubmitFromKeepsApp(t, i + 1);
      } else if t.room > 0 {
        SubmitFromKeepsApp(SubmitOne(t, i), i + 1);
      }
    }
  }

  lemma EnableShrinks(t: Transport, limits: Limits)
    ensures |EnableWriting(t, limits).app| <= |t.app|
  {
    FetchWritingShrinks(t.(writing := true), limits, 0);
    SubmitFromKeepsApp(FetchWriting(t.(writing := true), limits, 0), 0);
  }

  lemma {:induction false} EnqueueShrinks(t: Transport, limits: Limits, ps: seq<Payload>)
    ensures |EnqueueAll(t, limits, ps).app| <= |t.app|
    decreases |ps|
  {
    if ps != [] {
      EnableShrinks(Pushed(t, ps[0]), limits);
      EnqueueShrinks(Enqueue(t, limits, ps[0]), limits, ps[1..]);
    }
  }

  /** A datagram enqueued makes the transport ask its application for more, there and then, exactly when the write bit
      is clear and a fetch is allowed. */
  lemma EnqueueAsks(t: Transport, limits: Limits, p: Payload)
    ensures Enqueue(t, limits, p).app != t.app
            <==> && !t.writing
                 && t.app != []
                 && t.bytes + |p.bytes| < limits.maxEnqueuedBytes
                 && limits.maxConsecutiveFetches > 0
  {
    if !t.writing {
      var w := Pushed(t, p).(writing := true);
      SubmitFromKeepsApp(FetchWriting(w, limits, 0), 0);
      if w.bytes < limits.maxEnqueuedBytes && limits.maxConsecutiveFetches > 0 && w.app != [] {
        var asked := PushAll(w.(app := w.app[1..]), w.app[0]);
        AppShrinks(w.(app := w.app[1..]), w.app[0]);
        FetchWritingShrinks(asked, limits, 1);
        assert FetchWriting(w, limits, 0) == FetchWriting(asked, limits, 1);
        assert |FetchWriting(w, limits, 0).app| < |t.app|;
      }
    }
  }

  // -- Who is submitted -------------------------------------------------------

  // The datagrams from i on that have not been submitted, in queue order.
  function Waiting(queue: seq<Datagram>, i: nat): (u: seq<nat>)
    requires i <= |queue|
    ensures forall j :: 0 <= j < |u| ==> i <= u[j] < |queue| && !queue[u[j]].submitted
    ensures forall k :: i <= k < |queue| && !queue[k].submitted ==> k in u
    ensures forall j, k :: 0 <= j < k < |u| ==> u[j] < u[k]
    decreases |queue| - i
  {
    if i == |queue| then []
    else if queue[i].submitted then Waiting(queue, i + 1)
    else [i] + Waiting(queue, i + 1)
  }

  lemma {:induction false} WaitingBehind(q: seq<Datagram>, r: seq<Datagram>, i: nat)
    requires |q| == |r| && i <= |q| && q[i..] == r[i..]
    ensures Waiting(q, i) == Waiting(r, i)
    decreases |q| - i
  {
    if i < |q| {
      assert q[i] == q[i..][0] == r[i..][0] == r[i];
      assert q[i + 1..] == q[i..][1..] == r[i..][1..] == r[i + 1..];
      WaitingBehind(q, r, i + 1);
    }
  }

  // The first k datagrams of u are marked, in that order under the ids from `id` on; the others are as they were.
  ghost predicate Marked(q: seq<Datagram>, r: seq<Datagram>, u: seq<nat>, k: nat, id: nat)
    requires k <= |u|
  {
    && |r| == |q|
    && (forall j :: 0 <= j < |u| ==> u[j] < |q|)
    && (forall j :: 0 <= j < k ==> r[u[j]] == Datagram(q[u[j]].payload, id + j, true))
    && (forall i :: 0 <= i < |q| && i !in u[..k] ==> r[i] == q[i])
  }

  // Their payloads are on the way under those ids, beside what was.
  ghost predicate Sent(q: seq<Datagram>, o: map<nat, Payload>, r: map<nat, Payload>, u: seq<nat>, k: nat, id: nat)
    requires k <= |u| && forall j :: 0 <= j < |u| ==> u[j] < |q|
  {
    && (forall x :: x in r <==> x in o || id <= x < id + k)
    && (forall x :: x in o && !(id <= x < id + k) ==> r[x] == o[x])
    && (forall x :: id <= x < id + k ==> r[x] == q[u[x - id]].payload)
  }

  ghost predicate Submitted(t: Transport, r: Transport, u: seq<nat>, k: nat)
    requires k <= |u|
  {
    && Marked(t.queue, r.queue, u, k, t.nextId)
    && Sent(t.queue, t.outstanding, r.outstanding, u, k, t.nextId)
    && r == t.(queue := r.queue, outstanding := r.outstanding, nextId := t.nextId + k, room := r.room)
    && r.room + k == t.room
  }

  lemma MarkedFirst(q: seq<Datagram>, r: seq<Datagram>, i: nat, u: seq<nat>, k: nat, id: nat)
    requires i < |q| && k <= |u| && forall j :: 0 <= j < |u| ==> i < u[j]
    requires Marked(q[i := Datagram(q[i].payload, id, true)], r, u, k, id + 1)
    ensures Marked(q, r, [i] + u, k + 1, id)
  {
    var v := [i] + u;
    var s := q[i := Datagram(q[i].payload, id, true)];
    assert v[..k + 1] == [i] + u[..k];
    assert r[i] == s[i];
    forall j | 0 < j < k + 1 ensures r[v[j]] == Datagram(q[v[j]].payload, id + j, true) {
      assert v[j] == u[j - 1];
    }
    forall x | 0 <= x < |q| && x !in v[..k + 1] ensures r[x] == q[x] {
      assert i in v[..k + 1] by {
        assert v[..k + 1][0] == i;
      }
      assert x !in u[..k];
    }
  }

  lemma SentFirst(
    q: seq<Datagram>, o: map<nat, Payload>, r: map<nat, Payload>, i: nat, u: seq<nat>, k: nat, id: nat)
    requires i < |q| && k <= |u| && forall j :: 0 <= j < |u| ==> i < u[j] < |q|
    requires Sent(q[i := Datagram(q[i].payload, id, true)], o[id := q[i].payload], r, u, k, id + 1)
    ensures Sent(q, o, r, [i] + u, k + 1, id)
  {
    var v := [i] + u;
    forall x | id <= x < id + k + 1 ensures x in r && r[x] == q[v[x - id]].payload {
      if x > id {
        assert v[x - id] == u[x - id - 1];
      }
    }
  }

  lemma SubmittedFirst(t: Transport, i: nat, r: Transport, u: seq<nat>, k: nat)
    requires i < |t.queue| && t.room > 0 && k <= |u| && Submitted(SubmitOne(t, i), r, u, k)
    requires forall j :: 0 <= j < |u| ==> i < u[j]
    ensures Submitted(t, r, [i] + u, k + 1)
  {
    hide Marked, Sent;
    MarkedBounds(SubmitOne(t, i).queue, r.queue, u, k, t.nextId + 1);
    MarkedFirst(t.queue, r.queue, i, u, k, t.nextId);
    SentFirst(t.queue, t.outstanding, r.outstanding, i, u, k, t.nextId);
    MarkedBounds(t.queue, r.queue, [i] + u, k + 1, t.nextId);
  }

  lemma MarkedBounds(q: seq<Datagram>, r: seq<Datagram>, u: seq<nat>, k: nat, id: nat)
    requires k <= |u| && Marked(q, r, u, k, id)
    ensures forall j :: 0 <= j < |u| ==> u[j] < |q|
  {
  }

  /** The loop submits exactly the waiting datagrams, in queue order under ids in order, as far as free entries go, and
      answers an error exactly when those do not suffice. */
  lemma {:induction false} SubmitFromExactness(t: Transport, i: nat)
    requires i <= |t.queue|
    ensures var o := SubmitFrom(t, i);
            var u := Waiting(t.queue, i);
            && o.verdict == (if |u| <= t.room then Ok else Error)
            && Submitted(t, o.transport, u, if |u| <= t.room then |u| else t.room)
    decreases |t.queue| - i
  {
    hide Submitted, SubmitOne, Waiting;
    WaitingUnfolds(t.queue, i);
    if i == |t.queue| {
      SubmittedNone(t, []);
    } else if t.queue[i].submitted {
      SubmitFromExactness(t, i + 1);
    } else {
      var u := Waiting(t.queue, i + 1);
      if t.room == 0 {
        SubmittedNone(t, [i] + u);
      } else {
        var s := SubmitOne(t, i);
        SubmitOneShape(t, i);
        WaitingBehind(t.queue, s.queue, i + 1);
        SubmitFromExactness(s, i + 1);
        SubmittedFirst(t, i, SubmitFrom(s, i + 1).transport, u, if |u| <= s.room then |u| else s.room);
      }
    }
  }

  lemma WaitingUnfolds(q: seq<Datagram>, i: nat)
    requires i <= |q|
    ensures Waiting(q, i) == if i == |q| then []
                             else if q[i].submitted then Waiting(q, i + 1)
                             else [i] + Waiting(q, i + 1)
  {
  }

  lemma SubmittedNone(t: Transport, u: seq<nat>)
    requires forall j :: 0 <= j < |u| ==> u[j] < |t.queue|
    ensures Submitted(t, t, u, 0)
  {
  }

  lemma SubmitOneShape(t: Transport, i: nat)
    requires i < |t.queue| && t.room > 0
    ensures var s := SubmitOne(t, i);
            && |s.queue| == |t.queue| && s.room == t.room - 1
            && s.queue[i + 1..] == t.queue[i + 1..]
  {
  }

  // -- What an enqueue does ---------------------------------------------------

  lemma {:induction false} PushAllAppends(t: Transport, ps: seq<Payload>)
    ensures var r := PushAll(t, ps);
            && t.queue <= r.queue
            && (forall i :: |t.queue| <= i < |r.queue| ==> !r.queue[i].submitted)
            && r == t.(queue := r.queue, bytes := r.bytes, enqueued := t.enqueued + multiset(ps))
    decreases |ps|
  {
    if ps == [] {
      assert t.enqueued + multiset(ps) == t.enqueued;
    } else {
      PushAllAppends(Pushed(t, ps[0]), ps[1..]);
      assert ps == [ps[0]] + ps[1..];
      assert t.enqueued + multiset{ps[0]} + multiset(ps[1..]) == t.enqueued + multiset(ps);
    }
  }

  function AppPayloads(app: seq<seq<Payload>>): multiset<Payload> {
    if app == [] then multiset{} else multiset(app[0]) + AppPayloads(app[1..])
  }

  lemma AppTaken(enqueued: multiset<Payload>, app: seq<seq<Payload>>)
    requires app != []
    ensures enqueued + multiset(app[0]) + AppPayloads(app[1..]) == enqueued + AppPayloads(app)
  {
  }

  lemma {:induction false} FetchWritingAppends(t: Transport, limits: Limits, i: nat)
    ensures var r := FetchWriting(t, limits, i);
            && t.queue <= r.queue
            && (forall j :: |t.queue| <= j < |r.queue| ==> !r.queue[j].submitted)
            && r == t.(queue := r.queue, bytes := r.bytes, app := r.app, enqueued := r.enqueued)
            && r.enqueued + AppPayloads(r.app) == t.enqueued + AppPayloads(t.app)
    decreases |t.app|
  {
    hide PushAll, AppPayloads;
    if t.bytes < limits.maxEnqueuedBytes && i < limits.maxConsecutiveFetches && t.app != [] {
      var s := t.(app := t.app[1..]);
      AppShrinks(s, t.app[0]);
      PushAllAppends(s, t.app[0]);
      FetchWritingAppends(PushAll(s, t.app[0]), limits, i + 1);
      AppTaken(t.enqueued, t.app);
    }
  }

  /** While the write bit is set an enqueue only queues. With the bit clear it fetches, and then submits everything that
      waits, itself included, if the free entries suffice; the bit stays set exactly then. */
  lemma EnqueueExactness(t: Transport, limits: Limits, p: Payload)
    ensures t.writing ==> Enqueue(t, limits, p) == Pushed(t, p)
    ensures !t.writing ==>
              var f := FetchWriting(Pushed(t, p).(writing := true), limits, 0);
              var r := Enqueue(t, limits, p);
              var u := Waiting(f.queue, 0);
              && t.queue + [Datagram(p, 0, false)] <= f.queue
              && (r.writing <==> |u| <= t.room)
              && Submitted(f.(writing := r.writing), r, u, if |u| <= t.room then |u| else t.room)
              && (r.writing ==> exists id :: id in r.outstanding && r.outstanding[id] == p)
  {
    if !t.writing {
      hide FetchWriting, SubmitFrom, Waiting, Submitted;
      var w := Pushed(t, p).(writing := true);
      FetchWritingAppends(w, limits, 0);
      var f := FetchWriting(w, limits, 0);
      assert w.queue == t.queue + [Datagram(p, 0, false)] <= f.queue && f.room == t.room;
      assert w.queue[|t.queue|] == f.queue[|t.queue|] == Datagram(p, 0, false);
      SubmitFromExactness(f, 0);
      var u := Waiting(f.queue, 0);
      var o := SubmitFrom(f, 0).transport;
      SubmitFromKeepsApp(f, 0);
      BitAside(f, o, u, if |u| <= t.room then |u| else t.room, |u| <= t.room);
      if |u| <= t.room {
        var j :| 0 <= j < |u| && u[j] == |t.queue|;
        OnItsWay(f, o, u, j);
      }
    }
  }

  lemma OnItsWay(t: Transport, r: Transport, u: seq<nat>, j: nat)
    requires j < |u| && Submitted(t, r, u, |u|)
    ensures u[j] < |t.queue|
    ensures t.nextId + j in r.outstanding && r.outstanding[t.nextId + j] == t.queue[u[j]].payload
  {
  }

  lemma BitAside(t: Transport, r: Transport, u: seq<nat>, k: nat, bit: bool)
    requires k <= |u| && Submitted(t, r, u, k)
    ensures Submitted(t.(writing := bit), r.(writing := bit), u, k)
  {
  }

  // -- Completions ------------------------------------------------------------

  datatype Written = Wrote(count: nat) | Failed(temporary: bool)

  // The first datagram with the id, or the end of the queue.
  function Find(queue: seq<Datagram>, id: nat): (i: nat)
    ensures i <= |queue| && (i < |queue| ==> queue[i].id == id)
    ensures forall j :: 0 <= j < i ==> queue[j].id != id
  {
    if queue == [] || queue[0].id == id then 0 else Find(queue[1..], id) + 1
  }

  // The kernel is done with a submission; a success sent what had been submitted.
  function Retired(t: Transport, id: nat, res: Written): Transport
    requires id in t.outstanding
  {
    t.(outstanding := t.outstanding - {id},
       sent := if res.Wrote? then t.sent + multiset{t.outstanding[id]} else t.sent)
  }

  function SubmitPoll(t: Transport): Transport {
    if t.room == 0 then t else t.(nextId := t.nextId + 1, room := t.room - 1, polls := t.polls + 1)
  }

  // handle_completion(operation::write, ...)
  function WriteCompletion(t: Transport, limits: Limits, id: nat, res: Written): Outcome {
    var i := Find(t.queue, id);
    if i == |t.queue| then Outcome(t, Error)
    else
      match res
      case Failed(true) =>
        Outcome(SubmitPoll(t.(queue := t.queue[i := t.queue[i].(submitted := false)])), TemporaryError)
      case Failed(false) => Outcome(t, Error)
      case Wrote(count) =>
        if count < |t.queue[i].payload.bytes| then Outcome(t, Error)
        else Submit(Removed(t, i), limits)
  }

  function Removed(t: Transport, i: nat): Transport
    requires i < |t.queue|
  {
    t.(queue := t.queue[..i] + t.queue[i + 1..], bytes := t.bytes - |t.queue[i].payload.bytes|)
  }

  // The multiplexer disables writing after done and after a temporary error; for a completed poll it would disable
  // poll_write, which no mask holds.
  function Answered(o: Outcome): Outcome {
    if o.verdict == Done || o.verdict == TemporaryError then Outcome(o.transport.(writing := false), o.verdict) else o
  }

  datatype Step =
    | EnqueueStep(payload: Payload)
    | SendCompletes(id: nat, res: Written)
    | PollCompletes
    | Elapse(ids: nat, room: nat)
    | AppGains(call: seq<Payload>)

  // Completions are for outstanding submissions, and no send writes more than there is.
  predicate ValidStep(t: Transport, step: Step) {
    match step
    case SendCompletes(id, res) => id in t.outstanding && (res.Wrote? ==> res.count <= |t.outstanding[id].bytes|)
    case PollCompletes => t.polls > 0
    case _ => true
  }

  function Next(t: Transport, limits: Limits, step: Step): Outcome
    requires ValidStep(t, step)
  {
    match step
    case EnqueueStep(p) => Outcome(Enqueue(t, limits, p), Ok)
    case SendCompletes(id, res) => Answered(WriteCompletion(Retired(t, id, res), limits, id, res))
    case PollCompletes => Submit(t.(polls := t.polls - 1), limits)
    case Elapse(ids, room) => Outcome(t.(nextId := t.nextId + ids, room := room), Ok)
    case AppGains(call) => Outcome(t.(app := t.app + [call]), Ok)
  }

  // -- The bookkeeping invariant ----------------------------------------------

  function Total(queue: seq<Datagram>): nat {
    if queue == [] then 0 else |queue[0].payload.bytes| + Total(queue[1..])
  }

  function Payloads(queue: seq<Datagram>): multiset<Payload> {
    if queue == [] then multiset{} else multiset{queue[0].payload} + Payloads(queue[1..])
  }

  lemma {:induction false} Splits(a: seq<Datagram>, b: seq<Datagram>)
    ensures Total(a + b) == Total(a) + Total(b)
    ensures Payloads(a + b) == Payloads(a) + Payloads(b)
  {
    if a == [] {
      assert a + b == b;
    } else {
      assert (a + b)[1..] == a[1..] + b;
      Splits(a[1..], b);
    }
  }

  lemma SplitAt(queue: seq<Datagram>, i: nat)
    requires i < |queue|
    ensures Total(queue) == Total(queue[..i]) + |queue[i].payload.bytes| + Total(queue[i + 1..])
    ensures Payloads(queue) == Payloads(queue[..i]) + multiset{queue[i].payload} + Payloads(queue[i + 1..])
  {
    assert queue == queue[..i] + queue[i..];
    Splits(queue[..i], queue[i..]);
    assert queue[i..][1..] == queue[i + 1..];
  }

  // Replacing flags and ids changes neither total nor contents.
  lemma SamePayload(queue: seq<Datagram>, i: nat, d: Datagram)
    requires i < |queue| && d.payload == queue[i].payload
    ensures Total(queue[i := d]) == Total(queue)
    ensures Payloads(queue[i := d]) == Payloads(queue)
  {
    SplitAt(queue, i);
    SplitAt(queue[i := d], i);
    assert queue[i := d][..i] == queue[..i] && queue[i := d][i + 1..] == queue[i + 1..];
  }

  // Datagram i carries the id, and no other one does.
  predicate Carries(queue: seq<Datagram>, id: nat, i: nat) {
    && i < |queue|
    && queue[i].id == id
    && forall j :: 0 <= j < |queue| && j != i ==> queue[j].id != id
  }

  // A datagram is marked exactly while it is outstanding, with its contents; every outstanding id is carried by one
  // datagram, is below the next one and is not the default.
  ghost predicate Matched(queue: seq<Datagram>, outstanding: map<nat, Payload>, nextId: nat) {
    && (forall i :: 0 <= i < |queue| ==>
          queue[i].id < nextId
          && (if queue[i].submitted then queue[i].id in outstanding && outstanding[queue[i].id] == queue[i].payload
              else queue[i].id !in outstanding))
    && (forall id :: id in outstanding ==>
          0 < id < nextId && exists i: nat :: Carries(queue, id, i))
  }

  predicate Counted(t: Transport) {
    && t.bytes == Total(t.queue)
    && t.enqueued == t.sent + Payloads(t.queue)
  }

  ghost predicate Inv(t: Transport) {
    && t.nextId > 0
    && Matched(t.queue, t.outstanding, t.nextId)
    && Counted(t)
  }

  // Between events, a set write bit means that a completion is still to come.
  predicate Awaited(t: Transport) {
    t.writing ==> t.outstanding != map[]
  }

  /** Whatever the order of completions, the search finds the very datagram that was submitted under the id. */
  lemma CompletionMatches(t: Transport, id: nat)
    requires Inv(t) && id in t.outstanding
    ensures var i := Find(t.queue, id);
            && i < |t.queue|
            && t.queue[i].submitted
            && t.queue[i].payload == t.outstanding[id]
            && forall j :: 0 <= j < |t.queue| && t.queue[j].id == id ==> j == i
  {
    var k: nat :| Carries(t.queue, id, k);
    assert Find(t.queue, id) == k;
  }

  lemma SubmitMatches(queue: seq<Datagram>, outstanding: map<nat, Payload>, nextId: nat, i: nat)
    requires Matched(queue, outstanding, nextId) && nextId > 0 && i < |queue| && !queue[i].submitted
    ensures Matched(queue[i := Datagram(queue[i].payload, nextId, true)],
                    outstanding[nextId := queue[i].payload], nextId + 1)
  {
    var q := queue[i := Datagram(queue[i].payload, nextId, true)];
    assert Carries(q, nextId, i);
    forall id | id in outstanding ensures exists j: nat :: Carries(q, id, j) {
      var j: nat :| Carries(queue, id, j);
      assert Carries(q, id, j);
    }
  }

  lemma SubmitOneKeeps(t: Transport, i: nat)
    requires Inv(t) && i < |t.queue| && t.room > 0 && !t.queue[i].submitted
    ensures Inv(SubmitOne(t, i))
  {
    SubmitMatches(t.queue, t.outstanding, t.nextId, i);
    hide Matched;
    SamePayload(t.queue, i, Datagram(t.queue[i].payload, t.nextId, true));
  }

  lemma PushMatches(queue: seq<Datagram>, outstanding: map<nat, Payload>, nextId: nat, p: Payload)
    requires Matched(queue, outstanding, nextId) && nextId > 0
    ensures Matched(queue + [Datagram(p, 0, false)], outstanding, nextId)
  {
    var q := queue + [Datagram(p, 0, false)];
    forall id | id in outstanding ensures exists j: nat :: Carries(q, id, j) {
      var j: nat :| Carries(queue, id, j);
      assert Carries(q, id, j);
    }
  }

  lemma PushedKeeps(t: Transport, p: Payload)
    requires Inv(t)
    ensures Inv(Pushed(t, p))
  {
    PushMatches(t.queue, t.outstanding, t.nextId, p);
    hide Matched;
    var d := Datagram(p, 0, false);
    Splits(t.queue, [d]);
    assert Payloads([d]) == multiset{p} + Payloads([]);
    assert Total([d]) == |p.bytes| + Total([]);
  }

  predicate AllSubmitted(queue: seq<Datagram>, n: nat)
    requires n <= |queue|
  {
    forall j :: 0 <= j < n ==> queue[j].submitted
  }

  lemma {:induction false} SubmitFromKeeps(t: Transport, i: nat)
    requires Inv(t) && i <= |t.queue| && AllSubmitted(t.queue, i)
    ensures var o := SubmitFrom(t, i);
            && Inv(o.transport)
            && (o.verdict == Ok || o.verdict == Error)
            && |o.transport.queue| == |t.queue|
            && (o.verdict == Ok ==> AllSubmitted(o.transport.queue, |t.queue|))
            && t.outstanding.Keys <= o.transport.outstanding.Keys
    decreases |t.queue| - i
  {
    hide Inv;
    if i < |t.queue| {
      if t.queue[i].submitted {
        SubmitFromKeeps(t, i + 1);
      } else if t.room > 0 {
        SubmitOneKeeps(t, i);
        SubmitFromKeeps(SubmitOne(t, i), i + 1);
      }
    }
  }

  lemma {:induction false} PushAllKeeps(t: Transport, ps: seq<Payload>)
    requires Inv(t)
    ensures Inv(PushAll(t, ps))
    ensures |t.queue| + |ps| == |PushAll(t, ps).queue|
    ensures PushAll(t, ps).outstanding == t.outstanding
    decreases |ps|
  {
    hide Inv;
    if ps != [] {
      PushedKeeps(t, ps[0]);
      PushAllKeeps(Pushed(t, ps[0]), ps[1..]);
    }
  }

  // The application changes without the transport noticing.
  lemma OtherFields(t: Transport, app: seq<seq<Payload>>, writing: bool, polls: nat)
    ensures Inv(t) ==> Inv(t.(app := app, writing := writing, polls := polls))
  {
  }

  lemma {:induction false} FetchWritingKeeps(t: Transport, limits: Limits, i: nat)
    requires Inv(t)
    ensures Inv(FetchWriting(t, limits, i))
    ensures |t.queue| <= |FetchWriting(t, limits, i).queue|
    ensures FetchWriting(t, limits, i).outstanding == t.outstanding
    decreases |t.app|
  {
    hide Inv, PushAll;
    if t.bytes < limits.maxEnqueuedBytes && i < limits.maxConsecutiveFetches && t.app != [] {
      var t' := t.(app := t.app[1..]);
      AppShrinks(t', t.app[0]);
      OtherFields(t, t.app[1..], t.writing, t.polls);
      PushAllKeeps(t', t.app[0]);
      FetchWritingKeeps(PushAll(t', t.app[0]), limits, i + 1);
    }
  }

  lemma FirstIsOutstanding(t: Transport)
    ensures Inv(t) && t.queue != [] && t.queue[0].submitted ==> t.outstanding != map[]
  {
    if Inv(t) && t.queue != [] && t.queue[0].submitted {
      assert t.queue[0].id in t.outstanding;
    }
  }

  // Submitting fails, or leaves every datagram outstanding, or finds nothing to do.
  lemma SubmitAllKeeps(t: Transport)
    requires Inv(t)
    ensures var o := SubmitAll(t);
            && Inv(o.transport)
            && t.outstanding.Keys <= o.transport.outstanding.Keys
            && |o.transport.queue| == |t.queue|
            && o.transport.writing == t.writing
            && o.transport.app == t.app
            && (o.verdict == Ok ==> AllSubmitted(o.transport.queue, |t.queue|)
                                    && (t.queue != [] ==> o.transport.outstanding != map[]))
            && (o.verdict == Done <==> DoneWriting(t))
            && o.verdict != TemporaryError
  {
    hide Inv;
    SubmitFromKeeps(t, 0);
    SubmitFromKeepsApp(t, 0);
    var o := SubmitFrom(t, 0);
    if o.verdict == Ok && t.queue != [] {
      FirstIsOutstanding(o.transport);
    }
  }

  lemma EnableKeeps(t: Transport, limits: Limits)
    requires Inv(t) && t.queue != []
    ensures var r := EnableWriting(t, limits);
            && Inv(r)
            && Awaited(r)
            && t.outstanding.Keys <= r.outstanding.Keys
            && |r.queue| >= |t.queue|
  {
    hide Inv, SubmitAll, FetchWriting;
    var w := t.(writing := true);
    OtherFields(t, t.app, true, t.polls);
    FetchWritingKeeps(w, limits, 0);
    var o := SubmitAll(FetchWriting(w, limits, 0));
    SubmitAllKeeps(FetchWriting(w, limits, 0));
    OtherFields(o.transport, o.transport.app, false, o.transport.polls);
  }

  lemma EnqueueKeeps(t: Transport, limits: Limits, p: Payload)
    requires Inv(t)
    ensures var r := Enqueue(t, limits, p);
            && Inv(r)
            && (Awaited(t) ==> Awaited(r))
            && (t.writing ==> r.writing)
            && |r.queue| > |t.queue|
            && |r.app| <= |t.app|
  {
    hide Inv, EnableWriting;
    PushedKeeps(t, p);
    EnableShrinks(Pushed(t, p), limits);
    if !t.writing {
      EnableKeeps(Pushed(t, p), limits);
    }
  }

  lemma {:induction false} EnqueueAllKeeps(t: Transport, limits: Limits, ps: seq<Payload>)
    requires Inv(t)
    ensures var r := EnqueueAll(t, limits, ps);
            && Inv(r)
            && (Awaited(t) ==> Awaited(r))
            && (t.writing ==> r.writing)
            && |r.queue| >= |t.queue| + |ps|
            && |r.app| <= |t.app|
    decreases |ps|
  {
    hide Inv, Enqueue, Awaited;
    if ps != [] {
      EnqueueKeeps(t, limits, ps[0]);
      EnqueueAllKeeps(Enqueue(t, limits, ps[0]), limits, ps[1..]);
    }
  }

  lemma {:induction false} FetchKeeps(t: Transport, limits: Limits, i: nat)
    requires Inv(t)
    ensures var r := Fetch(t, limits, i);
            && Inv(r)
            && (Awaited(t) ==> Awaited(r))
            && (t.writing ==> r.writing)
            && |r.queue| >= |t.queue|
    decreases |t.app|
  {
    hide Inv, EnqueueAll;
    if t.bytes < limits.maxEnqueuedBytes && i < limits.maxConsecutiveFetches && t.app != [] {
      var t' := t.(app := t.app[1..]);
      OtherFields(t, t.app[1..], t.writing, t.polls);
      EnqueueAllKeeps(t', limits, t.app[0]);
      FetchKeeps(EnqueueAll(t', limits, t.app[0]), limits, i + 1);
    }
  }

  /** Re-entry is the only difference between fetching with and without the write bit: with it, enqueue() only
      queues. */
  lemma {:induction false} FetchWhileWriting(t: Transport, limits: Limits, i: nat)
    requires t.writing
    ensures Fetch(t, limits, i) == FetchWriting(t, limits, i)
    decreases |t.app|
  {
    if t.bytes < limits.maxEnqueuedBytes && i < limits.maxConsecutiveFetches && t.app != [] {
      var t' := t.(app := t.app[1..]);
      AppShrinks(t', t.app[0]);
      EnqueueWhileWriting(t', limits, t.app[0]);
      FetchWhileWriting(PushAll(t', t.app[0]), limits, i + 1);
    }
  }

  lemma {:induction false} EnqueueWhileWriting(t: Transport, limits: Limits, ps: seq<Payload>)
    requires t.writing
    ensures EnqueueAll(t, limits, ps) == PushAll(t, ps)
    decreases |ps|
  {
    if ps != [] {
      EnqueueWhileWriting(Pushed(t, ps[0]), limits, ps[1..]);
    }
  }

  // -- Stalling ---------------------------------------------------------------

  // With nothing enqueued, one fetch enqueues nothing and does not exhaust the application either.
  predicate Barren(app: seq<seq<Payload>>, limits: Limits) {
    if limits.maxEnqueuedBytes == 0 then app != []
    else |app| > limits.maxConsecutiveFetches && forall k :: 0 <= k < limits.maxConsecutiveFetches ==> app[k] == []
  }

  lemma {:induction false} FetchesNothing(t: Transport, limits: Limits, i: nat)
    requires Inv(t) && t.queue == [] && i <= limits.maxConsecutiveFetches
    ensures Fetch(t, limits, i).queue == [] && Fetch(t, limits, i).app != []
            <==> Barren(t.app, limits.(maxConsecutiveFetches := limits.maxConsecutiveFetches - i))
    decreases |t.app|
  {
    hide Inv, EnqueueAll;
    EmptyCounts(t);
    if t.bytes < limits.maxEnqueuedBytes && i < limits.maxConsecutiveFetches && t.app != [] {
      var t' := t.(app := t.app[1..]);
      OtherFields(t, t.app[1..], t.writing, t.polls);
      EnqueueAllKeeps(t', limits, t.app[0]);
      var r := EnqueueAll(t', limits, t.app[0]);
      FetchKeeps(r, limits, i + 1);
      var left := limits.(maxConsecutiveFetches := limits.maxConsecutiveFetches - i);
      EnqueueNone(t', limits);
      if t.app[0] == [] {
        FetchesNothing(t', limits, i + 1);
      } else {
        assert !Barren(t.app, left);
      }
    }
  }

  lemma EnqueueNone(t: Transport, limits: Limits)
    ensures EnqueueAll(t, limits, []) == t
  {
  }

  lemma EmptyCounts(t: Transport)
    ensures Inv(t) && t.queue == [] ==>
              t.bytes == 0 && t.outstanding == map[] && t.enqueued == t.sent
  {
    if Inv(t) && t.queue == [] {
      forall id ensures id !in t.outstanding {
        assert forall i: nat :: !Carries(t.queue, id, i);
      }
    }
  }

  lemma NothingToSubmit(t: Transport)
    ensures t.queue == [] && t.app != [] ==> SubmitAll(t) == Outcome(t, Ok)
  {
  }

  /** Submitting keeps the books. It reports done exactly when queue and application are dry; then all that was ever
      enqueued has been sent. It leaves a set write bit without any completion to come exactly when the queue was empty
      and a fetch is barren: the application has more, but is not asked again. */
  lemma SubmitExactness(t: Transport, limits: Limits)
    requires Inv(t)
    ensures var o := Submit(t, limits);
            && Inv(o.transport)
            && o.verdict != TemporaryError
            && (o.verdict == Done ==> DoneWriting(o.transport) && o.transport.enqueued == o.transport.sent)
            && (!t.writing ==> Awaited(o.transport))
            && (t.writing && o.verdict == Ok ==> (Awaited(o.transport) <==> t.queue != [] || !Barren(t.app, limits)))
            && (t.queue == [] && Barren(t.app, limits) ==> o.verdict == Ok)
  {
    hide Inv, Fetch, SubmitAll, Barren;
    var f := Fetch(t, limits, 0);
    FetchKeeps(t, limits, 0);
    SubmitAllKeeps(f);
    var r := SubmitAll(f).transport;
    NothingToSubmit(f);
    if t.queue == [] {
      FetchesNothing(t, limits, 0);
      assert limits.(maxConsecutiveFetches := limits.maxConsecutiveFetches - 0) == limits;
    }
    if r.queue == [] {
      EmptyCounts(r);
    }
    if f.writing && f.outstanding != map[] {
      assert f.outstanding.Keys != {};
    }
  }

  // -- Completions keep the books ---------------------------------------------

  lemma RemoveMatches(queue: seq<Datagram>, outstanding: map<nat, Payload>, nextId: nat, i: nat)
    requires Matched(queue, outstanding, nextId) && i < |queue| && queue[i].submitted
    ensures Matched(queue[..i] + queue[i + 1..], outstanding - {queue[i].id}, nextId)
  {
    var q, o := queue[..i] + queue[i + 1..], outstanding - {queue[i].id};
    forall j | 0 <= j < |q|
      ensures q[j] == queue[if j < i then j else j + 1]
      ensures q[j].id < nextId && (q[j].submitted <==> q[j].id in o)
    {
    }
    forall id | id in o ensures exists j: nat :: Carries(q, id, j) {
      var j: nat :| Carries(queue, id, j);
      assert Carries(q, id, if j < i then j else j - 1);
    }
  }

  lemma UnflagMatches(queue: seq<Datagram>, outstanding: map<nat, Payload>, nextId: nat, i: nat)
    requires Matched(queue, outstanding, nextId) && i < |queue| && queue[i].submitted
    ensures Matched(queue[i := queue[i].(submitted := false)], outstanding - {queue[i].id}, nextId)
  {
    var q := queue[i := queue[i].(submitted := false)];
    forall id | id in outstanding - {queue[i].id} ensures exists j: nat :: Carries(q, id, j) {
      var j: nat :| Carries(queue, id, j);
      assert Carries(q, id, j);
    }
  }

  lemma RemovedCounts(t: Transport, i: nat)
    requires i < |t.queue| && Counted(t)
    ensures Counted(Removed(t, i).(sent := t.sent + multiset{t.queue[i].payload}))
  {
    SplitAt(t.queue, i);
    Splits(t.queue[..i], t.queue[i + 1..]);
  }

  lemma RetiredAndRemoved(t: Transport, id: nat, count: nat, i: nat)
    requires id in t.outstanding && i < |t.queue| && t.queue[i].payload == t.outstanding[id]
    ensures Removed(Retired(t, id, Wrote(count)), i)
            == Removed(t, i).(sent := t.sent + multiset{t.queue[i].payload}, outstanding := t.outstanding - {id})
  {
  }

  lemma RemovedKeeps(t: Transport, id: nat, count: nat)
    requires Inv(t) && id in t.outstanding
    ensures var i := Find(t.queue, id);
            && i < |t.queue|
            && t.queue[i].payload == t.outstanding[id]
            && Inv(Removed(Retired(t, id, Wrote(count)), i))
  {
    hide Matched, Counted, Retired;
    CompletionMatches(t, id);
    var i := Find(t.queue, id);
    RemoveMatches(t.queue, t.outstanding, t.nextId, i);
    RemovedCounts(t, i);
    RetiredAndRemoved(t, id, count, i);
    OutstandingUncounted(Removed(t, i).(sent := t.sent + multiset{t.queue[i].payload}), t.outstanding - {id});
  }

  lemma OutstandingUncounted(t: Transport, outstanding: map<nat, Payload>)
    ensures Counted(t) ==> Counted(t.(outstanding := outstanding))
  {
  }

  lemma UnflaggedKeeps(t: Transport, id: nat)
    requires Inv(t) && id in t.outstanding
    ensures var i := Find(t.queue, id); var r := Retired(t, id, Failed(true));
            && i < |t.queue|
            && Inv(SubmitPoll(r.(queue := r.queue[i := r.queue[i].(submitted := false)])))
  {
    CompletionMatches(t, id);
    var i := Find(t.queue, id);
    UnflagMatches(t.queue, t.outstanding, t.nextId, i);
    var q, o := t.queue[i := t.queue[i].(submitted := false)], t.outstanding - {id};
    LaterIds(q, o, t.nextId, 1);
    hide Matched;
    SamePayload(t.queue, i, t.queue[i].(submitted := false));
  }

  lemma LaterIds(queue: seq<Datagram>, outstanding: map<nat, Payload>, nextId: nat, more: nat)
    ensures Matched(queue, outstanding, nextId) ==> Matched(queue, outstanding, nextId + more)
  {
  }

  // The last outstanding datagram has been sent, and asking the application for more is in vain.
  predicate Stalls(t: Transport, limits: Limits, step: Step) {
    && step.SendCompletes?
    && step.res.Wrote?
    && t.writing
    && |t.queue| == 1
    && Barren(t.app, limits)
  }

  lemma CompletionKeeps(t: Transport, limits: Limits, id: nat, res: Written)
    requires Inv(t) && ValidStep(t, SendCompletes(id, res))
    ensures var o := Next(t, limits, SendCompletes(id, res));
            o.verdict != Error ==>
              && Inv(o.transport)
              && (o.verdict == Done ==> DoneWriting(o.transport) && o.transport.enqueued == o.transport.sent)
              && (Awaited(o.transport) <==> !Stalls(t, limits, SendCompletes(id, res)))
  {
    hide Inv, Submit, Barren;
    var i := Find(t.queue, id);
    match res {
      case Wrote(count) =>
        RemovedKeeps(t, id, count);
        var r := Removed(Retired(t, id, res), i);
        SubmitExactness(r, limits);
        var o := Submit(r, limits);
        assert r.queue == [] <==> |t.queue| == 1;
        OtherFields(o.transport, o.transport.app, false, o.transport.polls);
      case Failed(temporary) =>
        UnflaggedKeeps(t, id);
        var r := Retired(t, id, Failed(true));
        var f := SubmitPoll(r.(queue := r.queue[i := r.queue[i].(submitted := false)]));
        OtherFields(f, f.app, false, f.polls);
    }
  }

  lemma NextKeeps(t: Transport, limits: Limits, step: Step)
    requires Inv(t) && ValidStep(t, step)
    ensures var o := Next(t, limits, step);
            o.verdict != Error ==>
              && Inv(o.transport)
              && (o.verdict == Done ==> DoneWriting(o.transport) && o.transport.enqueued == o.transport.sent)
              && (Awaited(t) ==> (Awaited(o.transport) <==> !Stalls(t, limits, step)))
  {
    hide Inv, Stalls;
    match step {
      case EnqueueStep(p) =>
        NoStall(t, limits, step);
        EnqueueKeeps(t, limits, p);
      case SendCompletes(id, res) => CompletionKeeps(t, limits, id, res);
      case PollCompletes =>
        NoStall(t, limits, step);
        PollKeeps(t, limits);
      case Elapse(ids, room) =>
        NoStall(t, limits, step);
        ElapseKeeps(t, ids, room);
      case AppGains(call) =>
        NoStall(t, limits, step);
        OtherFields(t, t.app + [call], t.writing, t.polls);
    }
  }

  lemma NoStall(t: Transport, limits: Limits, step: Step)
    ensures !step.SendCompletes? ==> !Stalls(t, limits, step)
  {
  }

  lemma ElapseKeeps(t: Transport, ids: nat, room: nat)
    requires Inv(t)
    ensures Inv(t.(nextId := t.nextId + ids, room := room))
  {
    LaterIds(t.queue, t.outstanding, t.nextId, ids);
    hide Matched;
  }

  // With a set write bit something is outstanding, hence queued, so a completed poll never finds work finished then.
  lemma PollKeeps(t: Transport, limits: Limits)
    requires Inv(t) && t.polls > 0
    ensures var o := Next(t, limits, PollCompletes);
            o.verdict != Error ==>
              && Inv(o.transport)
              && (Awaited(t) ==> Awaited(o.transport))
              && (o.verdict == Done ==> DoneWriting(o.transport) && o.transport.enqueued == o.transport.sent)
  {
    hide Inv, Submit;
    var p := t.(polls := t.polls - 1);
    OtherFields(t, t.app, t.writing, t.polls - 1);
    SubmitExactness(p, limits);
    if Awaited(t) {
      PollFinds(p, limits);
    }
  }

  lemma PollFinds(t: Transport, limits: Limits)
    requires Inv(t) && Awaited(t)
    ensures Awaited(Submit(t, limits).transport)
    ensures t.writing ==> t.queue != []
  {
    hide Inv, Fetch, SubmitAll;
    var f := Fetch(t, limits, 0);
    FetchKeeps(t, limits, 0);
    SubmitAllKeeps(f);
    if f.writing {
      assert f.outstanding.Keys != {};
    }
    if t.queue == [] {
      EmptyCounts(t);
    }
  }

  function Run(t: Transport, limits: Limits, steps: seq<Step>): Transport
    requires ValidRun(t, limits, steps)
    decreases |steps|
  {
    if steps == [] then t else Run(Next(t, limits, steps[0]).transport, limits, steps[1..])
  }

  // Every step is possible and none ends in an error verdict, which would remove the manager.
  predicate ValidRun(t: Transport, limits: Limits, steps: seq<Step>)
    decreases |steps|
  {
    steps != [] ==>
      && ValidStep(t, steps[0]) && Next(t, limits, steps[0]).verdict != Error
      && ValidRun(Next(t, limits, steps[0]).transport, limits, steps[1..])
  }

  /** Until an error verdict, for every interleaving of enqueues, completions in any order, temporary errors, polls and
      other submissions, stalled or not: submitted datagrams and outstanding sends match one to one, everything enqueued
      is either sent, once, or still queued, and the byte counter is the queue's total. */
  lemma {:induction false} BookkeepingOverRuns(t: Transport, limits: Limits, steps: seq<Step>)
    requires Inv(t) && ValidRun(t, limits, steps)
    ensures Inv(Run(t, limits, steps))
    decreases |steps|
  {
    hide Inv, Awaited;
    if steps != [] {
      NextKeeps(t, limits, steps[0]);
      BookkeepingOverRuns(Next(t, limits, steps[0]).transport, limits, steps[1..]);
    }
  }

  predicate AlwaysAwaited(t: Transport, limits: Limits, steps: seq<Step>)
    requires ValidRun(t, limits, steps)
    decreases |steps|
  {
    Awaited(t) && (steps != [] ==> AlwaysAwaited(Next(t, limits, steps[0]).transport, limits, steps[1..]))
  }

  predicate NeverStalls(t: Transport, limits: Limits, steps: seq<Step>)
    requires ValidRun(t, limits, steps)
    decreases |steps|
  {
    steps != [] ==>
      && !Stalls(t, limits, steps[0])
      && NeverStalls(Next(t, limits, steps[0]).transport, limits, steps[1..])
  }

  /** At every point of such a run a set write bit means that a completion is still to come, if and only if no completed
      send leaves the queue empty with a barren fetch. */
  lemma {:induction false} AwaitedOverRuns(t: Transport, limits: Limits, steps: seq<Step>)
    requires Inv(t) && Awaited(t) && ValidRun(t, limits, steps)
    ensures AlwaysAwaited(t, limits, steps) <==> NeverStalls(t, limits, steps)
    decreases |steps|
  {
    hide Inv, Awaited, Stalls, Next;
    if steps != [] {
      NextKeeps(t, limits, steps[0]);
      var t' := Next(t, limits, steps[0]).transport;
      if Awaited(t') {
        AwaitedOverRuns(t', limits, steps[1..]);
      } else {
        assert !AlwaysAwaited(t', limits, steps[1..]);
      }
    }
  }

  // -- What is enqueued over a run --------------------------------------------

  lemma {:induction false} AppGrows(app: seq<seq<Payload>>, call: seq<Payload>)
    ensures AppPayloads(app + [call]) == AppPayloads(app) + multiset(call)
  {
    if app == [] {
      assert app + [call] == [call] && [call][1..] == [];
    } else {
      assert (app + [call])[1..] == app[1..] + [call];
      AppGrows(app[1..], call);
    }
  }

  lemma EnqueueOffers(t: Transport, limits: Limits, p: Payload)
    ensures var r := Enqueue(t, limits, p);
            r.enqueued + AppPayloads(r.app) == t.enqueued + multiset{p} + AppPayloads(t.app)
  {
    EnqueueExactness(t, limits, p);
    if !t.writing {
      var w := Pushed(t, p).(writing := true);
      FetchWritingAppends(w, limits, 0);
      SubmittedKeeps(FetchWriting(w, limits, 0), 0);
    }
  }

  lemma SubmittedKeeps(t: Transport, i: nat)
    requires i <= |t.queue|
    ensures var r := SubmitFrom(t, i).transport;
            r.enqueued == t.enqueued && r.app == t.app
  {
    SubmitFromExactness(t, i);
  }

  lemma {:induction false} EnqueueAllOffers(t: Transport, limits: Limits, ps: seq<Payload>)
    ensures var r := EnqueueAll(t, limits, ps);
            r.enqueued + AppPayloads(r.app) == t.enqueued + multiset(ps) + AppPayloads(t.app)
    decreases |ps|
  {
    hide Enqueue;
    if ps == [] {
      assert t.enqueued + multiset(ps) == t.enqueued;
    } else {
      var r := Enqueue(t, limits, ps[0]);
      EnqueueOffers(t, limits, ps[0]);
      EnqueueAllOffers(r, limits, ps[1..]);
      assert ps == [ps[0]] + ps[1..];
      assert multiset(ps) == multiset{ps[0]} + multiset(ps[1..]);
      Exchanged(r.enqueued, multiset(ps[1..]), AppPayloads(r.app));
      Exchanged(t.enqueued + multiset{ps[0]}, AppPayloads(t.app), multiset(ps[1..]));
      assert t.enqueued + multiset{ps[0]} + multiset(ps[1..]) == t.enqueued + multiset(ps);
    }
  }

  lemma Exchanged(a: multiset<Payload>, b: multiset<Payload>, c: multiset<Payload>)
    ensures a + b + c == a + c + b
  {
  }

  lemma {:induction false} FetchOffers(t: Transport, limits: Limits, i: nat)
    ensures var r := Fetch(t, limits, i);
            r.enqueued + AppPayloads(r.app) == t.enqueued + AppPayloads(t.app)
    decreases |t.app|
  {
    hide EnqueueAll, AppPayloads;
    if t.bytes < limits.maxEnqueuedBytes && i < limits.maxConsecutiveFetches && t.app != [] {
      var s := t.(app := t.app[1..]);
      EnqueueShrinks(s, limits, t.app[0]);
      EnqueueAllOffers(s, limits, t.app[0]);
      FetchOffers(EnqueueAll(s, limits, t.app[0]), limits, i + 1);
      AppTaken(t.enqueued, t.app);
    }
  }

  lemma SubmitOffers(t: Transport, limits: Limits)
    ensures var r := Submit(t, limits).transport;
            r.enqueued + AppPayloads(r.app) == t.enqueued + AppPayloads(t.app)
  {
    FetchOffers(t, limits, 0);
    SubmittedKeeps(Fetch(t, limits, 0), 0);
  }

  // What a step brings, to be enqueued now or when the application is asked.
  function Brings(step: Step): multiset<Payload> {
    match step
    case EnqueueStep(p) => multiset{p}
    case AppGains(call) => multiset(call)
    case _ => multiset{}
  }

  function AllBrought(steps: seq<Step>): multiset<Payload> {
    if steps == [] then multiset{} else Brings(steps[0]) + AllBrought(steps[1..])
  }

  lemma CompletionOffers(t: Transport, limits: Limits, id: nat, res: Written)
    ensures var r := WriteCompletion(t, limits, id, res).transport;
            r.enqueued + AppPayloads(r.app) == t.enqueued + AppPayloads(t.app)
  {
    hide Submit, Find, AppPayloads;
    var i := Find(t.queue, id);
    if i < |t.queue| {
      SubmitOffers(Removed(t, i), limits);
    }
  }

  lemma NextOffers(t: Transport, limits: Limits, step: Step)
    requires ValidStep(t, step)
    ensures var r := Next(t, limits, step).transport;
            r.enqueued + AppPayloads(r.app) == t.enqueued + AppPayloads(t.app) + Brings(step)
  {
    hide Submit, Enqueue, WriteCompletion, AppPayloads;
    match step {
      case EnqueueStep(p) =>
        EnqueueOffers(t, limits, p);
        Exchanged(t.enqueued, multiset{p}, AppPayloads(t.app));
      case SendCompletes(id, res) =>
        CompletionOffers(Retired(t, id, res), limits, id, res);
      case PollCompletes => SubmitOffers(t.(polls := t.polls - 1), limits);
      case Elapse(ids, room) =>
      case AppGains(call) => AppGrows(t.app, call);
    }
  }

  /** Over every run, what was enqueued and what the application still holds is what it held before and what the steps
      brought: with the books, every datagram brought is sent once, queued, or not asked for yet. */
  lemma {:induction false} NothingLost(t: Transport, limits: Limits, steps: seq<Step>)
    requires Inv(t) && ValidRun(t, limits, steps)
    ensures var r := Run(t, limits, steps);
            && r.enqueued + AppPayloads(r.app) == t.enqueued + AppPayloads(t.app) + AllBrought(steps)
            && r.enqueued == r.sent + Payloads(r.queue)
    decreases |steps|
  {
    if steps != [] {
      NextOffers(t, limits, steps[0]);
      NextKeeps(t, limits, steps[0]);
      hide Next, Inv;
      NothingLost(Next(t, limits, steps[0]).transport, limits, steps[1..]);
    }
  }

  // -- Verdicts ---------------------------------------------------------------

  /** Submitting is done when nothing is queued and nothing is to come; it fails exactly when there are too few entries
      for all that waits after the fetch. */
  lemma SubmitVerdict(t: Transport, limits: Limits)
    ensures var f := Fetch(t, limits, 0);
            Submit(t, limits).verdict ==
              if f.queue == [] && f.app == [] then Done
              else if |Waiting(f.queue, 0)| <= f.room then Ok
              else Error
  {
    SubmitFromExactness(Fetch(t, limits, 0), 0);
  }

  /** What every completion is answered: a failed send with its error, a short one with an error, and otherwise what
      submitting the rest answers, with the datagram gone from the queue. */
  lemma VerdictExactness(t: Transport, limits: Limits, step: Step)
    requires Inv(t) && ValidStep(t, step)
    ensures var o := Next(t, limits, step);
            match step
            case SendCompletes(id, Failed(temporary)) => o.verdict == (if temporary then TemporaryError else Error)
            case SendCompletes(id, Wrote(count)) =>
              var i := Find(t.queue, id);
              && i < |t.queue|
              && o.verdict == (if count < |t.outstanding[id].bytes| then Error
                               else Submit(Removed(Retired(t, id, Wrote(count)), i), limits).verdict)
            case PollCompletes => o.verdict == Submit(t.(polls := t.polls - 1), limits).verdict
            case _ => o.verdict == Ok
  {
    if step.SendCompletes? {
      CompletionMatches(t, step.id);
      hide Inv, Submit;
    }
  }

  /** A send that fails for now leaves its datagram, alone, to be submitted again, clears the write bit and starts a
      poll under the next id if an entry is free. */
  lemma TemporaryExactness(t: Transport, limits: Limits, id: nat)
    requires Inv(t) && id in t.outstanding
    ensures var r := Next(t, limits, SendCompletes(id, Failed(true))).transport;
            var i := Find(t.queue, id);
            && i < |t.queue|
            && |r.queue| == |t.queue|
            && !r.queue[i].submitted && r.queue[i].payload == t.queue[i].payload
            && (forall j :: 0 <= j < |t.queue| && j != i ==> r.queue[j] == t.queue[j])
            && !r.writing
            && (if t.room > 0 then r.polls == t.polls + 1 && r.room == t.room - 1 && r.nextId == t.nextId + 1
                else r.polls == t.polls && r.room == 0 && r.nextId == t.nextId)
            && r.outstanding == t.outstanding - {id}
            && r.bytes == t.bytes && r.app == t.app && r.sent == t.sent
  {
    CompletionMatches(t, id);
    hide Inv, Submit, Find;
  }

  lemma {:induction false} FetchWritingStops(t: Transport, limits: Limits, i: nat)
    ensures var r := FetchWriting(t, limits, i);
            var n := |t.app| - |r.app|;
            && n >= 0
            && (i <= limits.maxConsecutiveFetches ==> i + n <= limits.maxConsecutiveFetches)
            && (i + n >= limits.maxConsecutiveFetches || r.app == [] || r.bytes >= limits.maxEnqueuedBytes)
            && r.app == t.app[n..]
    decreases |t.app|
  {
    if t.bytes < limits.maxEnqueuedBytes && i < limits.maxConsecutiveFetches && t.app != [] {
      AppShrinks(t.(app := t.app[1..]), t.app[0]);
      FetchWritingStops(PushAll(t.(app := t.app[1..]), t.app[0]), limits, i + 1);
    }
  }

  // init() submits for the pipe and the acceptor first, so a new transport sees ids from 2 on.
  lemma StartsMatched(nextId: nat, room: nat, app: seq<seq<Payload>>)
    requires nextId >= 2
    ensures var t := Transport([], 0, false, nextId, room, map[], 0, app, multiset{}, multiset{});
            Inv(t) && Awaited(t)
  {
  }

  // -- The transport ----------------------------------------------------------

  class DatagramTransport {
    const limits: Limits
    var writeQueue: seq<Datagram>
    var numEnqueuedBytes: int
    var writing: bool
    var submissionId: nat
    var room: nat
    var outstanding: map<nat, Payload>
    var polls: nat
    var nextLayer: seq<seq<Payload>>
    ghost var enqueued: multiset<Payload>
    ghost var sent: multiset<Payload>

    ghost function State(): Transport
      reads this
    {
      Transport(writeQueue, numEnqueuedBytes, writing, submissionId, room, outstanding, polls, nextLayer,
                enqueued, sent)
    }

    constructor (limits: Limits, submissionId: nat, room: nat, app: seq<seq<Payload>>)
      ensures this.limits == limits
      ensures State() == Transport([], 0, false, submissionId, room, map[], 0, app, multiset{}, multiset{})
    {
      this.limits, this.submissionId, this.room := limits, submissionId, room;
      writeQueue, numEnqueuedBytes, writing, outstanding, polls, nextLayer := [], 0, false, map[], 0, app;
      enqueued, sent := multiset{}, multiset{};
    }

    // submit_sendmsg: hands the datagram's contents to the kernel under a new id, if an entry is free.
    method SubmitSendmsg(i: nat) returns (success: bool, id: nat)
      requires i < |writeQueue|
      modifies this`submissionId, this`room, this`outstanding
      ensures success == (old(room) > 0)
      ensures !success ==> State() == old(State())
      ensures success ==> id == old(submissionId) && submissionId == id + 1 && room == old(room) - 1
      ensures success ==> outstanding == old(outstanding)[id := writeQueue[i].payload]
    {
      if room == 0 {
        return false, 0;
      }
      id := submissionId;
      room, submissionId := room - 1, submissionId + 1;
      outstanding := outstanding[id := writeQueue[i].payload];
      success := true;
    }

    method SubmitDatagrams() returns (verdict: Verdict)
      modifies this
      ensures Outcome(State(), verdict) == Submit(old(State()), limits)
      ensures old(writing) ==> writing
      ensures |nextLayer| <= |old(nextLayer)|
      decreases !writing, 4, 0
    {
      hide Fetch, SubmitFrom;
      FetchMoreData();
      if writeQueue == [] && nextLayer == [] {
        return Done;
      }
      verdict := SubmitLoop();
    }

    method SubmitLoop() returns (verdict: Verdict)
      modifies this`writeQueue, this`submissionId, this`room, this`outstanding
      ensures Outcome(State(), verdict) == SubmitFrom(old(State()), 0)
    {
      ghost var t := State();
      var i := 0;
      while i < |writeQueue|
        invariant i <= |writeQueue| == |t.queue|
        invariant SubmitFrom(State(), i) == SubmitFrom(t, 0)
        invariant numEnqueuedBytes == t.bytes && writing == t.writing && polls == t.polls && nextLayer == t.app
      {
        if !writeQueue[i].submitted {
          var success, id := SubmitSendmsg(i);
          if !success {
            return Error;
          }
          writeQueue := writeQueue[i := Datagram(writeQueue[i].payload, id, true)];
        }
        i := i + 1;
      }
      verdict := Ok;
    }

    method FetchMoreData()
      modifies this
      ensures State() == Fetch(old(State()), limits, 0)
      ensures old(writing) ==> writing
      ensures |nextLayer| <= |old(nextLayer)|
      decreases !writing, 3, 0
    {
      ghost var t := State();
      var i := 0;
      while numEnqueuedBytes < limits.maxEnqueuedBytes && i < limits.maxConsecutiveFetches && nextLayer != []
        invariant i <= limits.maxConsecutiveFetches || i == 0
        invariant Fetch(State(), limits, i) == Fetch(t, limits, 0)
        invariant t.writing ==> writing
        invariant |nextLayer| <= |t.app|
        decreases |nextLayer|
      {
        ProduceMore();
        i := i + 1;
      }
    }

    // The next layer's produce.
    method ProduceMore()
      requires nextLayer != []
      modifies this
      ensures State() == EnqueueAll(old(State()).(app := old(nextLayer)[1..]), limits, old(nextLayer)[0])
      ensures old(writing) ==> writing
      ensures |nextLayer| < |old(nextLayer)|
      decreases !writing, 2, 0
    {
      hide Enqueue;
      var datagrams := nextLayer[0];
      nextLayer := nextLayer[1..];
      ghost var t := State();
      for i := 0 to |datagrams|
        invariant EnqueueAll(State(), limits, datagrams[i..]) == EnqueueAll(t, limits, datagrams)
        invariant t.writing ==> writing
        invariant |nextLayer| <= |t.app|
      {
        EnqueueDatagram(datagrams[i]);
        assert datagrams[i..][1..] == datagrams[i + 1..];
      }
      assert datagrams[|datagrams|..] == [];
    }

    method EnqueueDatagram(p: Payload)
      modifies this
      ensures State() == Enqueue(old(State()), limits, p)
      ensures old(writing) ==> writing
      ensures |nextLayer| <= |old(nextLayer)|
      decreases !writing, 1, 0
    {
      hide EnableWriting;
      numEnqueuedBytes := numEnqueuedBytes + |p.bytes|;
      writeQueue := writeQueue + [Datagram(p, 0, false)];
      enqueued := enqueued + multiset{p};
      if !writing {
        EnableWrite();
      }
    }

    // The multiplexer's enable() for operation::write.
    method EnableWrite()
      requires !writing
      modifies this
      ensures State() == EnableWriting(old(State()), limits)
      ensures |nextLayer| <= |old(nextLayer)|
      decreases !writing, 0, 0
    {
      hide SubmitAll, FetchWriting, Fetch;
      ghost var t := State();
      writing := true;
      FetchWhileWriting(State(), limits, 0);
      var verdict := SubmitDatagrams();
      if verdict != Ok {
        writing := false;
      }
    }

    // handle_completion for operation::write, after the kernel has retired the submission.
    method HandleWriteCompletion(id: nat, res: Written) returns (verdict: Verdict)
      modifies this
      ensures Outcome(State(), verdict) == WriteCompletion(old(State()), limits, id, res)
    {
      hide Submit, Removed, Find;
      var i := FindDatagram(id);
      if i == |writeQueue| {
        return Error;
      }
      if res.Failed? {
        if !res.temporary {
          return Error;
        }
        writeQueue := writeQueue[i := writeQueue[i].(submitted := false)];
        if room > 0 {
          submissionId, room, polls := submissionId + 1, room - 1, polls + 1;
        }
        return TemporaryError;
      }
      if res.count < |writeQueue[i].payload.bytes| {
        return Error;
      }
      EraseDatagram(i);
      verdict := SubmitDatagrams();
    }

    method EraseDatagram(i: nat)
      requires i < |writeQueue|
      modifies this`writeQueue, this`numEnqueuedBytes
      ensures State() == Removed(old(State()), i)
    {
      numEnqueuedBytes := numEnqueuedBytes - |writeQueue[i].payload.bytes|;
      writeQueue := writeQueue[..i] + writeQueue[i + 1..];
    }

    method FindDatagram(id: nat) returns (i: nat)
      ensures i == Find(writeQueue, id)
    {
      i := 0;
      while i < |writeQueue| && writeQueue[i].id != id
        invariant i <= |writeQueue| && Find(writeQueue, id) == i + Find(writeQueue[i..], id)
      {
        assert writeQueue[i..][1..] == writeQueue[i + 1..];
        i := i + 1;
      }
      assert i == |writeQueue| ==> writeQueue[i..] == [];
    }
  }
}
