/** The datagram dispatcher: one application layer per remote endpoint, and timeouts routed back to the layer that
    set them. */
module Dispatcher {
  import opened Addresses
  import opened ByteBuffers
  import opened ManagerResult

  // What happened to a layer, oldest first.
  datatype Call = Initialised(ok: bool) | Consumed(data: Bytes) | TimedOut(id: nat) | Produced

  // datagram_endpoint_wrapper: the layer of one endpoint, which it keeps for everything the layer sends or sets.
  datatype Layer = Layer(ep: Endpoint, calls: seq<Call>)

  /** What a layer does while it is called. On io_uring a datagram sent while the write bit is clear makes the transport
      ask the dispatcher for more at once, in the middle of the call: `asked` holds these calls of produce. It is empty
      on epoll and kqueue, and while the bit is set. */
  datatype Act = Send(data: Bytes, asked: seq<Asking>) | SetTimeout

  // What a layer answers to a call.
  datatype Answer = Answer(acts: seq<Act>, verdict: Verdict)

  // One call of produce: the order in which the layers are visited and what they answer.
  datatype Asking = Asking(order: seq<Endpoint>, answers: seq<Answer>)

  // A datagram handed to the transport: by the layer found under `from`, for `to`.
  datatype Outgoing = Outgoing(from: Endpoint, to: Endpoint, data: Bytes)

  /** `timeouts` routes ids; `setters` records the key of the layer that set each id, and `nextId` is the id the
      multiplexer will hand out next. */
  datatype State = State(
    layers: map<Endpoint, Layer>, timeouts: map<nat, Endpoint>, setters: map<nat, Endpoint>, nextId: nat,
    out: seq<Outgoing>)

  datatype Result = Result(state: State, verdict: Verdict)

  datatype Step =
    | Receive(ep: Endpoint, data: Bytes, onInit: Answer, onData: Answer)
    | Fire(id: nat, onTimeout: Answer)
    | Flush(order: seq<Endpoint>, answers: seq<Answer>)
    | OtherTimeouts(count: nat)

  function ActOn(s: State, key: Endpoint, a: Act): (t: State)
    requires key in s.layers
    ensures t.layers.Keys == s.layers.Keys
    decreases a
  {
    match a
    case Send(data, asked) => AskAll(s.(out := s.out + [Outgoing(key, s.layers[key].ep, data)]), asked)
    case SetTimeout => TimeoutSet(s, key)
  }

  function TimeoutSet(s: State, key: Endpoint): State
    requires key in s.layers
  {
    s.(timeouts := if s.nextId in s.timeouts then s.timeouts else s.timeouts[s.nextId := s.layers[key].ep],
       setters := s.setters[s.nextId := key], nextId := s.nextId + 1)
  }

  function ActAll(s: State, key: Endpoint, acts: seq<Act>): (t: State)
    requires key in s.layers
    ensures t.layers.Keys == s.layers.Keys
    decreases acts, 0
  {
    if acts == [] then s else ActAll(ActOn(s, key, acts[0]), key, acts[1..])
  }

  // The transport does not look at what produce answers.
  function AskAll(s: State, asked: seq<Asking>): (t: State)
    ensures t.layers.Keys == s.layers.Keys
    decreases asked
  {
    if asked == [] then s else AskAll(Produce(s, asked[0].order, asked[0].answers).state, asked[1..])
  }

  // produce(): the layers are asked in some order, up to the first that does not answer ok.
  function Produce(s: State, order: seq<Endpoint>, answers: seq<Answer>): (r: Result)
    ensures r.state.layers.Keys == s.layers.Keys
    decreases answers
  {
    if order == [] || answers == [] || order[0] !in s.layers then Result(s, Ok)
    else
      var t := Called(s, order[0], Produced, answers[0].acts);
      if answers[0].verdict != Ok then Result(t, answers[0].verdict) else Produce(t, order[1..], answers[1..])
  }

  // One call of a layer, during which it acts.
  function Called(s: State, key: Endpoint, call: Call, acts: seq<Act>): (t: State)
    requires key in s.layers
    ensures t.layers.Keys == s.layers.Keys
    decreases acts, 1
  {
    ActAll(Hearing(s, key, call), key, acts)
  }

  function Hearing(s: State, key: Endpoint, call: Call): State
    requires key in s.layers
  {
    s.(layers := s.layers[key := Layer(s.layers[key].ep, s.layers[key].calls + [call])])
  }

  // next_layer(): a layer that exists is not initialised again, and one whose initialisation fails is kept.
  function NextLayer(s: State, ep: Endpoint, onInit: Answer): Result {
    if ep in s.layers then Result(s, Ok)
    else
      var ok := onInit.verdict == Ok;
      var created := s.(layers := s.layers[ep := Layer(ep, [])]);
      Result(Called(created, ep, Initialised(ok), onInit.acts), if ok then Ok else Error)
  }

  function Consume(s: State, ep: Endpoint, data: Bytes, onInit: Answer, onData: Answer): Result {
    var n := NextLayer(s, ep, onInit);
    if n.verdict != Ok || ep !in n.state.layers || n.state.layers[ep].ep != ep then Result(n.state, Error)
    else Result(Called(n.state, ep, Consumed(data), onData.acts), onData.verdict)
  }

  function HandleTimeout(s: State, id: nat, onTimeout: Answer): Result {
    if id !in s.timeouts || s.timeouts[id] !in s.layers then Result(s, Error)
    else Result(Called(s, s.timeouts[id], TimedOut(id), onTimeout.acts), onTimeout.verdict)
  }

  function Next(s: State, step: Step): State {
    match step
    case Receive(ep, data, onInit, onData) => Consume(s, ep, data, onInit, onData).state
    case Fire(id, onTimeout) => HandleTimeout(s, id, onTimeout).state
    case Flush(order, answers) => Produce(s, order, answers).state
    case OtherTimeouts(count) => s.(nextId := s.nextId + count)
  }

  function Run(s: State, steps: seq<Step>): State
    decreases |steps|
  {
    if steps == [] then s else Run(Next(s, steps[0]), steps[1..])
  }

  // -- Who is asked for more --------------------------------------------------

  // How often the layer of endpoint k is asked, counted on what the layers do alone; `keys` are the layers there are.
  function Asks(keys: set<Endpoint>, acts: seq<Act>, k: Endpoint): nat
    decreases acts, 0
  {
    if acts == [] then 0 else AsksIn(keys, acts[0], k) + Asks(keys, acts[1..], k)
  }

  function AsksIn(keys: set<Endpoint>, a: Act, k: Endpoint): nat
    decreases a
  {
    match a
    case Send(_, asked) => AllAsks(keys, asked, k)
    case SetTimeout => 0
  }

  function AllAsks(keys: set<Endpoint>, asked: seq<Asking>, k: Endpoint): nat
    decreases asked
  {
    if asked == [] then 0 else Visits(keys, asked[0].order, asked[0].answers, k) + AllAsks(keys, asked[1..], k)
  }

  function Visits(keys: set<Endpoint>, order: seq<Endpoint>, answers: seq<Answer>, k: Endpoint): nat
    decreases answers
  {
    if order == [] || answers == [] || order[0] !in keys then 0
    else
      (if order[0] == k then 1 else 0) + Asks(keys, answers[0].acts, k)
      + if answers[0].verdict != Ok then 0 else Visits(keys, order[1..], answers[1..], k)
  }

  function Askings(n: nat): seq<Call> {
    if n == 0 then [] else [Produced] + Askings(n - 1)
  }

  // The layer after it has been asked n times.
  function More(l: Layer, n: nat): Layer {
    Layer(l.ep, l.calls + Askings(n))
  }

  lemma {:induction false} AskingsAdd(m: nat, n: nat)
    ensures Askings(m) + Askings(n) == Askings(m + n)
    ensures |Askings(n)| == n && forall i :: 0 <= i < n ==> Askings(n)[i] == Produced
  {
    if m > 0 {
      AskingsAdd(m - 1, n);
    } else if n > 0 {
      AskingsAdd(0, n - 1);
    }
  }

  lemma MoreAdds(l: Layer, m: nat, n: nat)
    ensures More(More(l, m), n) == More(l, m + n)
  {
    AskingsAdd(m, n);
    assert l.calls + Askings(m) + Askings(n) == l.calls + (Askings(m) + Askings(n));
  }

  lemma MoreNone(l: Layer)
    ensures More(l, 0) == l
  {
    assert l.calls + [] == l.calls;
  }

  lemma {:induction false} ActReaches(s: State, key: Endpoint, a: Act, k: Endpoint)
    requires key in s.layers && k in s.layers
    ensures ActOn(s, key, a).layers[k] == More(s.layers[k], AsksIn(s.layers.Keys, a, k))
    decreases a
  {
    if a.Send? {
      AskAllReaches(s.(out := s.out + [Outgoing(key, s.layers[key].ep, a.data)]), a.asked, k);
    } else {
      MoreNone(s.layers[k]);
    }
  }

  /** Whatever a layer does while it is called, and however deep the calls of produce nest that its datagrams cause: a
      layer is asked for more as often as counted, and hears nothing else. */
  lemma {:induction false} ActAllReaches(s: State, key: Endpoint, acts: seq<Act>, k: Endpoint)
    requires key in s.layers && k in s.layers
    ensures ActAll(s, key, acts).layers[k] == More(s.layers[k], Asks(s.layers.Keys, acts, k))
    decreases acts, 0
  {
    hide ActOn, AsksIn, More;
    if acts == [] {
      MoreNone(s.layers[k]);
    } else {
      ActReaches(s, key, acts[0], k);
      ActAllReaches(ActOn(s, key, acts[0]), key, acts[1..], k);
      MoreAdds(s.layers[k], AsksIn(s.layers.Keys, acts[0], k), Asks(s.layers.Keys, acts[1..], k));
    }
  }

  lemma {:induction false} AskAllReaches(s: State, asked: seq<Asking>, k: Endpoint)
    requires k in s.layers
    ensures AskAll(s, asked).layers[k] == More(s.layers[k], AllAsks(s.layers.Keys, asked, k))
    decreases asked
  {
    hide Produce, Visits, More;
    if asked == [] {
      MoreNone(s.layers[k]);
    } else {
      ProduceReaches(s, asked[0].order, asked[0].answers, k);
      AskAllReaches(Produce(s, asked[0].order, asked[0].answers).state, asked[1..], k);
      MoreAdds(s.layers[k], Visits(s.layers.Keys, asked[0].order, asked[0].answers, k),
               AllAsks(s.layers.Keys, asked[1..], k));
    }
  }

  /** produce asks the layers in turn up to the first that does not answer ok, and each of them may cause others. */
  lemma {:induction false} ProduceReaches(s: State, order: seq<Endpoint>, answers: seq<Answer>, k: Endpoint)
    requires k in s.layers
    ensures Produce(s, order, answers).state.layers[k] == More(s.layers[k], Visits(s.layers.Keys, order, answers, k))
    decreases answers
  {
    hide Called, More;
    if order == [] || answers == [] || order[0] !in s.layers {
      MoreNone(s.layers[k]);
    } else {
      var m := (if order[0] == k then 1 else 0) + Asks(s.layers.Keys, answers[0].acts, k);
      CalledReaches(s, order[0], Produced, answers[0].acts, k);
      MoreOnce(s.layers[k], Asks(s.layers.Keys, answers[0].acts, k));
      if answers[0].verdict == Ok {
        ProduceReaches(Called(s, order[0], Produced, answers[0].acts), order[1..], answers[1..], k);
        MoreAdds(s.layers[k], m, Visits(s.layers.Keys, order[1..], answers[1..], k));
      }
    }
  }

  lemma MoreOnce(l: Layer, n: nat)
    ensures More(Layer(l.ep, l.calls + [Produced]), n) == More(l, 1 + n)
  {
    assert Askings(1) == [Produced] + Askings(0);
    MoreAdds(l, 1, n);
  }

  lemma {:induction false} CalledReaches(s: State, key: Endpoint, call: Call, acts: seq<Act>, k: Endpoint)
    requires key in s.layers && k in s.layers
    ensures Called(s, key, call, acts).layers[k]
         == More(if k == key then Layer(s.layers[k].ep, s.layers[k].calls + [call]) else s.layers[k],
                 Asks(s.layers.Keys, acts, k))
    decreases acts, 1
  {
    var t := Hearing(s, key, call);
    assert t.layers.Keys == s.layers.Keys;
    ActAllReaches(t, key, acts, k);
  }

  // -- Routing ----------------------------------------------------------------

  // A layer is initialised first and only once, and hears only of timeouts that it set itself.
  ghost predicate Heard(key: Endpoint, calls: seq<Call>, setters: map<nat, Endpoint>) {
    forall i :: 0 <= i < |calls| ==>
      (calls[i].Initialised? <==> i == 0)
      && (calls[i].TimedOut? ==> calls[i].id in setters && setters[calls[i].id] == key)
  }

  // What a layer sends goes to the endpoint it serves, and every id leads back to the layer that set it.
  ghost predicate Inv(s: State) {
    && (forall key :: key in s.layers ==>
          s.layers[key].ep == key && s.layers[key].calls != [])
    && (forall key :: key in s.layers ==>
          Heard(key, s.layers[key].calls, s.setters))
    && (forall i :: 0 <= i < |s.out| ==>
          s.out[i].to == s.out[i].from)
    && s.timeouts == s.setters
    && (forall id :: id in s.timeouts ==>
          id < s.nextId && s.timeouts[id] in s.layers)
  }

  // Layers are created once and never replaced; they only hear more.
  ghost predicate Extends(s: State, t: State) {
    && (forall key :: key in s.layers ==>
          key in t.layers && s.layers[key].calls <= t.layers[key].calls)
    && s.out <= t.out
    && (forall id :: id in s.setters ==>
          id in t.setters && t.setters[id] == s.setters[id])
  }

  lemma ExtendsThrough(a: State, b: State, c: State)
    requires Extends(a, b) && Extends(b, c)
    ensures Extends(a, c)
  {
    forall key | key in a.layers ensures key in c.layers && a.layers[key].calls <= c.layers[key].calls {
      assert key in b.layers;
    }
  }

  lemma ExtendsItself(s: State)
    ensures Extends(s, s)
  {
  }

  lemma {:induction false} ActKeeps(s: State, key: Endpoint, a: Act)
    requires Inv(s) && key in s.layers
    ensures Inv(ActOn(s, key, a)) && Extends(s, ActOn(s, key, a))
    decreases a
  {
    match a {
      case Send(data, asked) =>
        var t := s.(out := s.out + [Outgoing(key, s.layers[key].ep, data)]);
        assert Inv(t) && Extends(s, t);
        AskAllKeeps(t, asked);
        ExtendsThrough(s, t, AskAll(t, asked));
      case SetTimeout =>
        TimedKeeps(s, key);
    }
  }

  lemma TimedHeard(s: State, key: Endpoint)
    requires Inv(s)
    ensures s.nextId !in s.setters
    ensures forall k :: k in s.layers ==> Heard(k, s.layers[k].calls, s.setters[s.nextId := key])
  {
    forall k | k in s.layers ensures Heard(k, s.layers[k].calls, s.setters[s.nextId := key]) {
      HeardLater(k, s.layers[k].calls, s.setters, s.nextId, key);
    }
  }

  lemma HeardLater(k: Endpoint, calls: seq<Call>, setters: map<nat, Endpoint>, id: nat, key: Endpoint)
    requires Heard(k, calls, setters) && id !in setters
    ensures Heard(k, calls, setters[id := key])
  {
  }

  lemma TimedKeeps(s: State, key: Endpoint)
    requires Inv(s) && key in s.layers
    ensures Inv(TimeoutSet(s, key)) && Extends(s, TimeoutSet(s, key))
  {
    TimedHeard(s, key);
    TimedExtends(s, key);
    hide Heard, Extends;
    assert TimeoutSet(s, key).timeouts == TimeoutSet(s, key).setters;
  }

  lemma TimedExtends(s: State, key: Endpoint)
    requires key in s.layers && s.nextId !in s.setters
    ensures Extends(s, TimeoutSet(s, key))
  {
  }

  lemma {:induction false} ActAllKeeps(s: State, key: Endpoint, acts: seq<Act>)
    requires Inv(s) && key in s.layers
    ensures Inv(ActAll(s, key, acts)) && Extends(s, ActAll(s, key, acts))
    decreases acts, 0
  {
    hide Inv, ActOn, Extends;
    if acts == [] {
      ExtendsItself(s);
    } else {
      var t := ActOn(s, key, acts[0]);
      ActKeeps(s, key, acts[0]);
      ActAllKeeps(t, key, acts[1..]);
      ExtendsThrough(s, t, ActAll(t, key, acts[1..]));
    }
  }

  lemma {:induction false} AskAllKeeps(s: State, asked: seq<Asking>)
    requires Inv(s)
    ensures Inv(AskAll(s, asked)) && Extends(s, AskAll(s, asked))
    decreases asked
  {
    hide Inv, Extends, Produce;
    if asked == [] {
      ExtendsItself(s);
    } else {
      var t := Produce(s, asked[0].order, asked[0].answers).state;
      ProduceKeeps(s, asked[0].order, asked[0].answers);
      AskAllKeeps(t, asked[1..]);
      ExtendsThrough(s, t, AskAll(t, asked[1..]));
    }
  }

  lemma {:induction false} ProduceKeeps(s: State, order: seq<Endpoint>, answers: seq<Answer>)
    requires Inv(s)
    ensures Inv(Produce(s, order, answers).state)
    ensures Extends(s, Produce(s, order, answers).state)
    decreases answers
  {
    hide Inv, Called, Extends;
    ExtendsItself(s);
    if order != [] && answers != [] && order[0] in s.layers {
      CalledKeeps(s, order[0], Produced, answers[0].acts);
      if answers[0].verdict == Ok {
        var t := Called(s, order[0], Produced, answers[0].acts);
        ProduceKeeps(t, order[1..], answers[1..]);
        ExtendsThrough(s, t, Produce(t, order[1..], answers[1..]).state);
      }
    }
  }

  lemma HearingKeeps(s: State, key: Endpoint, call: Call)
    requires Inv(s) && key in s.layers && !call.Initialised?
    requires call.TimedOut? ==> call.id in s.setters && s.setters[call.id] == key
    ensures Inv(Hearing(s, key, call)) && Extends(s, Hearing(s, key, call))
  {
    var t := Hearing(s, key, call);
    assert Heard(key, s.layers[key].calls, s.setters);
    forall k | k in t.layers ensures Heard(k, t.layers[k].calls, t.setters) {
      assert Heard(k, s.layers[k].calls, s.setters);
    }
  }

  lemma {:induction false} CalledKeeps(s: State, key: Endpoint, call: Call, acts: seq<Act>)
    requires Inv(s) && key in s.layers && !call.Initialised?
    requires call.TimedOut? ==> call.id in s.setters && s.setters[call.id] == key
    ensures Inv(Called(s, key, call, acts)) && Extends(s, Called(s, key, call, acts))
    decreases acts, 1
  {
    HearingKeeps(s, key, call);
    hide Inv, Extends;
    ActAllKeeps(Hearing(s, key, call), key, acts);
    ExtendsThrough(s, Hearing(s, key, call), Called(s, key, call, acts));
  }

  lemma FreshLayer(s: State, ep: Endpoint, ok: bool)
    requires Inv(s) && ep !in s.layers
    ensures var t := Hearing(s.(layers := s.layers[ep := Layer(ep, [])]), ep, Initialised(ok));
            && t == s.(layers := s.layers[ep := Layer(ep, [Initialised(ok)])])
            && Inv(t)
            && Extends(s, t)
  {
    var t := s.(layers := s.layers[ep := Layer(ep, [Initialised(ok)])]);
    assert [] + [Initialised(ok)] == [Initialised(ok)];
    assert s.layers[ep := Layer(ep, [])][ep := Layer(ep, [Initialised(ok)])] == t.layers;
    forall k | k in t.layers ensures Heard(k, t.layers[k].calls, t.setters) {
      assert k != ep ==> Heard(k, s.layers[k].calls, s.setters);
    }
  }

  // What the layer of k is after next_layer() for ep.
  function Found(s: State, ep: Endpoint, onInit: Answer, k: Endpoint): Layer
    requires k == ep || k in s.layers
  {
    if ep in s.layers then s.layers[k]
    else More(if k == ep then Layer(ep, [Initialised(onInit.verdict == Ok)]) else s.layers[k],
              Asks(s.layers.Keys + {ep}, onInit.acts, k))
  }

  // A new layer hears of its initialisation first.
  lemma NextLayerKeeps(s: State, ep: Endpoint, onInit: Answer)
    requires Inv(s)
    ensures var t := NextLayer(s, ep, onInit).state;
            && Inv(t)
            && Extends(s, t)
            && t.layers.Keys == s.layers.Keys + {ep}
            && t.layers[ep].ep == ep
            && forall k :: k in t.layers ==> t.layers[k] == Found(s, ep, onInit, k)
  {
    ExtendsItself(s);
    if ep in s.layers {
      assert s.layers.Keys + {ep} == s.layers.Keys;
    } else {
      hide Inv, Extends, Hearing, More;
      var ok := onInit.verdict == Ok;
      FreshLayer(s, ep, ok);
      var t := Hearing(s.(layers := s.layers[ep := Layer(ep, [])]), ep, Initialised(ok));
      assert t.layers.Keys == s.layers.Keys + {ep};
      ActAllKeeps(t, ep, onInit.acts);
      ExtendsThrough(s, t, ActAll(t, ep, onInit.acts));
      forall k | k in t.layers ensures ActAll(t, ep, onInit.acts).layers[k] == Found(s, ep, onInit, k) {
        ActAllReaches(t, ep, onInit.acts, k);
      }
      MoreSameEp(t.layers[ep], Asks(t.layers.Keys, onInit.acts, ep));
    }
  }

  lemma MoreSameEp(l: Layer, n: nat)
    ensures More(l, n).ep == l.ep
  {
  }

  // The layer of the endpoint exists and could not be initialised.
  predicate Crippled(s: State, ep: Endpoint) {
    && ep in s.layers
    && s.layers[ep].calls != []
    && s.layers[ep].calls[0] == Initialised(false)
  }

  // No data reached a layer that could not be initialised.
  ghost predicate Proper(calls: seq<Call>) {
    forall i :: 0 <= i < |calls| && calls[i].Consumed? ==>
      calls[0] == Initialised(true)
  }

  // How often data for ep make the transport ask the layer of k.
  function ConsumeAsks(s: State, ep: Endpoint, onInit: Answer, onData: Answer, k: Endpoint): nat {
    var keys := s.layers.Keys + {ep};
    (if ep in s.layers then 0 else Asks(keys, onInit.acts, k))
    + if ep in s.layers || onInit.verdict == Ok then Asks(keys, onData.acts, k) else 0
  }

  lemma ConsumeKeeps(s: State, ep: Endpoint, data: Bytes, onInit: Answer, onData: Answer)
    requires Inv(s)
    ensures var t := Consume(s, ep, data, onInit, onData).state;
            Inv(t) && Extends(s, t) && t.layers.Keys == s.layers.Keys + {ep}
  {
    hide Inv, Extends, Called, NextLayer, Found;
    NextLayerKeeps(s, ep, onInit);
    NextLayerFinds(s, ep, onInit);
    var n := NextLayer(s, ep, onInit).state;
    if ep in s.layers || onInit.verdict == Ok {
      CalledKeeps(n, ep, Consumed(data), onData.acts);
      ExtendsThrough(s, n, Called(n, ep, Consumed(data), onData.acts));
    }
  }

  // What its own layer hears of data.
  function OwnCalls(s: State, ep: Endpoint, data: Bytes, onInit: Answer, onData: Answer): seq<Call> {
    var keys := s.layers.Keys + {ep};
    (if ep in s.layers then s.layers[ep].calls
     else [Initialised(onInit.verdict == Ok)] + Askings(Asks(keys, onInit.acts, ep)))
    + if ep in s.layers || onInit.verdict == Ok then [Consumed(data)] + Askings(Asks(keys, onData.acts, ep)) else []
  }

  lemma OwnConsumes(s: State, ep: Endpoint, data: Bytes, onInit: Answer, onData: Answer)
    requires Inv(s)
    ensures var t := Consume(s, ep, data, onInit, onData).state;
            ep in t.layers && t.layers[ep].calls == OwnCalls(s, ep, data, onInit, onData)
  {
    hide Inv, Extends, Called, NextLayer, Asks, Askings;
    NextLayerKeeps(s, ep, onInit);
    NextLayerFinds(s, ep, onInit);
    var n := NextLayer(s, ep, onInit).state;
    if ep in s.layers || onInit.verdict == Ok {
      CalledReaches(n, ep, Consumed(data), onData.acts, ep);
      var before, asked := n.layers[ep].calls, Askings(Asks(n.layers.Keys, onData.acts, ep));
      assert before + [Consumed(data)] + asked == before + ([Consumed(data)] + asked);
    } else {
      assert n.layers[ep].calls + [] == n.layers[ep].calls;
    }
  }

  /** Data for an endpoint reaches its layer exactly when that exists or can be initialised. Another layer changes if
      and only if a datagram sent meanwhile makes the transport ask it for more, and it hears of nothing else. */
  lemma ConsumeReaches(s: State, ep: Endpoint, data: Bytes, onInit: Answer, onData: Answer)
    requires Inv(s)
    ensures var t := Consume(s, ep, data, onInit, onData).state;
            var keys := s.layers.Keys + {ep};
            && Inv(t)
            && Extends(s, t)
            && t.layers.Keys == keys
            && t.layers[ep].calls == OwnCalls(s, ep, data, onInit, onData)
            && forall k :: k in s.layers && k != ep ==>
                 && t.layers[k] == More(s.layers[k], ConsumeAsks(s, ep, onInit, onData, k))
                 && (t.layers[k] != s.layers[k] <==> ConsumeAsks(s, ep, onInit, onData, k) > 0)
  {
    hide Inv, Extends, Consume, More, ConsumeAsks, OwnCalls;
    ConsumeKeeps(s, ep, data, onInit, onData);
    OwnConsumes(s, ep, data, onInit, onData);
    var t := Consume(s, ep, data, onInit, onData).state;
    forall k | k in s.layers && k != ep
      ensures t.layers[k] == More(s.layers[k], ConsumeAsks(s, ep, onInit, onData, k))
      ensures t.layers[k] != s.layers[k] <==> ConsumeAsks(s, ep, onInit, onData, k) > 0
    {
      OtherConsumes(s, ep, data, onInit, onData, k);
    }
  }

  lemma OtherConsumes(s: State, ep: Endpoint, data: Bytes, onInit: Answer, onData: Answer, k: Endpoint)
    requires Inv(s) && k in s.layers && k != ep
    ensures var t := Consume(s, ep, data, onInit, onData).state;
            var n := ConsumeAsks(s, ep, onInit, onData, k);
            k in t.layers && t.layers[k] == More(s.layers[k], n) && (t.layers[k] != s.layers[k] <==> n > 0)
  {
    hide Inv, Extends, Called, More, NextLayer;
    NextLayerKeeps(s, ep, onInit);
    var n := NextLayer(s, ep, onInit);
    MoreNone(s.layers[k]);
    if ep in s.layers || onInit.verdict == Ok {
      NextLayerFinds(s, ep, onInit);
      CalledReaches(n.state, ep, Consumed(data), onData.acts, k);
      MoreAdds(s.layers[k], if ep in s.layers then 0 else Asks(n.state.layers.Keys, onInit.acts, k),
               Asks(n.state.layers.Keys, onData.acts, k));
    } else {
      NextLayerFinds(s, ep, onInit);
    }
    MoreChanges(s.layers[k], ConsumeAsks(s, ep, onInit, onData, k));
  }

  lemma NextLayerFinds(s: State, ep: Endpoint, onInit: Answer)
    ensures NextLayer(s, ep, onInit).verdict == if ep in s.layers || onInit.verdict == Ok then Ok else Error
  {
  }

  lemma MoreChanges(l: Layer, n: nat)
    ensures More(l, n) != l <==> n > 0
  {
    AskingsAdd(0, n);
    assert |More(l, n).calls| == |l.calls| + n;
    MoreNone(l);
  }

  /** Data only ever reaches layers that were initialised successfully exactly as long as none arrives for an endpoint
      whose layer could not be: the dispatcher answers an error then but keeps that layer, and would deliver to it as
      if nothing had happened. */
  lemma ConsumeExactness(s: State, ep: Endpoint, data: Bytes, onInit: Answer, onData: Answer)
    requires Inv(s) && (ep in s.layers ==> Proper(s.layers[ep].calls))
    ensures var t := Consume(s, ep, data, onInit, onData).state;
            && ep in t.layers
            && (Proper(t.layers[ep].calls) <==> !Crippled(s, ep))
  {
    ConsumeReaches(s, ep, data, onInit, onData);
    hide Consume;
    var calls := Consume(s, ep, data, onInit, onData).state.layers[ep].calls;
    if ep in s.layers {
      var before := s.layers[ep].calls;
      assert calls[|before|] == Consumed(data) && calls[0] == before[0];
    } else {
      AskingsAdd(0, Asks(s.layers.Keys + {ep}, onInit.acts, ep));
      assert calls[0] == Initialised(onInit.verdict == Ok);
    }
  }

  /** A fired id reaches exactly the layer that set it; an id set by nobody here is an error and reaches none. Another
      layer changes if and only if a datagram sent meanwhile makes the transport ask it for more. */
  lemma TimeoutRouting(s: State, id: nat, onTimeout: Answer)
    requires Inv(s)
    ensures var r := HandleTimeout(s, id, onTimeout);
            && Inv(r.state) && Extends(s, r.state)
            && (if id in s.setters then
                  var key := s.setters[id];
                  && r.state.layers.Keys == s.layers.Keys
                  && key in s.layers
                  && r.state.layers[key].calls
                     == s.layers[key].calls + [TimedOut(id)] + Askings(Asks(s.layers.Keys, onTimeout.acts, key))
                  && forall k :: k in s.layers && k != key ==>
                       && r.state.layers[k] == More(s.layers[k], Asks(s.layers.Keys, onTimeout.acts, k))
                       && (r.state.layers[k] != s.layers[k] <==> Asks(s.layers.Keys, onTimeout.acts, k) > 0)
                else r == Result(s, Error))
  {
    if id in s.setters {
      var key := s.setters[id];
      CalledKeeps(s, key, TimedOut(id), onTimeout.acts);
      CalledReaches(s, key, TimedOut(id), onTimeout.acts, key);
      hide Inv, Extends, Called, More;
      MoreCalls(Layer(s.layers[key].ep, s.layers[key].calls + [TimedOut(id)]),
                Asks(s.layers.Keys, onTimeout.acts, key));
      forall k | k in s.layers && k != key
        ensures Called(s, key, TimedOut(id), onTimeout.acts).layers[k]
             == More(s.layers[k], Asks(s.layers.Keys, onTimeout.acts, k))
        ensures More(s.layers[k], Asks(s.layers.Keys, onTimeout.acts, k)) != s.layers[k]
           <==> Asks(s.layers.Keys, onTimeout.acts, k) > 0
      {
        CalledReaches(s, key, TimedOut(id), onTimeout.acts, k);
        MoreChanges(s.layers[k], Asks(s.layers.Keys, onTimeout.acts, k));
      }
    }
  }

  lemma MoreCalls(l: Layer, n: nat)
    ensures More(l, n).calls == l.calls + Askings(n)
  {
  }

  // A reply that makes the transport ask b once.
  function Reply(data: Bytes, b: Endpoint): Answer {
    Answer([Send(data, [Asking([b], [Answer([], Ok)])])], Ok)
  }

  lemma ReplyAsksOnce(keys: set<Endpoint>, data: Bytes, b: Endpoint)
    requires b in keys
    ensures Asks(keys, Reply(data, b).acts, b) == 1
  {
    var answers := [Answer([], Ok)];
    var acts := Reply(data, b).acts;
    assert [b][1..] == [] && answers[1..] == [];
    assert Visits(keys, [b], answers, b) == 1 + Visits(keys, [], [], b) == 1;
    assert [Asking([b], answers)][1..] == [];
    assert AllAsks(keys, [Asking([b], answers)], b) == 1 + AllAsks(keys, [], b) == 1;
    assert acts[1..] == [];
    assert Asks(keys, acts, b) == AsksIn(keys, acts[0], b) + Asks(keys, [], b);
  }

  /** Data for one endpoint changes the layer of another: the reply of a makes the transport ask b. */
  lemma ReplyAsksExample(a: Endpoint, b: Endpoint, data: Bytes, reply: Bytes)
    requires a != b
    ensures var started := [Initialised(true)];
            var s := State(map[a := Layer(a, started), b := Layer(b, started)], map[], map[], 0, []);
            var t := Consume(s, a, data, Answer([], Ok), Reply(reply, b)).state;
            Inv(s) && b in t.layers && t.layers[b] == Layer(b, started + [Produced])
  {
    var started := [Initialised(true)];
    var s := State(map[a := Layer(a, started), b := Layer(b, started)], map[], map[], 0, []);
    assert Inv(s);
    ReplyAsksOnce(s.layers.Keys + {a}, reply, b);
    hide Inv, Consume, Asks, Reply;
    ConsumeReaches(s, a, data, Answer([], Ok), Reply(reply, b));
    assert Askings(1) == [Produced] + Askings(0) == [Produced];
  }

  lemma NextKeeps(s: State, step: Step)
    requires Inv(s)
    ensures Inv(Next(s, step)) && Extends(s, Next(s, step))
  {
    match step {
      case Receive(ep, data, onInit, onData) => ConsumeReaches(s, ep, data, onInit, onData);
      case Fire(id, onTimeout) => TimeoutRouting(s, id, onTimeout);
      case Flush(order, answers) => ProduceKeeps(s, order, answers);
      case OtherTimeouts(count) =>
    }
  }

  /** Over every run, with ids handed out in order and datagrams that make the transport ask for more at once: each
      layer is created once, initialised first and only once, hears only of the timeouts it set, and sends only to its
      own endpoint; nothing it heard is ever forgotten. */
  lemma {:induction false} RoutingOverRuns(s: State, steps: seq<Step>)
    requires Inv(s)
    ensures Inv(Run(s, steps)) && Extends(s, Run(s, steps))
    decreases |steps|
  {
    hide Inv, Next, Extends;
    if steps == [] {
      ExtendsItself(s);
    } else {
      NextKeeps(s, steps[0]);
      RoutingOverRuns(Next(s, steps[0]), steps[1..]);
      ExtendsThrough(s, Next(s, steps[0]), Run(s, steps));
    }
  }

  ghost predicate AllProper(s: State) {
    forall key :: key in s.layers ==> Proper(s.layers[key].calls)
  }

  // No datagram arrives for an endpoint whose layer could not be initialised.
  predicate SafeRun(s: State, steps: seq<Step>)
    decreases |steps|
  {
    steps != [] ==> !(steps[0].Receive? && Crippled(s, steps[0].ep)) && SafeRun(Next(s, steps[0]), steps[1..])
  }

  lemma ProperMore(l: Layer, n: nat)
    requires l.calls != []
    ensures Proper(More(l, n).calls) <==> Proper(l.calls)
  {
    AskingsAdd(0, n);
    var more := More(l, n).calls;
    assert forall i :: 0 <= i < |l.calls| ==> more[i] == l.calls[i];
    assert forall i :: |l.calls| <= i < |more| ==> more[i] == Askings(n)[i - |l.calls|];
  }

  lemma FireProper(s: State, id: nat, onTimeout: Answer)
    requires Inv(s) && AllProper(s) && id in s.setters
    ensures AllProper(HandleTimeout(s, id, onTimeout).state)
  {
    var key := s.setters[id];
    TimeoutRouting(s, id, onTimeout);
    var t := HandleTimeout(s, id, onTimeout).state;
    hide HandleTimeout, More;
    forall k | k in t.layers ensures Proper(t.layers[k].calls) {
      var n := Asks(s.layers.Keys, onTimeout.acts, k);
      if k == key {
        var heard := Layer(key, s.layers[key].calls + [TimedOut(id)]);
        assert forall i :: 0 <= i < |s.layers[key].calls| ==> heard.calls[i] == s.layers[key].calls[i];
        assert Proper(s.layers[key].calls);
        ProperMore(heard, n);
        MoreCalls(heard, n);
      } else {
        ProperMore(s.layers[k], n);
      }
    }
  }

  lemma ProduceProper(s: State, order: seq<Endpoint>, answers: seq<Answer>)
    requires Inv(s) && AllProper(s)
    ensures AllProper(Produce(s, order, answers).state)
  {
    var t := Produce(s, order, answers).state;
    hide Produce, Proper, More;
    forall k | k in t.layers ensures Proper(t.layers[k].calls) {
      ProduceReaches(s, order, answers, k);
      ProperMore(s.layers[k], Visits(s.layers.Keys, order, answers, k));
    }
  }

  lemma NextProper(s: State, step: Step)
    requires Inv(s) && AllProper(s)
    ensures AllProper(Next(s, step)) <==> !(step.Receive? && Crippled(s, step.ep))
  {
    match step {
      case Receive(ep, data, onInit, onData) =>
        ConsumeReaches(s, ep, data, onInit, onData);
        ConsumeExactness(s, ep, data, onInit, onData);
        var t := Consume(s, ep, data, onInit, onData).state;
        hide Consume, Crippled, Proper, More;
        forall key | key in t.layers && key != ep ensures Proper(t.layers[key].calls) {
          ProperMore(s.layers[key], ConsumeAsks(s, ep, onInit, onData, key));
        }
      case Fire(id, onTimeout) =>
        if id in s.timeouts {
          FireProper(s, id, onTimeout);
        }
      case Flush(order, answers) => ProduceProper(s, order, answers);
      case OtherTimeouts(count) =>
    }
  }

  lemma ImproperStays(s: State, t: State)
    requires Extends(s, t) && AllProper(t)
    ensures AllProper(s)
  {
    forall key | key in s.layers ensures Proper(s.layers[key].calls) {
      var a, b := s.layers[key].calls, t.layers[key].calls;
      assert forall i :: 0 <= i < |a| ==> a[i] == b[i];
    }
  }

  /** Over every run, of callers that go on after an error too, data reaches initialised layers only, exactly when no
      datagram arrives for an endpoint whose layer could not be initialised. */
  lemma {:induction false} ProperOverRuns(s: State, steps: seq<Step>)
    requires Inv(s) && AllProper(s)
    ensures AllProper(Run(s, steps)) <==> SafeRun(s, steps)
    decreases |steps|
  {
    hide Inv, Next, AllProper, Extends, Crippled;
    if steps != [] {
      NextProper(s, steps[0]);
      NextKeeps(s, steps[0]);
      var t := Next(s, steps[0]);
      RoutingOverRuns(t, steps[1..]);
      if AllProper(t) {
        ProperOverRuns(t, steps[1..]);
      } else if AllProper(Run(s, steps)) {
        ImproperStays(t, Run(s, steps));
      }
    }
  }

  // -- What is sent and set ---------------------------------------------------

  // What leaves a layer: data, a timeout, or ids that go to other managers.
  datatype Effect = Sent(from: Endpoint, data: Bytes) | Timed(from: Endpoint) | Skipped(count: nat)

  // In the order in which it happens, told by the acts alone.
  function Effects(keys: set<Endpoint>, key: Endpoint, acts: seq<Act>): seq<Effect>
    decreases acts, 0
  {
    if acts == [] then [] else EffectsIn(keys, key, acts[0]) + Effects(keys, key, acts[1..])
  }

  function EffectsIn(keys: set<Endpoint>, key: Endpoint, a: Act): seq<Effect>
    decreases a
  {
    match a
    case Send(data, asked) => [Sent(key, data)] + AllEffects(keys, asked)
    case SetTimeout => [Timed(key)]
  }

  function AllEffects(keys: set<Endpoint>, asked: seq<Asking>): seq<Effect>
    decreases asked
  {
    if asked == [] then [] else ProduceEffects(keys, asked[0].order, asked[0].answers) + AllEffects(keys, asked[1..])
  }

  function ProduceEffects(keys: set<Endpoint>, order: seq<Endpoint>, answers: seq<Answer>): seq<Effect>
    decreases answers
  {
    if order == [] || answers == [] || order[0] !in keys then []
    else
      Effects(keys, order[0], answers[0].acts)
      + if answers[0].verdict != Ok then [] else ProduceEffects(keys, order[1..], answers[1..])
  }

  // A datagram goes from and to the layer's endpoint; a timeout gets the next id, which leads back to it.
  function Applied(s: State, es: seq<Effect>): (t: State)
    ensures t.layers == s.layers
    decreases |es|
  {
    if es == [] then s
    else
      match es[0]
      case Sent(from, data) => Applied(s.(out := s.out + [Outgoing(from, from, data)]), es[1..])
      case Timed(from) =>
        Applied(s.(timeouts := s.timeouts[s.nextId := from], setters := s.setters[s.nextId := from],
                nextId := s.nextId + 1), es[1..])
      case Skipped(count) => Applied(s.(nextId := s.nextId + count), es[1..])
  }

  // Layers apart, the effects are all that has changed.
  predicate Affected(s: State, t: State, es: seq<Effect>) {
    t == Applied(s, es).(layers := t.layers)
  }

  lemma {:induction false} AppliedElsewhere(s: State, es: seq<Effect>, layers: map<Endpoint, Layer>)
    ensures Applied(s.(layers := layers), es) == Applied(s, es).(layers := layers)
    decreases |es|
  {
    if es != [] {
      match es[0] {
        case Sent(from, data) =>
          AppliedElsewhere(s.(out := s.out + [Outgoing(from, from, data)]), es[1..], layers);
        case Timed(from) =>
          AppliedElsewhere(s.(timeouts := s.timeouts[s.nextId := from], setters := s.setters[s.nextId := from],
                           nextId := s.nextId + 1), es[1..], layers);
        case Skipped(count) => AppliedElsewhere(s.(nextId := s.nextId + count), es[1..], layers);
      }
    }
  }

  lemma {:induction false} AppliedBoth(s: State, a: seq<Effect>, b: seq<Effect>)
    ensures Applied(s, a + b) == Applied(Applied(s, a), b)
    decreases |a|
  {
    if a == [] {
      assert a + b == b;
    } else {
      assert (a + b)[1..] == a[1..] + b;
      match a[0] {
        case Sent(from, data) => AppliedBoth(s.(out := s.out + [Outgoing(from, from, data)]), a[1..], b);
        case Timed(from) =>
          AppliedBoth(s.(timeouts := s.timeouts[s.nextId := from], setters := s.setters[s.nextId := from],
                      nextId := s.nextId + 1), a[1..], b);
        case Skipped(count) => AppliedBoth(s.(nextId := s.nextId + count), a[1..], b);
      }
    }
  }

  lemma AffectedThrough(s: State, t: State, u: State, a: seq<Effect>, b: seq<Effect>)
    requires Affected(s, t, a) && Affected(t, u, b)
    ensures Affected(s, u, a + b)
  {
    AppliedBoth(s, a, b);
    AppliedElsewhere(Applied(s, a), b, t.layers);
  }

  lemma AffectedNot(s: State, t: State)
    requires t == s.(layers := t.layers)
    ensures Affected(s, t, [])
  {
  }

  // Whatever the layers were before.
  lemma AffectedBefore(s: State, r: State, t: State, es: seq<Effect>)
    requires Affected(s, t, es) && s == r.(layers := s.layers)
    ensures Affected(r, t, es)
  {
    AppliedElsewhere(r, es, s.layers);
  }

  lemma {:induction false} ActAffects(s: State, key: Endpoint, a: Act)
    requires Inv(s) && key in s.layers
    ensures Affected(s, ActOn(s, key, a), EffectsIn(s.layers.Keys, key, a))
    decreases a
  {
    assert s.layers[key].ep == key && s.nextId !in s.timeouts;
    match a {
      case Send(data, asked) =>
        var t := s.(out := s.out + [Outgoing(key, key, data)]);
        assert Inv(t);
        AskAllAffects(t, asked);
        hide Inv, AskAll, AllEffects;
        var e := Sent(key, data);
        assert [e][1..] == [];
        assert Applied(s, [e]) == Applied(t, []) == t;
        AffectedThrough(s, t, AskAll(t, asked), [e], AllEffects(s.layers.Keys, asked));
      case SetTimeout =>
        var e := Timed(key);
        assert [e][1..] == [];
        assert Applied(s, [e]) == Applied(TimeoutSet(s, key), []);
    }
  }

  lemma {:induction false} ActAllAffects(s: State, key: Endpoint, acts: seq<Act>)
    requires Inv(s) && key in s.layers
    ensures Affected(s, ActAll(s, key, acts), Effects(s.layers.Keys, key, acts))
    decreases acts, 0
  {
    hide Inv, ActOn, EffectsIn, Affected;
    if acts == [] {
      AffectedNot(s, s);
    } else {
      var t := ActOn(s, key, acts[0]);
      ActKeeps(s, key, acts[0]);
      ActAffects(s, key, acts[0]);
      ActAllAffects(t, key, acts[1..]);
      AffectedThrough(s, t, ActAll(t, key, acts[1..]), EffectsIn(s.layers.Keys, key, acts[0]),
                      Effects(s.layers.Keys, key, acts[1..]));
    }
  }

  lemma {:induction false} AskAllAffects(s: State, asked: seq<Asking>)
    requires Inv(s)
    ensures Affected(s, AskAll(s, asked), AllEffects(s.layers.Keys, asked))
    decreases asked
  {
    hide Inv, Produce, ProduceEffects, Affected;
    if asked == [] {
      AffectedNot(s, s);
    } else {
      var order, answers := asked[0].order, asked[0].answers;
      var t := Produce(s, order, answers).state;
      ProduceKeeps(s, order, answers);
      ProduceAffects(s, order, answers);
      AskAllAffects(t, asked[1..]);
      AffectedThrough(s, t, AskAll(t, asked[1..]), ProduceEffects(s.layers.Keys, order, answers),
                      AllEffects(s.layers.Keys, asked[1..]));
    }
  }

  lemma {:induction false} ProduceAffects(s: State, order: seq<Endpoint>, answers: seq<Answer>)
    requires Inv(s)
    ensures Affected(s, Produce(s, order, answers).state, ProduceEffects(s.layers.Keys, order, answers))
    decreases answers
  {
    hide Inv, Called, Effects, Affected;
    if order == [] || answers == [] || order[0] !in s.layers {
      AffectedNot(s, s);
    } else {
      var t := Called(s, order[0], Produced, answers[0].acts);
      var first := Effects(s.layers.Keys, order[0], answers[0].acts);
      CalledKeeps(s, order[0], Produced, answers[0].acts);
      CalledAffects(s, order[0], Produced, answers[0].acts);
      if answers[0].verdict == Ok {
        ProduceAffects(t, order[1..], answers[1..]);
        AffectedThrough(s, t, Produce(t, order[1..], answers[1..]).state, first,
                        ProduceEffects(s.layers.Keys, order[1..], answers[1..]));
      } else {
        assert first + [] == first;
      }
    }
  }

  lemma {:induction false} CalledAffects(s: State, key: Endpoint, call: Call, acts: seq<Act>)
    requires Inv(s) && key in s.layers && !call.Initialised?
    requires call.TimedOut? ==> call.id in s.setters && s.setters[call.id] == key
    ensures Affected(s, Called(s, key, call, acts), Effects(s.layers.Keys, key, acts))
    decreases acts, 1
  {
    HearingKeeps(s, key, call);
    var t := Hearing(s, key, call);
    assert t.layers.Keys == s.layers.Keys;
    ActAllAffects(t, key, acts);
    hide Inv, ActAll, Effects;
    AffectedBefore(t, s, ActAll(t, key, acts), Effects(s.layers.Keys, key, acts));
  }

  // What a step sends and sets.
  function StepEffects(s: State, step: Step): seq<Effect> {
    match step
    case Receive(ep, _, onInit, onData) =>
      var keys := s.layers.Keys + {ep};
      (if ep in s.layers then [] else Effects(keys, ep, onInit.acts))
      + if ep in s.layers || onInit.verdict == Ok then Effects(keys, ep, onData.acts) else []
    case Fire(id, onTimeout) =>
      if id in s.setters then Effects(s.layers.Keys, s.setters[id], onTimeout.acts) else []
    case Flush(order, answers) => ProduceEffects(s.layers.Keys, order, answers)
    case OtherTimeouts(count) => [Skipped(count)]
  }

  lemma NewLayerAffects(s: State, ep: Endpoint, onInit: Answer)
    requires Inv(s) && ep !in s.layers
    ensures Affected(s, NextLayer(s, ep, onInit).state, Effects(s.layers.Keys + {ep}, ep, onInit.acts))
  {
    var ok := onInit.verdict == Ok;
    FreshLayer(s, ep, ok);
    hide Inv;
    var t := Hearing(s.(layers := s.layers[ep := Layer(ep, [])]), ep, Initialised(ok));
    assert t.layers.Keys == s.layers.Keys + {ep};
    ActAllAffects(t, ep, onInit.acts);
    AffectedBefore(t, s, ActAll(t, ep, onInit.acts), Effects(t.layers.Keys, ep, onInit.acts));
  }

  lemma ConsumeAffects(s: State, ep: Endpoint, data: Bytes, onInit: Answer, onData: Answer)
    requires Inv(s)
    ensures Affected(s, Consume(s, ep, data, onInit, onData).state, StepEffects(s, Receive(ep, data, onInit, onData)))
  {
    hide Inv, Called, NextLayer, Effects, Affected, Found;
    NextLayerKeeps(s, ep, onInit);
    NextLayerFinds(s, ep, onInit);
    var n := NextLayer(s, ep, onInit).state;
    var first := if ep in s.layers then [] else Effects(s.layers.Keys + {ep}, ep, onInit.acts);
    if ep in s.layers {
      FoundLayer(s, ep, onInit);
      AffectedNot(s, n);
    } else {
      NewLayerAffects(s, ep, onInit);
    }
    if ep in s.layers || onInit.verdict == Ok {
      CalledAffects(n, ep, Consumed(data), onData.acts);
      AffectedThrough(s, n, Called(n, ep, Consumed(data), onData.acts), first,
                      Effects(s.layers.Keys + {ep}, ep, onData.acts));
    } else {
      assert first + [] == first;
    }
  }

  lemma FoundLayer(s: State, ep: Endpoint, onInit: Answer)
    ensures ep in s.layers ==> NextLayer(s, ep, onInit).state == s
  {
  }

  lemma NextAffects(s: State, step: Step)
    requires Inv(s)
    ensures Affected(s, Next(s, step), StepEffects(s, step))
  {
    match step {
      case Receive(ep, data, onInit, onData) => ConsumeAffects(s, ep, data, onInit, onData);
      case Fire(id, onTimeout) =>
        if id in s.setters {
          CalledAffects(s, s.setters[id], TimedOut(id), onTimeout.acts);
        } else {
          AffectedNot(s, s);
        }
      case Flush(order, answers) => ProduceAffects(s, order, answers);
      case OtherTimeouts(count) => assert [Skipped(count)][1..] == [];
    }
  }

  function RunEffects(s: State, steps: seq<Step>): seq<Effect>
    decreases |steps|
  {
    if steps == [] then [] else StepEffects(s, steps[0]) + RunEffects(Next(s, steps[0]), steps[1..])
  }

  /** Over every run, what is sent is what the layers sent, in that order, each to its own endpoint, and every timeout
      they set got the next id, under which it leads back to them. */
  lemma {:induction false} EffectsOverRuns(s: State, steps: seq<Step>)
    requires Inv(s)
    ensures Affected(s, Run(s, steps), RunEffects(s, steps))
    decreases |steps|
  {
    hide Inv, Next, StepEffects, Affected;
    if steps == [] {
      AffectedNot(s, s);
    } else {
      NextAffects(s, steps[0]);
      NextKeeps(s, steps[0]);
      EffectsOverRuns(Next(s, steps[0]), steps[1..]);
      AffectedThrough(s, Next(s, steps[0]), Run(s, steps), StepEffects(s, steps[0]),
                      RunEffects(Next(s, steps[0]), steps[1..]));
    }
  }

  // -- Verdicts ---------------------------------------------------------------

  /** Data for a layer that cannot be initialised, and ids nobody here set, are answered with an error; everything else
      with what the layer answers. */
  lemma VerdictExactness(s: State, ep: Endpoint, data: Bytes, onInit: Answer, onData: Answer, id: nat)
    requires Inv(s)
    ensures Consume(s, ep, data, onInit, onData).verdict
         == if ep in s.layers || onInit.verdict == Ok then onData.verdict else Error
    ensures HandleTimeout(s, id, onData).verdict == if id in s.setters then onData.verdict else Error
  {
    NextLayerKeeps(s, ep, onInit);
    NextLayerFinds(s, ep, onInit);
  }

  /** produce answers what the first layer that is not content answers, and Ok if there is none. */
  lemma {:induction false} ProduceVerdict(s: State, order: seq<Endpoint>, answers: seq<Answer>) returns (n: nat)
    ensures n <= |order| && n <= |answers|
    ensures forall i :: 0 <= i < n ==> order[i] in s.layers && answers[i].verdict == Ok
    ensures var verdict := Produce(s, order, answers).verdict;
            if n < |order| && n < |answers| && order[n] in s.layers
            then answers[n].verdict != Ok && verdict == answers[n].verdict
            else verdict == Ok
    decreases answers
  {
    n := 0;
    if order != [] && answers != [] && order[0] in s.layers && answers[0].verdict == Ok {
      hide Called;
      var m := ProduceVerdict(Called(s, order[0], Produced, answers[0].acts), order[1..], answers[1..]);
      n := m + 1;
      forall i | 0 <= i < n ensures order[i] in s.layers && answers[i].verdict == Ok {
        if i > 0 {
          assert order[i] == order[1..][i - 1] && answers[i] == answers[1..][i - 1];
        }
      }
    }
  }

  // -- Runs of the library ----------------------------------------------------

  predicate NoReceives(steps: seq<Step>) {
    forall i :: 0 <= i < |steps| ==> !steps[i].Receive?
  }

  // The transport hands on the error of consume, and the multiplexer removes it: nothing is received after that. On
  // io_uring writes in flight may still complete and ask for more.
  predicate LibraryRun(s: State, steps: seq<Step>)
    decreases |steps|
  {
    steps != [] ==>
      && (steps[0].Receive? && Answered(s, steps[0]) == Error ==> NoReceives(steps[1..]))
      && LibraryRun(Next(s, steps[0]), steps[1..])
  }

  function Answered(s: State, step: Step): Verdict
    requires step.Receive?
  {
    Consume(s, step.ep, step.data, step.onInit, step.onData).verdict
  }

  ghost predicate NoneCrippled(s: State) {
    forall ep :: !Crippled(s, ep)
  }

  // A layer stays as it was initialised.
  lemma CrippledStays(s: State, t: State, ep: Endpoint)
    requires Inv(s) && Extends(s, t) && ep in s.layers
    ensures Crippled(t, ep) <==> Crippled(s, ep)
  {
  }

  // Only data for a new endpoint add a layer.
  lemma NextLayers(s: State, step: Step)
    requires Inv(s)
    ensures Next(s, step).layers.Keys == s.layers.Keys + if step.Receive? then {step.ep} else {}
  {
    match step {
      case Receive(ep, data, onInit, onData) => ConsumeReaches(s, ep, data, onInit, onData);
      case Fire(id, onTimeout) => TimeoutRouting(s, id, onTimeout);
      case Flush(order, answers) =>
      case OtherTimeouts(count) =>
    }
  }

  // Only a failed initialisation, which is answered with an error, leaves a layer crippled.
  lemma NextNoneCrippled(s: State, step: Step)
    requires Inv(s) && NoneCrippled(s)
    ensures NoneCrippled(Next(s, step))
            <==> !(step.Receive? && step.ep !in s.layers && step.onInit.verdict != Ok)
    ensures step.Receive? && step.ep !in s.layers && step.onInit.verdict != Ok ==> Answered(s, step) == Error
  {
    var t := Next(s, step);
    NextKeeps(s, step);
    NextLayers(s, step);
    if step.Receive? && step.ep !in s.layers {
      ConsumeReaches(s, step.ep, step.data, step.onInit, step.onData);
      assert Crippled(t, step.ep) <==> step.onInit.verdict != Ok;
    }
    hide Inv, Extends, Next, Consume;
    forall ep | ep in s.layers ensures !Crippled(t, ep) {
      CrippledStays(s, t, ep);
    }
    if step.Receive? && step.ep !in s.layers && Crippled(t, step.ep) {
      assert !NoneCrippled(t);
    }
  }

  lemma {:induction false} NoReceivesSafe(s: State, steps: seq<Step>)
    requires NoReceives(steps)
    ensures SafeRun(s, steps)
    decreases |steps|
  {
    hide Next, Crippled;
    if steps != [] {
      assert forall i :: 0 <= i < |steps[1..]| ==> steps[1..][i] == steps[i + 1];
      NoReceivesSafe(Next(s, steps[0]), steps[1..]);
    }
  }

  /** In the library, where nothing is received after an error, no datagram ever arrives for a layer whose
      initialisation failed, and data reaches initialised layers only. */
  lemma {:induction false} InitialisedOverLibraryRuns(s: State, steps: seq<Step>)
    requires Inv(s) && AllProper(s) && NoneCrippled(s) && LibraryRun(s, steps)
    ensures SafeRun(s, steps) && AllProper(Run(s, steps))
    decreases |steps|
  {
    ProperOverRuns(s, steps);
    hide Inv, Next, AllProper, NoneCrippled, Crippled, Answered, NoReceives;
    if steps != [] {
      NoneIsCrippled(s);
      NextKeeps(s, steps[0]);
      NextProper(s, steps[0]);
      NextNoneCrippled(s, steps[0]);
      var t := Next(s, steps[0]);
      if NoneCrippled(t) {
        InitialisedOverLibraryRuns(t, steps[1..]);
      } else {
        NoReceivesSafe(t, steps[1..]);
      }
    }
  }

  lemma NoneIsCrippled(s: State)
    requires NoneCrippled(s)
    ensures forall ep :: !Crippled(s, ep)
  {
  }

  // -- The dispatcher ---------------------------------------------------------

  class DatagramDispatcher {
    var layers: map<Endpoint, Layer>
    var timeouts: map<nat, Endpoint>
    var currentTimeoutId: nat
    var sent: seq<Outgoing>
    ghost var setters: map<nat, Endpoint>

    ghost function Abstract(): State
      reads this
    {
      State(layers, timeouts, setters, currentTimeoutId, sent)
    }

    constructor (currentTimeoutId: nat)
      ensures Abstract() == State(map[], map[], map[], currentTimeoutId, [])
      ensures Inv(Abstract())
    {
      this.currentTimeoutId := currentTimeoutId;
      layers, timeouts, sent, setters := map[], map[], [], map[];
    }

    // enqueue() of both wrappers; the transport may ask for more at once.
    method EnqueueFor(key: Endpoint, data: Bytes, asked: seq<Asking>)
      requires key in layers
      modifies this
      ensures Abstract() == ActOn(old(Abstract()), key, Send(data, asked))
      ensures layers.Keys == old(layers).Keys
      decreases asked
    {
      hide Produce;
      sent := sent + [Outgoing(key, layers[key].ep, data)];
      ghost var s := Abstract();
      for i := 0 to |asked|
        invariant layers.Keys == s.layers.Keys
        invariant AskAll(Abstract(), asked[i..]) == AskAll(s, asked)
      {
        assert asked[i..][0] == asked[i] && asked[i..][1..] == asked[i + 1..];
        var _ := ProduceData(asked[i].order, asked[i].answers);
      }
      assert asked[|asked|..] == [];
    }

    // set_timeout_in() and set_timeout_at() of both wrappers
    method SetTimeoutFor(key: Endpoint) returns (id: nat)
      requires key in layers
      modifies this`timeouts, this`currentTimeoutId, this`setters
      ensures id == old(currentTimeoutId)
      ensures Abstract() == ActOn(old(Abstract()), key, SetTimeout)
    {
      id := currentTimeoutId;
      currentTimeoutId := currentTimeoutId + 1;
      if id !in timeouts {
        timeouts := timeouts[id := layers[key].ep];
      }
      setters := setters[id := key];
    }

    // The layer hears of something and acts.
    method CallLayer(key: Endpoint, call: Call, acts: seq<Act>)
      requires key in layers
      modifies this
      ensures Abstract() == Called(old(Abstract()), key, call, acts)
      ensures layers.Keys == old(layers).Keys
      decreases acts, 1
    {
      hide ActOn;
      layers := layers[key := Layer(layers[key].ep, layers[key].calls + [call])];
      ghost var s := Abstract();
      for i := 0 to |acts|
        invariant layers.Keys == s.layers.Keys
        invariant ActAll(Abstract(), key, acts[i..]) == ActAll(s, key, acts)
      {
        assert acts[i..][0] == acts[i] && acts[i..][1..] == acts[i + 1..];
        match acts[i] {
          case Send(data, asked) => EnqueueFor(key, data, asked);
          case SetTimeout => var _ := SetTimeoutFor(key);
        }
      }
      assert acts[|acts|..] == [];
    }

    // next_layer()
    method FindLayer(ep: Endpoint, onInit: Answer) returns (found: bool)
      modifies this
      ensures Result(Abstract(), if found then Ok else Error) == NextLayer(old(Abstract()), ep, onInit)
      ensures ep in layers
    {
      hide Called;
      if ep in layers {
        return true;
      }
      layers := layers[ep := Layer(ep, [])];
      assert ep in layers;
      CallLayer(ep, Initialised(onInit.verdict == Ok), onInit.acts);
      found := onInit.verdict == Ok;
    }

    method ConsumeData(ep: Endpoint, data: Bytes, onInit: Answer, onData: Answer) returns (verdict: Verdict)
      modifies this
      ensures Result(Abstract(), verdict) == Consume(old(Abstract()), ep, data, onInit, onData)
    {
      hide NextLayer, Called;
      var found := FindLayer(ep, onInit);
      if !found {
        return Error;
      }
      if layers[ep].ep != ep {
        return Error;
      }
      CallLayer(ep, Consumed(data), onData.acts);
      verdict := onData.verdict;
    }

    method FireTimeout(id: nat, onTimeout: Answer) returns (verdict: Verdict)
      modifies this
      ensures Result(Abstract(), verdict) == HandleTimeout(old(Abstract()), id, onTimeout)
    {
      hide Called;
      if id !in timeouts {
        return Error;
      }
      var ep := timeouts[id];
      if ep !in layers {
        return Error;
      }
      CallLayer(ep, TimedOut(id), onTimeout.acts);
      verdict := onTimeout.verdict;
    }

    method ProduceData(order: seq<Endpoint>, answers: seq<Answer>) returns (verdict: Verdict)
      modifies this
      ensures Result(Abstract(), verdict) == Produce(old(Abstract()), order, answers)
      ensures layers.Keys == old(layers).Keys
      decreases answers
    {
      hide Called;
      ghost var s := Abstract();
      var i := 0;
      while i < |order| && i < |answers| && order[i] in layers
        invariant i <= |order| && i <= |answers|
        invariant layers.Keys == s.layers.Keys
        invariant Produce(Abstract(), order[i..], answers[i..]) == Produce(s, order, answers)
      {
        assert order[i..][1..] == order[i + 1..] && answers[i..][1..] == answers[i + 1..];
        CallLayer(order[i], Produced, answers[i].acts);
        if answers[i].verdict != Ok {
          return answers[i].verdict;
        }
        i := i + 1;
      }
      verdict := Ok;
    }
  }
}
