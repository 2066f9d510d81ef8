/** The read side of the stream transport: a read buffer filled piecewise, handed to the next layer
    once a minimum number of bytes is there, and reconfigured by that layer while it consumes. */
module StreamInput {
  import opened ByteBuffers
  import opened ManagerResult

  datatype Policy = Policy(minSize: nat, maxSize: nat)

  // What one call of consume does: the read policies it configures, in order, and whether it reports an error.
  datatype Reaction = Reaction(policies: seq<Policy>, failed: bool)

  // The socket offers some bytes (none: the peer has closed), or fails.
  datatype ReadResult = Available(bytes: Bytes) | NotReady | Broken

  // `consumed` and `read` record the chunks given to consume and all bytes read from the socket.
  datatype In = In(received: nat, minReadSize: nat, buffer: Bytes, consumed: seq<Bytes>, read: Bytes)

  // What read number i of an event meets; after the given results nothing is ready.
  function Outcome(socket: seq<ReadResult>, i: nat): ReadResult {
    if i < |socket| then socket[i] else NotReady
  }

  // How the application reacts to chunk number k; after the given reactions it just consumes.
  function React(app: seq<Reaction>, k: nat): Reaction {
    if k < |app| then app[k] else Reaction([], false)
  }

  predicate InBounds(s: In) {
    s.received <= |s.buffer|
  }

  function Resized(b: Bytes, n: nat): (r: Bytes)
    ensures |r| == n
  {
    if n <= |b| then b[..n] else b + seq(n - |b|, _ => 0)
  }

  function Configure(s: In, p: Policy): (r: In)
    ensures InBounds(r) && r.consumed == s.consumed && r.read == s.read
  {
    s.(received := 0, minReadSize := p.minSize, buffer := Resized(s.buffer, p.maxSize))
  }

  function ConfigureAll(s: In, ps: seq<Policy>): (r: In)
    requires InBounds(s)
    ensures InBounds(r) && r.consumed == s.consumed && r.read == s.read
    decreases |ps|
  {
    if ps == [] then s else ConfigureAll(Configure(s, ps[0]), ps[1..])
  }

  // The window between the bytes received so far and the end of the buffer.
  function Window(s: In): nat
    requires InBounds(s)
  {
    |s.buffer| - s.received
  }

  function Filled(s: In, bytes: Bytes): (r: In)
    requires InBounds(s)
    ensures InBounds(r)
  {
    var k := Min(|bytes|, Window(s));
    s.(buffer := s.buffer[..s.received] + bytes[..k] + s.buffer[s.received + k..],
       received := s.received + k,
       read := s.read + bytes[..k])
  }

  // One read followed by handle_read_result().
  function ReadOnce(s: In, result: ReadResult, app: seq<Reaction>): (r: (In, Verdict))
    requires InBounds(s)
    ensures InBounds(r.0)
  {
    match result
    case NotReady => (s, TemporaryError)
    case Broken => (s, Error)
    case Available(bytes) =>
      if bytes == [] || Window(s) == 0 then (s, Done)
      else
        var f := Filled(s, bytes);
        if f.received < f.minReadSize then (f, Ok)
        else
          var reaction := React(app, |f.consumed|);
          var c := ConfigureAll(f.(consumed := f.consumed + [f.buffer[..f.received]]), reaction.policies);
          if reaction.failed then (c, Error) else (c.(received := 0), Ok)
  }

  // handle_read_event(), with i reads done out of at most maxReads.
  function ReadEvent(s: In, maxReads: nat, socket: seq<ReadResult>, app: seq<Reaction>, i: nat): (r: (In, Verdict))
    requires InBounds(s) && i <= maxReads
    ensures InBounds(r.0)
    decreases maxReads - i
  {
    if i == maxReads then (s, Ok)
    else
      var (s', verdict) := ReadOnce(s, Outcome(socket, i), app);
      if verdict != Ok then (s', verdict) else ReadEvent(s', maxReads, socket, app, i + 1)
  }

  // -- What a read does -------------------------------------------------------

  /** Of several policies set in one consume the last one holds, and the buffer starts empty. */
  lemma {:induction false} LastPolicyHolds(s: In, ps: seq<Policy>)
    requires InBounds(s) && ps != []
    ensures var c := ConfigureAll(s, ps);
            && c.minReadSize == ps[|ps| - 1].minSize
            && |c.buffer| == ps[|ps| - 1].maxSize
            && c.received == 0
    decreases |ps|
  {
    if |ps| > 1 {
      LastPolicyHolds(Configure(s, ps[0]), ps[1..]);
    } else {
      assert ConfigureAll(s, ps) == ConfigureAll(Configure(s, ps[0]), []);
    }
  }

  /** A read takes as many bytes as there are and fit behind those received. As soon as the minimum is there the next
      layer gets them all, in order, and the buffer is empty again; until then they wait. A closed peer is done, a
      temporary failure temporary, and an error is a failed read or consume. */
  lemma ReadOnceExactness(s: In, result: ReadResult, app: seq<Reaction>)
    requires InBounds(s)
    ensures var (r, verdict) := ReadOnce(s, result, app);
            var k := if result.Available? then Min(|result.bytes|, |s.buffer| - s.received) else 0;
            var waiting := s.buffer[..s.received] + if result.Available? then result.bytes[..k] else [];
            var full := k > 0 && s.received + k >= s.minReadSize;
            var reaction := React(app, |s.consumed|);
            && (verdict == TemporaryError <==> result.NotReady?)
            && (verdict == Error <==> result.Broken? || (full && reaction.failed))
            && (verdict == Done <==> result.Available? && k == 0)
            && r.read == s.read + (if result.Available? then result.bytes[..k] else [])
            && r.consumed == s.consumed + (if full then [waiting] else [])
            && (!full ==> r.received == s.received + k && r.buffer[..r.received] == waiting
                          && |r.buffer| == |s.buffer| && r.minReadSize == s.minReadSize)
            && (full && !reaction.failed ==> r.received == 0)
            && (full && reaction.policies == [] ==> |r.buffer| == |s.buffer| && r.minReadSize == s.minReadSize)
            && (full && reaction.policies != [] ==>
                  var last := reaction.policies[|reaction.policies| - 1];
                  |r.buffer| == last.maxSize && r.minReadSize == last.minSize)
  {
    if result.Available? {
      var k := Min(|result.bytes|, |s.buffer| - s.received);
      if k > 0 {
        var f := Filled(s, result.bytes);
        assert f.buffer[..f.received] == s.buffer[..s.received] + result.bytes[..k];
        if f.received >= f.minReadSize && React(app, |f.consumed|).policies != [] {
          LastPolicyHolds(f.(consumed := f.consumed + [f.buffer[..f.received]]), React(app, |f.consumed|).policies);
        }
      }
    }
  }

  // The state after n more reads.
  function After(s: In, socket: seq<ReadResult>, app: seq<Reaction>, i: nat, n: nat): (r: In)
    requires InBounds(s)
    ensures InBounds(r)
    decreases n
  {
    if n == 0 then s else After(ReadOnce(s, Outcome(socket, i), app).0, socket, app, i + 1, n - 1)
  }

  // Each of these reads is answered Ok.
  predicate AllOk(s: In, socket: seq<ReadResult>, app: seq<Reaction>, i: nat, n: nat)
    requires InBounds(s)
    decreases n
  {
    n > 0 ==>
      && ReadOnce(s, Outcome(socket, i), app).1 == Ok
      && AllOk(ReadOnce(s, Outcome(socket, i), app).0, socket, app, i + 1, n - 1)
  }

  lemma EventUnfolds(s: In, maxReads: nat, socket: seq<ReadResult>, app: seq<Reaction>, i: nat)
    requires InBounds(s) && i <= maxReads
    ensures i == maxReads ==> ReadEvent(s, maxReads, socket, app, i) == (s, Ok)
    ensures i < maxReads ==>
              var r := ReadOnce(s, Outcome(socket, i), app);
              ReadEvent(s, maxReads, socket, app, i)
              == if r.1 != Ok then r else ReadEvent(r.0, maxReads, socket, app, i + 1)
  {
  }

  lemma AfterUnfolds(s: In, socket: seq<ReadResult>, app: seq<Reaction>, i: nat, n: nat)
    requires InBounds(s)
    ensures After(s, socket, app, i, 0) == s && AllOk(s, socket, app, i, 0)
    ensures var r := ReadOnce(s, Outcome(socket, i), app);
            && After(s, socket, app, i, n + 1) == After(r.0, socket, app, i + 1, n)
            && (AllOk(s, socket, app, i, n + 1) <==> r.1 == Ok && AllOk(r.0, socket, app, i + 1, n))
  {
  }

  /** A read event reads until a read is not answered Ok, which it answers itself, and at most as often as allowed. */
  lemma {:induction false} ReadEventExactness(
    s: In, maxReads: nat, socket: seq<ReadResult>, app: seq<Reaction>, i: nat) returns (n: nat)
    requires InBounds(s) && i <= maxReads
    ensures i + n <= maxReads && AllOk(s, socket, app, i, n)
    ensures var last := After(s, socket, app, i, n);
            ReadEvent(s, maxReads, socket, app, i)
            == if i + n == maxReads then (last, Ok) else ReadOnce(last, Outcome(socket, i + n), app)
    ensures i + n < maxReads ==> ReadEvent(s, maxReads, socket, app, i).1 != Ok
    decreases maxReads - i
  {
    hide *;
    n := 0;
    EventUnfolds(s, maxReads, socket, app, i);
    AfterUnfolds(s, socket, app, i, 0);
    if i < maxReads && ReadOnce(s, Outcome(socket, i), app).1 == Ok {
      var m := ReadEventExactness(ReadOnce(s, Outcome(socket, i), app).0, maxReads, socket, app, i + 1);
      AfterUnfolds(s, socket, app, i, m);
      n := m + 1;
    }
  }

  // -- Read-side conservation -------------------------------------------------

  predicate Lossless(s: In) {
    && InBounds(s)
    && Flat(s.consumed) + s.buffer[..s.received] == s.read
  }

  // A policy under which the buffer can always reach the minimum.
  predicate Usable(p: Policy) {
    0 < p.maxSize && p.minSize <= p.maxSize
  }

  // The state between two reads: less than the minimum is waiting and there is room for more.
  predicate Waiting(s: In) {
    && InBounds(s)
    && 0 < |s.buffer| && s.minReadSize <= |s.buffer|
    && (s.received == 0 || s.received < s.minReadSize)
  }

  predicate Sensible(app: seq<Reaction>) {
    forall k, i :: 0 <= k < |app| && 0 <= i < |app[k].policies| ==>
      Usable(app[k].policies[i])
  }

  lemma {:induction false} ConfigureAllWaits(s: In, ps: seq<Policy>)
    requires InBounds(s) && 0 < |s.buffer| && s.minReadSize <= |s.buffer|
    requires forall i :: 0 <= i < |ps| ==> Usable(ps[i])
    ensures var c := ConfigureAll(s, ps);
            && 0 < |c.buffer|
            && c.minReadSize <= |c.buffer|
            && Waiting(c.(received := 0))
    decreases |ps|
  {
    if ps != [] {
      ConfigureAllWaits(Configure(s, ps[0]), ps[1..]);
    }
  }

  /** One read: no byte is lost, reordered or repeated, a consumed chunk is between the minimum and the
      maximum of the policy in force, and Done is answered only when the peer has closed. */
  lemma ReadOnceConserves(s: In, result: ReadResult, app: seq<Reaction>)
    requires Waiting(s) && Lossless(s) && Sensible(app)
    ensures var r := ReadOnce(s, result, app);
            && (r.1 == Done <==> result == Available([]))
            && (r.1 == Done || r.1 == TemporaryError ==> r.0 == s)
            && (r.1 == Ok ==> Waiting(r.0) && Lossless(r.0) && |s.read| < |r.0.read|)
            && (r.1 == Error && result.Available? ==>
                Flat(r.0.consumed) == r.0.read && React(app, |s.consumed|).failed)
            && (r.0.consumed == s.consumed
                || exists chunk :: r.0.consumed == s.consumed + [chunk]
                                   && s.minReadSize <= |chunk| <= |s.buffer| && 0 < |chunk|)
  {
    if result.Available? && result.bytes != [] {
      var f := Filled(s, result.bytes);
      var k := Min(|result.bytes|, Window(s));
      assert f.buffer[..f.received] == s.buffer[..s.received] + result.bytes[..k];
      assert Flat(f.consumed) + (s.buffer[..s.received] + result.bytes[..k])
          == (Flat(f.consumed) + s.buffer[..s.received]) + result.bytes[..k];
      assert Lossless(f);
      if f.received >= f.minReadSize {
        var chunk := f.buffer[..f.received];
        FlatPush(f.consumed, chunk);
        var g := f.(consumed := f.consumed + [chunk]);
        ConfigureAllWaits(g, React(app, |f.consumed|).policies);
        var r := ReadOnce(s, result, app).0;
        assert r.consumed == s.consumed + [chunk];
        assert Flat(r.consumed) + [] == Flat(r.consumed);
      }
    }
  }

  lemma WaitingInBounds(s: In)
    ensures Waiting(s) ==> InBounds(s)
  {
  }

  /** The same for a whole read event: everything read has been consumed or waits in the buffer. */
  lemma {:induction false} ReadEventConserves(s: In, maxReads: nat, socket: seq<ReadResult>, app: seq<Reaction>, i: nat)
    requires Waiting(s) && Lossless(s) && Sensible(app) && i <= maxReads
    ensures var r := ReadEvent(s, maxReads, socket, app, i);
            && (r.1 != Error ==> Waiting(r.0) && Lossless(r.0))
            && (r.1 == Done ==> exists j :: i <= j < maxReads && Outcome(socket, j) == Available([]))
            && |s.consumed| <= |r.0.consumed| <= |s.consumed| + maxReads - i
    decreases maxReads - i
  {
    hide ReadOnce, Lossless, Waiting, Sensible;
    assert InBounds(s) by { WaitingInBounds(s); }
    if i < maxReads {
      ReadOnceConserves(s, Outcome(socket, i), app);
      var r := ReadOnce(s, Outcome(socket, i), app);
      if r.1 == Ok {
        ReadEventConserves(r.0, maxReads, socket, app, i + 1);
      }
    }
  }

  /** Reconfiguring outside of consume is lossless exactly when nothing is waiting in the buffer. */
  lemma ConfigureExactness(s: In, p: Policy)
    requires Lossless(s)
    ensures Lossless(Configure(s, p)) <==> s.received == 0
  {
    assert |Flat(s.consumed) + s.buffer[..s.received]| == |Flat(s.consumed)| + s.received;
    var c := Configure(s, p);
    assert c.buffer[..0] == [] && s.buffer[..0] == [];
  }

  // An application that never reconfigures and never fails.
  const PASSIVE: seq<Reaction> := []

  // Reads of at least one byte each, as long as none ends the event.
  function ReadAll(s: In, inputs: seq<Bytes>): (r: In)
    requires InBounds(s)
    ensures InBounds(r)
    decreases |inputs|
  {
    if inputs == [] then s else ReadAll(ReadOnce(s, Available(inputs[0]), PASSIVE).0, inputs[1..])
  }

  /** A policy keeps the read window open over every sequence of reads exactly when 0 < max and min <= max;
      under any other policy a healthy connection ends up reading zero bytes, which is taken for a disconnect. */
  lemma PolicyExactness(s: In, p: Policy)
    requires InBounds(s)
    ensures (forall inputs: seq<Bytes> :: Window(ReadAll(Configure(s, p), inputs)) > 0) <==> Usable(p)
  {
    var c := Configure(s, p);
    if Usable(p) {
      forall inputs: seq<Bytes> ensures Window(ReadAll(c, inputs)) > 0 {
        WindowStaysOpen(c, inputs);
      }
    } else if p.maxSize == 0 {
      assert Window(ReadAll(c, [])) == 0;
    } else {
      var full: Bytes := seq(p.maxSize, _ => 0);
      var r := ReadOnce(c, Available(full), PASSIVE).0;
      assert Window(r) == 0;
      assert ReadAll(r, [full][1..]) == r;
      assert ReadAll(c, [full]) == r;
    }
  }

  lemma {:induction false} WindowStaysOpen(s: In, inputs: seq<Bytes>)
    requires Waiting(s)
    ensures Window(ReadAll(s, inputs)) > 0
    decreases |inputs|
  {
    if inputs != [] {
      var r := ReadOnce(s, Available(inputs[0]), PASSIVE).0;
      assert Waiting(r);
      WindowStaysOpen(r, inputs[1..]);
    }
  }

  // -- The transport ----------------------------------------------------------

  class StreamReader {
    const maxConsecutiveReads: nat
    const app: seq<Reaction>
    var received: nat
    var minReadSize: nat
    var readBuffer: Bytes
    ghost var consumed: seq<Bytes>
    var numConsumed: nat
    ghost var read: Bytes

    ghost function State(): In
      reads this
    {
      In(received, minReadSize, readBuffer, consumed, read)
    }

    ghost predicate Valid()
      reads this
    {
      InBounds(State()) && numConsumed == |consumed|
    }

    constructor (maxReads: nat, app: seq<Reaction>)
      ensures Valid()
      ensures Lossless(State())
      ensures State() == In(0, 0, [], [], [])
      ensures maxConsecutiveReads == maxReads && this.app == app
    {
      maxConsecutiveReads, this.app := maxReads, app;
      received, minReadSize, readBuffer := 0, 0, [];
      consumed, numConsumed, read := [], 0, [];
    }

    method ConfigureNextRead(policy: Policy)
      requires Valid()
      modifies this
      ensures Valid() && State() == Configure(old(State()), policy)
    {
      received := 0;
      minReadSize := policy.minSize;
      readBuffer := Resized(readBuffer, policy.maxSize);
    }

    // The next layer's consume, which may call back into ConfigureNextRead.
    method Consume(chunk: Bytes) returns (failed: bool)
      requires Valid()
      modifies this
      ensures Valid() && failed == React(app, |old(consumed)|).failed
      ensures State() == ConfigureAll(old(State()).(consumed := old(consumed) + [chunk]),
                                      React(app, |old(consumed)|).policies)
    {
      var reaction := React(app, numConsumed);
      consumed := consumed + [chunk];
      numConsumed := numConsumed + 1;
      ghost var s0 := State();
      for i := 0 to |reaction.policies|
        invariant Valid()
        invariant ConfigureAll(State(), reaction.policies[i..]) == ConfigureAll(s0, reaction.policies)
      {
        ConfigureNextRead(reaction.policies[i]);
        assert reaction.policies[i..][1..] == reaction.policies[i + 1..];
      }
      assert reaction.policies[|reaction.policies|..] == [];
      failed := reaction.failed;
    }

    // The read system call into the free part of the buffer: the number of bytes, or a negative error.
    method Receive(result: ReadResult) returns (count: int)
      requires Valid()
      modifies this`readBuffer, this`read
      ensures |readBuffer| == |old(readBuffer)|
      ensures result.Broken? || result.NotReady? <==> count < 0
      ensures count < 0 ==> State() == old(State())
      ensures count >= 0 ==> received + count <= |readBuffer|
      ensures count >= 0 ==> State().(received := received + count) == Filled(old(State()), result.bytes)
    {
      match result {
        case NotReady => count := -1;
        case Broken => count := -1;
        case Available(bytes) =>
          count := Min(|bytes|, |readBuffer| - received);
          readBuffer := readBuffer[..received] + bytes[..count] + readBuffer[received + count..];
          read := read + bytes[..count];
      }
    }

    method HandleReadResult(count: int, temporary: bool) returns (verdict: Verdict)
      requires Valid() && received + count <= |readBuffer|
      modifies this
      ensures Valid()
      ensures count < 0 ==> State() == old(State()) && verdict == if temporary then TemporaryError else Error
      ensures count == 0 ==> State() == old(State()) && verdict == Done
      ensures count > 0 ==>
                var f := old(State()).(received := old(received) + count);
                if f.received < f.minReadSize then State() == f && verdict == Ok
                else
                  var reaction := React(app, |f.consumed|);
                  var c := ConfigureAll(f.(consumed := f.consumed + [f.buffer[..f.received]]), reaction.policies);
                  if reaction.failed then State() == c && verdict == Error
                  else State() == c.(received := 0) && verdict == Ok
    {
      if count < 0 {
        verdict := if temporary then TemporaryError else Error;
      } else if count == 0 {
        verdict := Done;
      } else {
        received := received + count;
        if received >= minReadSize {
          var failed := Consume(readBuffer[..received]);
          if failed {
            return Error;
          }
          received := 0;
        }
        verdict := Ok;
      }
    }

    method ReadStep(result: ReadResult) returns (verdict: Verdict)
      requires Valid()
      modifies this
      ensures Valid()
      ensures (State(), verdict) == ReadOnce(old(State()), result, app)
    {
      hide ConfigureAll, Configure, React;
      ghost var s := State();
      var count := Receive(result);
      if count == 0 {
        ghost var f := Filled(s, result.bytes);
        assert f.buffer == s.buffer && f.read == s.read;
      }
      verdict := HandleReadResult(count, result.NotReady?);
    }

    method HandleReadEvent(socket: seq<ReadResult>) returns (verdict: Verdict)
      requires Valid()
      modifies this
      ensures Valid()
      ensures (State(), verdict) == ReadEvent(old(State()), maxConsecutiveReads, socket, app, 0)
    {
      hide ReadOnce;
      var i: nat := 0;
      while i < maxConsecutiveReads
        invariant Valid() && i <= maxConsecutiveReads
        invariant ReadEvent(State(), maxConsecutiveReads, socket, app, i)
               == ReadEvent(old(State()), maxConsecutiveReads, socket, app, 0)
      {
        verdict := ReadStep(Outcome(socket, i));
        if verdict != Ok {
          return;
        }
        i := i + 1;
      }
      verdict := Ok;
    }
  }
}
