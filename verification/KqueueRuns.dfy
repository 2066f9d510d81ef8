/** The kqueue event loop over whole runs, against what it is to do: a simple loop that knows who is registered, who
    waits to read and who waits to write, and nothing of masks, filters and change logs. */
module KqueueRuns {
  import opened Interest
  import opened ManagerResult
  import opened Managers
  import K = Kqueue

  datatype Loop = Loop(interest: Interest, pipe: seq<K.Command>, shuttingDown: bool)

  function Acting(l: Loop, keeper: nat, a: Action): Loop {
    match a
    case Register(fd, op) =>
      if fd in l.interest.registered
      then l.(interest := Wanting(l.interest, fd, Has(op, READ), Has(op, WRITE))) else l
    case Adopt(fd, initial) => l.(interest := Joining(l.interest, fd, Has(initial, READ), Has(initial, WRITE)))
    case RaiseShutdown => Stopping(l, keeper)
  }

  function Stopping(l: Loop, keeper: nat): Loop {
    l.(interest := ShuttingDown(l.interest, keeper), shuttingDown := true)
  }

  function ActingAll(l: Loop, keeper: nat, actions: seq<Action>): Loop
    decreases |actions|
  {
    if actions == [] then l else ActingAll(Acting(l, keeper, actions[0]), keeper, actions[1..])
  }

  // Who is done stops waiting for what it was done with, and who failed leaves.
  function Answering(i: Interest, fd: nat, reading: bool, verdict: Verdict): Interest {
    match verdict
    case Done => if reading then DoneReading(i, fd) else DoneWriting(i, fd)
    case Error => Leaving(i, fd)
    case _ => i
  }

  function Stepping(l: Loop, keeper: nat, step: K.Step): Loop {
    match step
    case RequestAdd(fd, initial) => if l.shuttingDown then l else l.(pipe := l.pipe + [K.AddCommand(fd, initial)])
    case RequestShutdown => if l.shuttingDown then l else l.(pipe := l.pipe + [K.ShutdownCommand])
    case Event(fd, filter, actions, verdict) =>
      if fd !in l.interest.registered || filter == K.NoFilter then l
      else
        var acted := ActingAll(l, keeper, actions);
        acted.(interest := Answering(acted.interest, fd, filter == K.ReadFilter, verdict))
    case Eof(fd) => l.(interest := Leaving(l.interest, fd))
    case PipeReadable(actions) =>
      if keeper !in l.interest.registered then l
      else if l.pipe == [] then l.(interest := Leaving(l.interest, keeper))
      else
        match l.pipe[0]
        case AddCommand(fd, initial) =>
          ActingAll(l.(pipe := l.pipe[1..],
                       interest := Joining(l.interest, fd, Has(initial, READ), Has(initial, WRITE))), keeper, actions)
        case ShutdownCommand =>
          var stopped := Stopping(l.(pipe := l.pipe[1..]), keeper);
          stopped.(interest := Leaving(stopped.interest, keeper))
  }

  function Running(l: Loop, keeper: nat, steps: seq<K.Step>): Loop
    decreases |steps|
  {
    if steps == [] then l else Running(Stepping(l, keeper, steps[0]), keeper, steps[1..])
  }

  // -- Refinement -------------------------------------------------------------

  function View(m: K.Mpx, pipe: seq<K.Command>): Loop {
    Loop(Seen(m.masks), pipe, m.shuttingDown)
  }

  lemma InvIsPlain(m: K.Mpx, pipe: seq<K.Command>)
    requires K.MpxInv(m, pipe)
    ensures Plain(m.masks)
  {
    forall fd | fd in m.masks ensures m.masks[fd] <= READ_WRITE {
      assert K.AgreesAt(m, fd, m.shuttingDown);
    }
  }

  lemma ActRefines(m: K.Mpx, pipe: seq<K.Command>, a: Action)
    requires K.MpxInv(m, pipe) && K.ValidAction(m, pipe, a)
    ensures View(K.ActOn(m, a), pipe) == Acting(View(m, pipe), m.pipeReader, a)
  {
    InvIsPlain(m, pipe);
    match a {
      case Register(fd, op) =>
        if fd in m.masks {
          K.EnableExactness(m, fd, op);
        }
      case Adopt(fd, initial) => K.AddSeen(m, fd, initial);
      case RaiseShutdown => K.ShutdownSeen(m);
    }
  }

  lemma {:induction false} CallbackRefines(m: K.Mpx, pipe: seq<K.Command>, actions: seq<Action>)
    requires K.MpxInv(m, pipe) && K.Handling(m) && K.ValidActions(m, pipe, actions)
    ensures View(K.Callback(m, actions), pipe) == ActingAll(View(m, pipe), m.pipeReader, actions)
    decreases |actions|
  {
    hide K.MpxInv, K.ActOn, Acting, View, K.ValidAction;
    if actions != [] {
      ActRefines(m, pipe, actions[0]);
      K.ActOnKeeps(m, pipe, actions[0]);
      CallbackRefines(K.ActOn(m, actions[0]), pipe, actions[1..]);
    }
  }

  lemma AnswerRefines(m: K.Mpx, pipe: seq<K.Command>, fd: nat, reading: bool, verdict: Verdict)
    requires K.MpxInv(m, pipe)
    ensures View(K.Answer(m, fd, if reading then READ else WRITE, verdict), pipe)
         == View(m, pipe).(interest := Answering(Seen(m.masks), fd, reading, verdict))
  {
    InvIsPlain(m, pipe);
    match verdict {
      case Done =>
        if fd in m.masks {
          K.DisableSeen(m, fd, if reading then READ else WRITE);
          K.DisableExactness(m, fd, if reading then READ else WRITE, true);
        } else {
          NotThere(Seen(m.masks), fd);
        }
      case Error => K.DelExactness(m, fd);
      case _ =>
    }
  }

  lemma NotThere(i: Interest, fd: nat)
    requires Proper(i) && fd !in i.registered
    ensures DoneReading(i, fd) == i == DoneWriting(i, fd)
  {
    assert fd !in i.readers && fd !in i.writers;
    assert i.readers - {fd} == i.readers && i.writers - {fd} == i.writers;
  }

  lemma StepRefines(s: K.System, step: K.Step)
    requires K.Inv(s) && K.ValidStep(s, step)
    ensures View(K.Next(s, step).mpx, K.Next(s, step).pipe) == Stepping(View(s.mpx, s.pipe), s.mpx.pipeReader, step)
    ensures K.Next(s, step).mpx.pipeReader == s.mpx.pipeReader
  {
    var m := s.mpx;
    match step {
      case RequestAdd(fd, initial) =>
      case RequestShutdown =>
      case Event(fd, filter, actions, verdict) =>
        if fd in m.masks && filter != K.NoFilter {
          CallbackRefines(m, s.pipe, actions);
          K.CallbackKeeps(m, s.pipe, actions);
          hide K.MpxInv, K.Callback, ActingAll;
          AnswerRefines(K.Callback(m, actions), s.pipe, fd, filter == K.ReadFilter, verdict);
        }
      case Eof(fd) => K.DelExactness(m, fd);
      case PipeReadable(actions) =>
        if m.pipeReader in m.masks {
          ReadRefines(s, actions);
        }
    }
  }

  lemma ReadRefines(s: K.System, actions: seq<Action>)
    requires K.Inv(s) && s.mpx.pipeReader in s.mpx.masks && K.ValidStep(s, K.PipeReadable(actions))
    ensures var r := K.ReadPipe(s, actions);
            && View(r.mpx, r.pipe) == Stepping(View(s.mpx, s.pipe), s.mpx.pipeReader, K.PipeReadable(actions))
            && r.mpx.pipeReader == s.mpx.pipeReader
  {
    var m := s.mpx;
    if s.pipe == [] {
      AnswerRefines(m, s.pipe, m.pipeReader, true, Error);
    } else {
      assert K.PipeInOrder(m, s.pipe[1..]);
      match s.pipe[0] {
        case AddCommand(fd, initial) =>
          var added := K.Add(m, fd, initial);
          K.AddAgrees(m, fd, initial, m.shuttingDown);
          assert fd in added.masks;
          K.AddSeen(m, fd, initial);
          CallbackRefines(added, s.pipe[1..], actions);
          K.CallbackKeeps(added, s.pipe[1..], actions);
        case ShutdownCommand =>
          ShutdownRefines(m, s.pipe[1..]);
      }
    }
  }

  // The pipe reader only reads, so that it leaves when it is done with that.
  lemma ShutdownRefines(m: K.Mpx, pipe: seq<K.Command>)
    requires K.MpxInv(m, pipe) && m.pipeReader in m.masks
    ensures var stopped := Stopping(View(m, pipe), m.pipeReader);
            View(K.Answer(K.Shutdown(m), m.pipeReader, READ, Done), pipe)
            == stopped.(interest := Leaving(stopped.interest, m.pipeReader))
  {
    InvIsPlain(m, pipe);
    K.ShutdownSeen(m);
    var r := K.Shutdown(m);
    K.ActOnKeeps(m, pipe, RaiseShutdown);
    AnswerRefines(r, pipe, m.pipeReader, true, Done);
    assert Has(READ, READ) && !Has(READ, WRITE);
    assert m.pipeReader in Seen(r.masks).readers && m.pipeReader !in Seen(r.masks).writers;
  }

  /** Over every run from a state that keeps the invariant, registry, readers and writers, pipe and shutdown are those
      of the simple loop, and the multiplexer is told to stop exactly when that has shut down and nobody is left. */
  lemma {:induction false} RunRefines(s: K.System, steps: seq<K.Step>)
    requires K.Inv(s) && K.ValidRun(s, steps)
    ensures var r := K.Run(s, steps);
            var l := Running(View(s.mpx, s.pipe), s.mpx.pipeReader, steps);
            && View(r.mpx, r.pipe) == l
            && (!r.mpx.running <==> l.shuttingDown && l.interest.registered == {})
    decreases |steps|
  {
    hide K.Next, K.ValidStep, Stepping;
    if steps != [] {
      StepRefines(s, steps[0]);
      K.NextKeeps(s, steps[0]);
      RunRefines(K.Next(s, steps[0]), steps[1..]);
    }
  }

  lemma StartsReading(pipeReader: nat, acceptor: nat)
    requires pipeReader != acceptor
    ensures var s := K.Started(pipeReader, acceptor);
            View(s.mpx, s.pipe)
            == Loop(Interest({pipeReader, acceptor}, {pipeReader, acceptor}, {}), [], false)
  {
    var masks := K.Started(pipeReader, acceptor).mpx.masks;
    assert Has(READ, READ) && !Has(READ, WRITE);
    SameSeen(masks, Interest({pipeReader, acceptor}, {pipeReader, acceptor}, {}));
  }

  /** Done on a write ends writing and nothing else: a manager that also reads stays. Done on a read likewise. */
  lemma DoneExactness(m: K.Mpx, fd: nat, filter: K.Filter, actions: seq<Action>)
    requires Plain(m.masks) && fd in m.masks && filter != K.NoFilter
    requires Plain(K.Callback(m, actions).masks) && fd in K.Callback(m, actions).masks
    ensures var before := K.Callback(m, actions).masks;
            var after := K.HandleEvent(m, fd, filter, actions, Done).masks;
            && (filter == K.WriteFilter ==>
                  && (fd in after <==> before[fd] != WRITE)
                  && (fd in after ==> !Has(after[fd], WRITE) && (Has(after[fd], READ) <==> Has(before[fd], READ))))
            && (filter == K.ReadFilter ==>
                  && (fd in after <==> before[fd] != READ)
                  && (fd in after ==> !Has(after[fd], READ) && (Has(after[fd], WRITE) <==> Has(before[fd], WRITE))))
            && after - {fd} == before - {fd}
  {
    K.DisableExactness(K.Callback(m, actions), fd, if filter == K.ReadFilter then READ else WRITE, true);
  }
}
