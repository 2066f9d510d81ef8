/** The epoll event loop over whole runs, against a simple loop that knows who is registered, who waits to read and who
    waits to write. What the code does differently from kqueue is kept: a finished write ends reading, and removing
    somebody who is gone shuts down. */
module EpollRuns {
  import opened Interest
  import opened ManagerResult
  import opened Managers
  import E = Epoll

  datatype Loop = Loop(interest: Interest, shuttingDown: bool)

  function Stopping(l: Loop, keeper: nat): Loop {
    Loop(ShuttingDown(l.interest, keeper), true)
  }

  function Acting(l: Loop, keeper: nat, a: Action): Loop {
    match a
    case Register(fd, op) =>
      if fd in l.interest.registered
      then l.(interest := Wanting(l.interest, fd, Has(op, READ), Has(op, WRITE))) else l
    case Adopt(fd, initial) => l.(interest := Joining(l.interest, fd, Has(initial, READ), Has(initial, WRITE)))
    case RaiseShutdown => Stopping(l, keeper)
  }

  function ActingAll(l: Loop, keeper: nat, actions: seq<Action>): Loop
    decreases |actions|
  {
    if actions == [] then l else ActingAll(Acting(l, keeper, actions[0]), keeper, actions[1..])
  }

  function Removing(l: Loop, keeper: nat, fd: nat): Loop {
    if fd in l.interest.registered then l.(interest := Leaving(l.interest, fd)) else Stopping(l, keeper)
  }

  function Answering(l: Loop, keeper: nat, fd: nat, verdict: Verdict): Loop {
    match verdict
    case Done => l.(interest := DoneReading(l.interest, fd))
    case Error => Removing(l, keeper, fd)
    case _ => l
  }

  function Stepping(l: Loop, keeper: nat, e: E.Step): Loop {
    match e
    case HangUp(fd) => Removing(l, keeper, fd)
    case Event(fd, readable, writable, onRead, readVerdict, onWrite, writeVerdict) =>
      if fd !in l.interest.registered then l
      else
        var read := if readable then Answering(ActingAll(l, keeper, onRead), keeper, fd, readVerdict) else l;
        if (readable && readVerdict == Error) || !writable || fd !in read.interest.registered then read
        else Answering(ActingAll(read, keeper, onWrite), keeper, fd, writeVerdict)
  }

  function Running(l: Loop, keeper: nat, steps: seq<E.Step>): Loop
    decreases |steps|
  {
    if steps == [] then l else Running(Stepping(l, keeper, steps[0]), keeper, steps[1..])
  }

  // -- Refinement -------------------------------------------------------------

  function View(m: E.Mpx): Loop {
    Loop(Seen(m.masks), m.shuttingDown)
  }

  predicate Sound(m: E.Mpx) {
    E.Agrees(m) && Plain(m.masks)
  }

  // Managers wait to read and to write.
  predicate PlainActions(actions: seq<Action>) {
    forall i :: 0 <= i < |actions| ==>
      (actions[i].Register? ==> actions[i].op <= READ_WRITE) && (actions[i].Adopt? ==> actions[i].initial <= READ_WRITE)
  }

  predicate PlainSteps(steps: seq<E.Step>) {
    forall i :: 0 <= i < |steps| && steps[i].Event? ==> PlainActions(steps[i].onRead) && PlainActions(steps[i].onWrite)
  }

  lemma ActRefines(m: E.Mpx, a: Action)
    requires Sound(m) && PlainActions([a]) && (a.Adopt? ==> a.fd !in m.masks)
    ensures Sound(E.ActOn(m, a)) && E.ActOn(m, a).pipeReader == m.pipeReader
    ensures View(E.ActOn(m, a)) == Acting(View(m), m.pipeReader, a)
  {
    assert [a][0] == a;
    E.ActOnKeeps(m, a, 0);
    match a {
      case Register(fd, op) =>
        if fd in m.masks {
          E.EnableSeen(m, fd, op);
        }
      case Adopt(fd, initial) => E.AddSeen(m, fd, initial);
      case RaiseShutdown => E.ShutdownSeen(m);
    }
  }

  lemma {:induction false} CallbackRefines(m: E.Mpx, actions: seq<Action>)
    requires Sound(m) && PlainActions(actions) && E.ValidActions(m, actions)
    ensures Sound(E.Callback(m, actions)) && E.Callback(m, actions).pipeReader == m.pipeReader
    ensures View(E.Callback(m, actions)) == ActingAll(View(m), m.pipeReader, actions)
    decreases |actions|
  {
    if actions != [] {
      assert [actions[0]][0] == actions[0];
      assert forall i :: 0 <= i < |actions[1..]| ==> actions[1..][i] == actions[i + 1];
      hide Sound, E.ActOn, Acting, View;
      ActRefines(m, actions[0]);
      CallbackRefines(E.ActOn(m, actions[0]), actions[1..]);
    }
  }

  lemma AnswerRefines(m: E.Mpx, fd: nat, verdict: Verdict)
    requires Sound(m)
    ensures Sound(E.Answer(m, fd, READ, verdict)) && E.Answer(m, fd, READ, verdict).pipeReader == m.pipeReader
    ensures View(E.Answer(m, fd, READ, verdict)) == Answering(View(m), m.pipeReader, fd, verdict)
  {
    E.AnswerKeeps(m, fd, verdict, 0);
    hide E.Agrees;
    match verdict {
      case Done =>
        if fd in m.masks {
          E.DisableSeen(m, fd);
          E.DisableExactness(m, fd, READ, true);
        } else {
          var i := Seen(m.masks);
          assert fd !in i.readers && i.readers - {fd} == i.readers;
        }
      case Error => E.DelSeen(m, fd);
      case _ =>
    }
  }

  lemma StepRefines(m: E.Mpx, e: E.Step)
    requires Sound(m) && E.ValidStep(m, e) && PlainSteps([e])
    ensures Sound(E.Next(m, e)) && E.Next(m, e).pipeReader == m.pipeReader
    ensures View(E.Next(m, e)) == Stepping(View(m), m.pipeReader, e)
  {
    assert [e][0] == e;
    if e.HangUp? {
      E.DelSeen(m, e.fd);
      E.DelExactness(m, e.fd);
    } else if e.fd in m.masks {
      hide Sound, E.Callback, E.Answer, ActingAll, Answering;
      CallbackRefines(m, e.onRead);
      AnswerRefines(E.Callback(m, e.onRead), e.fd, e.readVerdict);
      var half := E.ReadHalf(m, e);
      CallbackRefines(half, e.onWrite);
      AnswerRefines(E.Callback(half, e.onWrite), e.fd, e.writeVerdict);
    }
  }

  /** Over every run, registry, readers, writers and shutdown are those of the simple loop. */
  lemma {:induction false} RunRefines(m: E.Mpx, steps: seq<E.Step>)
    requires Sound(m) && E.ValidRun(m, steps) && PlainSteps(steps)
    ensures View(E.Run(m, steps)) == Running(View(m), m.pipeReader, steps)
    decreases |steps|
  {
    if steps != [] {
      assert [steps[0]][0] == steps[0];
      assert forall i :: 0 <= i < |steps[1..]| ==> steps[1..][i] == steps[i + 1];
      hide Sound, E.Next, Stepping, View;
      StepRefines(m, steps[0]);
      RunRefines(E.Next(m, steps[0]), steps[1..]);
    }
  }
}
