/** The epoll multiplexer as written: an eager interest set, a shutdown loop whose test for an empty registry is
    inverted, and write events whose result is reported as that of a read. */
module Epoll {
  import opened Interest
  import opened ManagerResult
  import opened Managers

  // -- The interest set -------------------------------------------------------

  // The events every watched descriptor is polled for.
  type Table = map<nat, Op>

  datatype Ctl = AddCtl | ModCtl | DelCtl

  // epoll only knows reading and writing; every other combination is polled for nothing.
  function Flag(op: Op): Op {
    if op <= READ_WRITE then op else NONE
  }

  /** Reading is polled for exactly if it is asked for, alone or with writing, and likewise writing. */
  lemma FlagExactness(op: Op)
    ensures Has(Flag(op), READ) <==> op == READ || op == READ_WRITE
    ensures Has(Flag(op), WRITE) <==> op == WRITE || op == READ_WRITE
    ensures Flag(op) <= READ_WRITE
  {
  }

  // epoll_ctl refuses to add what is watched, and to change or remove what is not.
  predicate Accepted(t: Table, fd: nat, c: Ctl) {
    c == AddCtl <==> fd !in t
  }

  function Applied(t: Table, fd: nat, c: Ctl, events: Op): Table {
    if c == DelCtl then t - {fd} else t[fd := Flag(events)]
  }

  // -- The multiplexer on values ----------------------------------------------

  datatype Mpx = Mpx(
    masks: map<nat, Op>, table: Table, shuttingDown: bool, running: bool, pipeReader: nat, writerOpen: bool)

  // Managers that stay registered in shutdown().
  predicate Survives(m: Mpx, fd: nat)
    requires fd in m.masks
  {
    fd == m.pipeReader || Cleared(m.masks[fd], READ_ACCEPT) != NONE
  }

  function Left(m: Mpx, fd: nat): Op
    requires fd in m.masks
  {
    if fd == m.pipeReader then m.masks[fd] else Cleared(m.masks[fd], READ_ACCEPT)
  }

  // shutdown() on the multiplexer thread. Each removal that leaves managers behind ends the loop.
  function Shutdown(m: Mpx): Mpx {
    var masks := map fd | fd in m.masks && Survives(m, fd) :: Left(m, fd);
    m.(masks := masks,
       table := map fd | fd in m.table && (fd in m.masks ==> fd in masks) ::
                  if fd in masks && masks[fd] != m.masks[fd] then Flag(masks[fd]) else m.table[fd],
       shuttingDown := true,
       running := m.running && (masks.Keys == m.masks.Keys || (masks == map[] && |m.masks| == 1)),
       writerOpen := false)
  }

  // A refused change is an error, and errors shut the multiplexer down.
  function Mod(m: Mpx, fd: nat, c: Ctl, events: Op): Mpx {
    if Accepted(m.table, fd, c) then m.(table := Applied(m.table, fd, c, events)) else Shutdown(m)
  }

  function Enable(m: Mpx, fd: nat, op: Op): Mpx
    requires fd in m.masks
  {
    var mask := m.masks[fd];
    if Holds(mask, op) then m else Mod(m.(masks := m.masks[fd := Joined(mask, op)]), fd, ModCtl, Joined(mask, op))
  }

  // del() by handle.
  function Del(m: Mpx, fd: nat): Mpx {
    var d := Mod(m, fd, DelCtl, NONE);
    d.(masks := d.masks - {fd}, running := d.running && !(d.shuttingDown && d.masks - {fd} == map[]))
  }

  // del() by iterator, which lacks the negation.
  function DelInLoop(m: Mpx, fd: nat): Mpx {
    var d := Mod(m, fd, DelCtl, NONE);
    d.(masks := d.masks - {fd}, running := d.running && !(d.shuttingDown && d.masks - {fd} != map[]))
  }

  function Disable(m: Mpx, fd: nat, op: Op, remove: bool): Mpx
    requires fd in m.masks
  {
    var mask := m.masks[fd];
    if !Has(mask, op) then m
    else
      var left := Cleared(mask, op);
      var d := Mod(m.(masks := m.masks[fd := left]), fd, ModCtl, left);
      if remove && left == NONE then Del(d, fd) else d
  }

  // The registry keeps an entry it already has for the descriptor.
  function Add(m: Mpx, fd: nat, initial: Op): Mpx {
    var a := Mod(m, fd, AddCtl, initial);
    a.(masks := if fd in a.masks then a.masks else a.masks[fd := initial])
  }

  // -- Interest agreement -----------------------------------------------------

  // The watched descriptors are the registered ones, polled for what the masks ask.
  predicate Agrees(m: Mpx) {
    && m.table.Keys == m.masks.Keys
    && forall fd :: fd in m.masks ==> m.table[fd] == Flag(m.masks[fd])
  }

  lemma MaskChangeAgrees(m: Mpx, fd: nat, mask: Op)
    requires Agrees(m) && fd in m.masks
    ensures var changed := Mod(m.(masks := m.masks[fd := mask]), fd, ModCtl, mask);
            && Agrees(changed)
            && changed == m.(masks := m.masks[fd := mask], table := changed.table)
  {
    hide Shutdown;
  }

  // The kernel accepts changes to registered managers.
  lemma Accepts(m: Mpx, fd: nat, mask: Op)
    requires Agrees(m) && fd in m.masks
    ensures Accepted(m.table, fd, ModCtl) && Accepted(m.table, fd, DelCtl)
    ensures fd in Mod(m.(masks := m.masks[fd := mask]), fd, ModCtl, mask).table
  {
  }

  /** Removing a registered manager forgets it and nothing else. Removing one that is gone, as for a hang-up reported
      after its manager was removed, is refused by the kernel and shuts the whole multiplexer down. */
  lemma DelExactness(m: Mpx, fd: nat)
    requires Agrees(m)
    ensures Agrees(Del(m, fd)) && fd !in Del(m, fd).masks
    ensures Del(m, fd).shuttingDown <==> m.shuttingDown || fd !in m.masks
    ensures fd in m.masks ==> Del(m, fd).masks == m.masks - {fd}
    ensures fd !in m.masks ==> Del(m, fd).masks == Shutdown(m).masks
  {
  }

  /** Adding keeps registry and kernel in agreement exactly when the descriptor is new or the manager that holds it
      survives the shutdown which the refused addition causes; otherwise the new manager is registered unwatched. */
  lemma AddExactness(m: Mpx, fd: nat, initial: Op)
    requires Agrees(m)
    ensures Agrees(Add(m, fd, initial)) <==> fd in m.masks ==> Survives(m, fd)
    ensures Add(m, fd, initial).shuttingDown <==> m.shuttingDown || fd in m.masks
  {
    if fd in m.masks {
      var a := Shutdown(m);
      assert Mod(m, fd, AddCtl, initial) == a;
      assert fd in a.masks <==> Survives(m, fd);
      assert Add(m, fd, initial).table == a.table;
      assert fd in Add(m, fd, initial).masks;
    } else {
      assert Add(m, fd, initial) == m.(masks := m.masks[fd := initial], table := m.table[fd := Flag(initial)]);
    }
  }

  // -- What each operation does to the registry -------------------------------

  lemma EnableSeen(m: Mpx, fd: nat, op: Op)
    requires Agrees(m) && Plain(m.masks) && fd in m.masks && op <= READ_WRITE
    ensures var r := Enable(m, fd, op);
            && r == m.(masks := r.masks, table := r.table)
            && Plain(r.masks)
            && Seen(r.masks) == Wanting(Seen(m.masks), fd, Has(op, READ), Has(op, WRITE))
  {
    hide Has, Holds, Joined, Mod, Agrees, Seen, Wanting;
    var mask := Joined(m.masks[fd], op);
    MaskLaws(m.masks[fd], op);
    UnchangedMask(m.masks[fd], op);
    MaskChangeAgrees(m, fd, mask);
    SeenWanting(m.masks, fd, mask, Has(op, READ), Has(op, WRITE));
    assert mask == m.masks[fd] ==> m.masks[fd := mask] == m.masks;
  }

  /** Disabling takes away the one bit and keeps the other. A manager leaves exactly when it is to be removed then and
      had no other bit. */
  lemma DisableExactness(m: Mpx, fd: nat, op: Op, remove: bool)
    requires Agrees(m) && Plain(m.masks) && fd in m.masks && (op == READ || op == WRITE)
    ensures var r := Disable(m, fd, op, remove);
            && (fd in r.masks <==> !(remove && m.masks[fd] == op))
            && (fd in r.masks ==> (Has(r.masks[fd], READ) <==> Has(m.masks[fd], READ) && op != READ))
            && (fd in r.masks ==> (Has(r.masks[fd], WRITE) <==> Has(m.masks[fd], WRITE) && op != WRITE))
            && r.masks - {fd} == m.masks - {fd}
            && r == m.(masks := r.masks, table := r.table, running := r.running)
            && (r.running <==> m.running && !(m.shuttingDown && r.masks == map[]))
            && Plain(r.masks)
  {
    var left := Cleared(m.masks[fd], op);
    MaskLaws(m.masks[fd], op);
    UnchangedMask(m.masks[fd], op);
    MaskChangeAgrees(m, fd, left);
    var d := Mod(m.(masks := m.masks[fd := left]), fd, ModCtl, left);
    hide Shutdown;
    assert fd in d.table;
    assert d.masks - {fd} == m.masks - {fd};
  }

  lemma DisableSeen(m: Mpx, fd: nat)
    requires Agrees(m) && Plain(m.masks) && fd in m.masks
    ensures Seen(Disable(m, fd, READ, true).masks) == DoneReading(Seen(m.masks), fd)
  {
    var r := Disable(m, fd, READ, true);
    DisableExactness(m, fd, READ, true);
    MaskLaws(m.masks[fd], READ);
    hide Disable;
    forall other | other != fd
      ensures (other in m.masks <==> other in r.masks) && (other in r.masks ==> m.masks[other] == r.masks[other])
    {
      assert other in m.masks <==> other in (m.masks - {fd});
      assert other in r.masks <==> other in (r.masks - {fd});
    }
    SameSeen(r.masks, DoneReading(Seen(m.masks), fd));
  }

  /** Shutdown keeps the pipe reader as it is and of the others exactly those that write, for writing alone. */
  lemma ShutdownSeen(m: Mpx)
    requires Plain(m.masks)
    ensures var r := Shutdown(m);
            && r == m.(masks := r.masks, table := r.table, running := r.running, shuttingDown := true,
                       writerOpen := false)
            && Plain(r.masks)
            && Seen(r.masks) == ShuttingDown(Seen(m.masks), m.pipeReader)
  {
    var r := Shutdown(m);
    forall fd | fd in m.masks
      ensures Survives(m, fd) <==> fd == m.pipeReader || Has(m.masks[fd], WRITE)
      ensures Cleared(m.masks[fd], READ_ACCEPT) <= READ_WRITE && !Has(Cleared(m.masks[fd], READ_ACCEPT), READ)
      ensures Has(Cleared(m.masks[fd], READ_ACCEPT), WRITE) <==> Has(m.masks[fd], WRITE)
    {
      MaskLaws(m.masks[fd], READ);
      MaskLaws(Cleared(m.masks[fd], READ), READ);
    }
    SameSeen(r.masks, ShuttingDown(Seen(m.masks), m.pipeReader));
  }

  // The removal of a descriptor that is gone is refused, which shuts down.
  lemma DelSeen(m: Mpx, fd: nat)
    requires Agrees(m) && Plain(m.masks)
    ensures var r := Del(m, fd);
            && Plain(r.masks)
            && Seen(r.masks) == (if fd in m.masks then Leaving(Seen(m.masks), fd)
                                 else ShuttingDown(Seen(m.masks), m.pipeReader))
            && r.pipeReader == m.pipeReader
            && r.shuttingDown == (m.shuttingDown || fd !in m.masks)
            && (fd in m.masks ==> (r.running <==> m.running && !(m.shuttingDown && r.masks == map[])))
  {
    DelExactness(m, fd);
    if fd in m.masks {
      SameSeen(Del(m, fd).masks, Leaving(Seen(m.masks), fd));
    } else {
      ShutdownSeen(m);
    }
  }

  lemma AddSeen(m: Mpx, fd: nat, initial: Op)
    requires Agrees(m) && Plain(m.masks) && fd !in m.masks && initial <= READ_WRITE
    ensures var r := Add(m, fd, initial);
            && r == m.(masks := r.masks, table := r.table)
            && Plain(r.masks)
            && Seen(r.masks) == Joining(Seen(m.masks), fd, Has(initial, READ), Has(initial, WRITE))
  {
    SameSeen(Add(m, fd, initial).masks, Joining(Seen(m.masks), fd, Has(initial, READ), Has(initial, WRITE)));
  }

  // -- The running flag -------------------------------------------------------

  predicate StopsWhenDrained(m: Mpx) {
    !m.running <==> m.shuttingDown && m.masks == map[]
  }

  /** The shutdown loop leaves the running flag exact precisely when it removes nobody, or everybody and these were
      at least two. */
  lemma ShutdownFlagExactness(m: Mpx)
    requires m.running
    ensures StopsWhenDrained(Shutdown(m))
            <==> if forall fd :: fd in m.masks ==> !Survives(m, fd) then |m.masks| >= 2
                 else forall fd :: fd in m.masks ==> Survives(m, fd)
  {
    var r := Shutdown(m);
    assert r.masks == map[] <==> forall fd :: fd in m.masks ==> !Survives(m, fd) by {
      assert forall fd :: fd in m.masks && Survives(m, fd) ==> fd in r.masks;
      assert r.masks != map[] ==> exists fd :: fd in r.masks;
    }
    assert r.masks.Keys == m.masks.Keys <==> forall fd :: fd in m.masks ==> Survives(m, fd) by {
      assert forall fd :: fd in m.masks && Survives(m, fd) ==> fd in r.masks.Keys;
      assert forall fd :: fd in m.masks.Keys && fd in r.masks.Keys ==> Survives(m, fd);
    }
    assert |m.masks| == |m.masks.Keys|;
    assert m.masks == map[] <==> |m.masks| == 0;
  }

  /** With the pipe reader registered, as init() leaves it, shutdown ends the loop at once exactly when some other
      manager is not waiting to write; the survivors, pipe reader included, are cut off. */
  lemma PrematureExit(m: Mpx)
    requires m.running && m.pipeReader in m.masks
    ensures !Shutdown(m).running
            <==> exists fd :: fd in m.masks && fd != m.pipeReader && Cleared(m.masks[fd], READ_ACCEPT) == NONE
    ensures m.pipeReader in Shutdown(m).masks
  {
    var r := Shutdown(m);
    assert m.pipeReader in r.masks && r.masks != map[];
    assert forall fd :: fd in m.masks && !Survives(m, fd) ==> fd in m.masks.Keys && fd !in r.masks.Keys;
    if r.masks.Keys != m.masks.Keys {
      assert r.masks.Keys <= m.masks.Keys;
      var fd :| fd in m.masks.Keys && fd !in r.masks.Keys;
      assert fd in m.masks && !Survives(m, fd);
    }
  }

  // -- Runs -------------------------------------------------------------------

  datatype Step =
    | Event(fd: nat, readable: bool, writable: bool, onRead: seq<Action>, readVerdict: Verdict,
            onWrite: seq<Action>, writeVerdict: Verdict)
    | HangUp(fd: nat)

  function ActOn(m: Mpx, a: Action): Mpx {
    match a
    case Register(fd, op) => if fd in m.masks then Enable(m, fd, op) else m
    case Adopt(fd, initial) => Add(m, fd, initial)
    case RaiseShutdown => Shutdown(m)
  }

  function Callback(m: Mpx, actions: seq<Action>): Mpx
    decreases |actions|
  {
    if actions == [] then m else Callback(ActOn(m, actions[0]), actions[1..])
  }

  // handle_result in handle_events().
  function Answer(m: Mpx, fd: nat, op: Op, verdict: Verdict): Mpx {
    match verdict
    case Done => if fd in m.masks then Disable(m, fd, op, true) else m
    case Error => Del(m, fd)
    case _ => m
  }

  // Both halves pass operation::read to handle_result.
  function ReadHalf(m: Mpx, e: Step): Mpx
    requires e.Event?
  {
    if e.readable then Answer(Callback(m, e.onRead), e.fd, READ, e.readVerdict) else m
  }

  function WriteHalf(m: Mpx, e: Step): Mpx
    requires e.Event?
  {
    if e.writable && e.fd in m.masks then Answer(Callback(m, e.onWrite), e.fd, READ, e.writeVerdict) else m
  }

  function Next(m: Mpx, e: Step): Mpx {
    match e
    case HangUp(fd) => Del(m, fd)
    case Event(fd, _, _, _, _, _, _) =>
      if fd !in m.masks then m
      else if e.readable && e.readVerdict == Error then ReadHalf(m, e)
      else WriteHalf(ReadHalf(m, e), e)
  }

  function Run(m: Mpx, steps: seq<Step>): Mpx
    decreases |steps|
  {
    if steps == [] then m else Run(Next(m, steps[0]), steps[1..])
  }

  // The operating system hands out descriptors that are not in use.
  predicate ValidActions(m: Mpx, actions: seq<Action>)
    decreases |actions|
  {
    actions != [] ==>
      (actions[0].Adopt? ==> actions[0].fd !in m.masks) && ValidActions(ActOn(m, actions[0]), actions[1..])
  }

  predicate ValidStep(m: Mpx, e: Step) {
    e.Event? && e.fd in m.masks ==> ValidActions(m, e.onRead) && ValidActions(ReadHalf(m, e), e.onWrite)
  }

  predicate ValidRun(m: Mpx, steps: seq<Step>)
    decreases |steps|
  {
    steps != [] ==> ValidStep(m, steps[0]) && ValidRun(Next(m, steps[0]), steps[1..])
  }

  // A manager that waits to write.
  predicate Writes(m: Mpx, fd: nat) {
    fd in m.masks && Has(m.masks[fd], WRITE)
  }

  lemma WriteBitLaws(mask: Op, op: Op)
    ensures Has(mask, WRITE) ==> Has(Joined(mask, op), WRITE)
    ensures Has(mask, WRITE) ==> Has(Cleared(mask, READ_ACCEPT), WRITE) && Cleared(mask, READ_ACCEPT) != NONE
    ensures Has(mask, WRITE) ==> Has(Cleared(mask, READ), WRITE) && Cleared(mask, READ) != NONE
  {
  }

  lemma ActOnKeeps(m: Mpx, a: Action, fd: nat)
    requires Agrees(m) && (a.Adopt? ==> a.fd !in m.masks)
    ensures Agrees(ActOn(m, a))
    ensures Writes(m, fd) ==> Writes(ActOn(m, a), fd)
  {
    match a {
      case Register(g, op) =>
        if g in m.masks {
          WriteBitLaws(m.masks[g], op);
        }
      case Adopt(g, initial) => AddExactness(m, g, initial);
      case RaiseShutdown =>
        if Writes(m, fd) {
        }
    }
  }

  lemma {:induction false} CallbackKeeps(m: Mpx, actions: seq<Action>, fd: nat)
    requires Agrees(m) && ValidActions(m, actions)
    ensures Agrees(Callback(m, actions))
    ensures Writes(m, fd) ==> Writes(Callback(m, actions), fd)
    decreases |actions|
  {
    if actions != [] {
      ActOnKeeps(m, actions[0], fd);
      CallbackKeeps(ActOn(m, actions[0]), actions[1..], fd);
    }
  }

  lemma AnswerKeeps(m: Mpx, g: nat, verdict: Verdict, fd: nat)
    requires Agrees(m)
    ensures Agrees(Answer(m, g, READ, verdict))
    ensures Writes(m, fd) && (g == fd ==> verdict != Error) ==> Writes(Answer(m, g, READ, verdict), fd)
  {
    DelExactness(m, g);
    if g in m.masks {
      WriteBitLaws(m.masks[g], READ);
    } else if Writes(m, fd) {
    }
  }

  // The step removes the manager: its connection hangs up or it reports an error.
  predicate Fails(e: Step, fd: nat) {
    && e.fd == fd
    && (e.Event? ==> (e.readable && e.readVerdict == Error) || (e.writable && e.writeVerdict == Error))
  }

  lemma NextKeeps(m: Mpx, e: Step, fd: nat)
    requires Agrees(m) && ValidStep(m, e)
    ensures Agrees(Next(m, e))
    ensures Writes(m, fd) && !Fails(e, fd) ==> Writes(Next(m, e), fd)
  {
    if e.HangUp? {
      DelExactness(m, e.fd);
      if e.fd !in m.masks && Writes(m, fd) {
      }
    } else if e.fd in m.masks {
      CallbackKeeps(m, e.onRead, fd);
      AnswerKeeps(Callback(m, e.onRead), e.fd, e.readVerdict, fd);
      var half := ReadHalf(m, e);
      CallbackKeeps(half, e.onWrite, fd);
      AnswerKeeps(Callback(half, e.onWrite), e.fd, e.writeVerdict, fd);
    }
  }

  /** Over every run, with descriptors reused freely, the watched descriptors are the registered ones and are polled
      for exactly what their masks ask. */
  lemma {:induction false} AgreementOverRuns(m: Mpx, steps: seq<Step>)
    requires Agrees(m) && ValidRun(m, steps)
    ensures Agrees(Run(m, steps))
    decreases |steps|
  {
    if steps != [] {
      NextKeeps(m, steps[0], 0);
      AgreementOverRuns(Next(m, steps[0]), steps[1..]);
    }
  }

  /** Reporting that writing is done never ends writing: over every run, shutdown included, a manager that waits to
      write stays registered for it until it fails or its connection hangs up. */
  lemma {:induction false} WritersNeverFinish(m: Mpx, steps: seq<Step>, fd: nat)
    requires Agrees(m) && ValidRun(m, steps) && Writes(m, fd)
    requires forall i :: 0 <= i < |steps| ==> !Fails(steps[i], fd)
    ensures Writes(Run(m, steps), fd)
    decreases |steps|
  {
    if steps != [] {
      NextKeeps(m, steps[0], fd);
      WritersNeverFinish(Next(m, steps[0]), steps[1..], fd);
    }
  }

  predicate StaysRegistered(m: Mpx, actions: seq<Action>, fd: nat)
    decreases |actions|
  {
    fd in m.masks && (actions != [] ==> StaysRegistered(ActOn(m, actions[0]), actions[1..], fd))
  }

  predicate SurvivesShutdowns(m: Mpx, actions: seq<Action>, fd: nat)
    decreases |actions|
  {
    actions != [] ==>
      && (actions[0].RaiseShutdown? && fd in m.masks ==> Survives(m, fd))
      && SurvivesShutdowns(ActOn(m, actions[0]), actions[1..], fd)
  }

  /** The loop handles an event through a bare reference. Its manager stays registered all through the callback exactly
      if every shutdown that the callback raises finds it waiting to write (or is handled by the pipe reader). */
  lemma {:induction false} BareReferenceExactness(m: Mpx, actions: seq<Action>, fd: nat)
    requires Agrees(m) && ValidActions(m, actions) && fd in m.masks
    ensures StaysRegistered(m, actions, fd) <==> SurvivesShutdowns(m, actions, fd)
    decreases |actions|
  {
    hide Agrees, Survives;
    if actions != [] {
      ActOnKeeps(m, actions[0], fd);
      ActOnStays(m, actions[0], fd);
      if fd in ActOn(m, actions[0]).masks {
        BareReferenceExactness(ActOn(m, actions[0]), actions[1..], fd);
      }
    }
  }

  lemma ActOnStays(m: Mpx, a: Action, fd: nat)
    requires Agrees(m) && fd in m.masks && (a.Adopt? ==> a.fd !in m.masks)
    ensures fd in ActOn(m, a).masks <==> a.RaiseShutdown? ==> Survives(m, fd)
  {
  }

  /** What a finished write does instead: it ends the manager's reading. Only a manager that neither reads nor
      writes is treated as it should be. */
  lemma WriteDoneExactness(m: Mpx, fd: nat)
    requires Agrees(m) && fd in m.masks
    ensures Answer(m, fd, READ, Done) == Disable(m, fd, WRITE, true)
            <==> !Has(m.masks[fd], READ) && !Has(m.masks[fd], WRITE)
  {
    var mask := m.masks[fd];
    assert fd in (m.masks[fd := Cleared(mask, READ)]) && m.masks[fd := Cleared(mask, READ)][fd] == Cleared(mask, READ);
    assert m.masks[fd := Cleared(mask, WRITE)][fd] == Cleared(mask, WRITE);
  }

  // -- The shutdown loop, manager by manager ----------------------------------

  function ShutdownVisit(m: Mpx, fd: nat): Mpx
    requires fd in m.masks
  {
    if fd == m.pipeReader then m
    else
      var d := Disable(m, fd, READ_ACCEPT, false);
      if Cleared(m.masks[fd], READ_ACCEPT) == NONE then DelInLoop(d, fd) else d
  }

  // Where the loop that started at m stands, with the managers in `todo` still to be visited.
  ghost predicate Visited(m: Mpx, s: Mpx, todo: set<nat>) {
    && Agrees(m)
    && Agrees(s)
    && todo <= m.masks.Keys
    && s.masks.Keys <= m.masks.Keys
    && (forall fd :: fd in m.masks ==>
          if fd in todo then fd in s.masks && s.masks[fd] == m.masks[fd]
          else (fd in s.masks <==> Survives(m, fd)) && (fd in s.masks ==> s.masks[fd] == Left(m, fd)))
    && s == m.(masks := s.masks, table := s.table, shuttingDown := true,
               running := m.running && (s.masks.Keys == m.masks.Keys || (s.masks == map[] && |m.masks| == 1)))
  }

  lemma VisitStart(m: Mpx)
    ensures Agrees(m) ==> Visited(m, m.(shuttingDown := true), m.masks.Keys)
  {
  }

  lemma VisitEffect(s: Mpx, fd: nat)
    requires Agrees(s) && fd in s.masks && fd != s.pipeReader
    ensures var left := Cleared(s.masks[fd], READ_ACCEPT); var r := ShutdownVisit(s, fd);
            && Agrees(r)
            && r == s.(masks := if left != NONE then s.masks[fd := left] else s.masks - {fd}, table := r.table,
                       running := s.running && !(left == NONE && s.shuttingDown && s.masks - {fd} != map[]))
  {
    hide Agrees, Mod, DelInLoop;
    var left := Cleared(s.masks[fd], READ_ACCEPT);
    UnchangedMask(s.masks[fd], READ_ACCEPT);
    hide Has, Cleared;
    assert s.masks[fd := s.masks[fd]] == s.masks;
    MaskChangeAgrees(s, fd, left);
    var d := Disable(s, fd, READ_ACCEPT, false);
    assert d == s.(masks := s.masks[fd := left], table := d.table) && Agrees(d);
    DelInLoopEffect(d, fd);
    assert s.masks[fd := left] - {fd} == s.masks - {fd};
  }

  lemma DelInLoopEffect(m: Mpx, fd: nat)
    requires Agrees(m) && fd in m.masks
    ensures Agrees(DelInLoop(m, fd))
    ensures DelInLoop(m, fd) == m.(masks := m.masks - {fd}, table := m.table - {fd},
                                   running := m.running && !(m.shuttingDown && m.masks - {fd} != map[]))
  {
    hide Flag, Shutdown;
  }

  lemma Sizes(all: map<nat, Op>, some: map<nat, Op>, fd: nat)
    requires some.Keys <= all.Keys && fd in some
    ensures (some - {fd}).Keys != all.Keys
    ensures some - {fd} == map[] && some.Keys == all.Keys ==> |all| == 1
    ensures |all| == 1 ==> some - {fd} == map[] && some.Keys == all.Keys
    ensures some != map[]
  {
    assert fd !in (some - {fd}).Keys;
    assert |all| == |all.Keys|;
    if |all| == 1 {
      assert all.Keys == {fd} by {
        assert |all.Keys - {fd}| == 0;
      }
      assert forall other :: other in some - {fd} ==> other in all.Keys;
    }
    if some - {fd} == map[] && some.Keys == all.Keys {
      assert forall other :: other in all.Keys ==> other == fd || other in some - {fd};
      assert all.Keys == {fd};
    }
  }

  lemma VisitStep(m: Mpx, s: Mpx, todo: set<nat>, fd: nat)
    requires Visited(m, s, todo) && fd in todo
    ensures fd in s.masks && Agrees(s)
    ensures Visited(m, ShutdownVisit(s, fd), todo - {fd})
  {
    hide Cleared, Flag, Agrees;
    if fd != m.pipeReader {
      VisitEffect(s, fd);
      Sizes(m.masks, s.masks, fd);
      assert s.masks[fd := Cleared(s.masks[fd], READ_ACCEPT)].Keys == s.masks.Keys;
    }
    hide ShutdownVisit;
    var r := ShutdownVisit(s, fd);
    assert fd == m.pipeReader ==> r == s;
  }

  lemma VisitEnd(m: Mpx, s: Mpx)
    requires Visited(m, s, {})
    ensures s.(writerOpen := false) == Shutdown(m)
  {
    var r := Shutdown(m);
    assert s.masks == r.masks;
    assert s.table == r.table;
  }

  // -- The multiplexer --------------------------------------------------------

  class Multiplexer {
    var managers: map<nat, Manager>
    var kernel: Table
    var shuttingDown: bool
    var running: bool
    const pipeReader: nat
    var writerOpen: bool

    ghost predicate Valid()
      reads this, managers.Values
    {
      forall fd :: fd in managers ==> managers[fd].fd == fd
    }

    ghost function Masks(): map<nat, Op>
      reads this, managers.Values
    {
      map fd | fd in managers :: managers[fd].mask
    }

    ghost function State(): Mpx
      reads this, managers.Values
    {
      Mpx(Masks(), kernel, shuttingDown, running, pipeReader, writerOpen)
    }

    constructor (pipeReader: nat)
      ensures Valid()
      ensures State() == Mpx(map[], map[], false, false, pipeReader, true)
    {
      this.pipeReader := pipeReader;
      managers, kernel := map[], map[];
      shuttingDown, running, writerOpen := false, false, true;
    }

    // epoll_ctl
    method Control(fd: nat, c: Ctl, events: Op) returns (ok: bool)
      modifies this`kernel
      ensures ok == Accepted(old(kernel), fd, c)
      ensures kernel == if ok then Applied(old(kernel), fd, c, events) else old(kernel)
    {
      ok := (c == AddCtl) == (fd !in kernel);
      if ok {
        kernel := if c == DelCtl then kernel - {fd} else kernel[fd := Flag(events)];
      }
    }

    method ModFd(fd: nat, c: Ctl, events: Op)
      requires Valid() && (!Accepted(kernel, fd, c) ==> Agrees(State()))
      modifies this, managers.Values
      ensures Valid() && State() == Mod(old(State()), fd, c, events)
      ensures forall g :: g in managers ==> g in old(managers) && managers[g] == old(managers[g])
      ensures old(Accepted(kernel, fd, c)) ==>
                managers == old(managers) && forall mgr :: mgr in managers.Values ==> mgr.mask == old(mgr.mask)
      decreases if Accepted(kernel, fd, c) then 0 else 5
    {
      hide Shutdown, Agrees;
      ghost var m := State();
      var ok := Control(fd, c, events);
      assert Masks() == m.masks;
      if !ok {
        ShutdownLoop();
      }
    }

    // A manager whose init() fails shuts the multiplexer down.
    method AddManager(mgr: Manager, initial: Op, initFails: bool)
      requires Valid() && Agrees(State()) && mgr !in managers.Values
      requires initFails && mgr.fd in managers ==> Survives(State(), mgr.fd)
      modifies this, managers.Values, mgr
      ensures Valid()
      ensures var added := Add(old(State()), mgr.fd, initial);
              State() == if initFails then Shutdown(added) else added
    {
      hide Shutdown, Agrees;
      ghost var m := State();
      AddExactness(m, mgr.fd, initial);
      assert forall fd :: fd in managers ==> managers[fd] in managers.Values;
      mgr.mask := initial;
      assert State() == m;
      ModFd(mgr.fd, AddCtl, initial);
      Emplace(mgr);
      if initFails {
        assert forall g :: g in managers && managers[g] != mgr ==> managers[g] in old(managers.Values);
        ShutdownLoop();
      }
    }

    // The registry keeps an entry that it has.
    method Emplace(mgr: Manager)
      requires Valid()
      modifies this`managers
      ensures Valid() && Masks() == if mgr.fd in old(Masks()) then old(Masks()) else old(Masks())[mgr.fd := mgr.mask]
      ensures forall g :: g in managers ==>
                managers[g] == mgr || (g in old(managers) && managers[g] == old(managers[g]))
    {
      if mgr.fd !in managers {
        managers := managers[mgr.fd := mgr];
      }
    }

    method EnableOp(mgr: Manager, op: Op)
      requires Valid() && Agrees(State()) && mgr.fd in managers && managers[mgr.fd] == mgr
      modifies this, managers.Values
      ensures Valid() && State() == Enable(old(State()), mgr.fd, op)
    {
      hide Mod, Agrees, Accepted, Holds, Joined;
      ghost var m := State();
      var changed := mgr.MaskAdd(op);
      if !changed {
        UnchangedMask(old(mgr.mask), op);
        assert Masks() == m.masks;
        return;
      }
      Accepts(m, mgr.fd, mgr.mask);
      assert Masks() == m.masks[mgr.fd := mgr.mask];
      ModFd(mgr.fd, ModCtl, mgr.mask);
    }

    method DisableOp(mgr: Manager, op: Op, remove: bool)
      requires Valid() && Agrees(State()) && mgr.fd in managers && managers[mgr.fd] == mgr
      modifies this, managers.Values
      ensures Valid()
      ensures State() == Disable(old(State()), mgr.fd, op, remove)
      ensures forall g :: g in managers ==> g in old(managers) && managers[g] == old(managers[g])
      ensures !remove ==> managers == old(managers)
      decreases 2
    {
      hide Mod, Del, Agrees, Accepted;
      ghost var m := State();
      var changed := mgr.MaskDel(op);
      if !changed {
        UnchangedMask(old(mgr.mask), op);
        assert Masks() == m.masks;
        return;
      }
      Accepts(m, mgr.fd, mgr.mask);
      assert Masks() == m.masks[mgr.fd := mgr.mask];
      ModFd(mgr.fd, ModCtl, mgr.mask);
      if remove && mgr.mask == NONE {
        DelManager(mgr.fd);
      }
    }

    method DelManager(fd: nat)
      requires Valid() && (fd !in kernel ==> Agrees(State()))
      modifies this, managers.Values
      ensures Valid() && State() == Del(old(State()), fd)
      ensures forall g :: g in managers ==> g in old(managers) && managers[g] == old(managers[g])
      decreases if fd in kernel then 1 else 6
    {
      hide Shutdown, Agrees;
      ModFd(fd, DelCtl, NONE);
      ghost var masks := Masks();
      managers := managers - {fd};
      assert Masks() == masks - {fd};
      assert managers == map[] <==> Masks() == map[];
      if shuttingDown && managers == map[] {
        running := false;
      }
    }

    method DelByIterator(fd: nat)
      requires Valid() && fd in kernel
      modifies this, managers.Values
      ensures Valid() && State() == DelInLoop(old(State()), fd)
      ensures managers == old(managers) - {fd}
      decreases 1
    {
      hide Shutdown, Agrees;
      ghost var masks := Masks();
      ModFd(fd, DelCtl, NONE);
      managers := managers - {fd};
      assert Masks() == masks - {fd};
      assert managers == map[] <==> Masks() == map[];
      if shuttingDown && managers != map[] {
        running := false;
      }
    }

    // handle_result in handle_events()
    method HandleResult(mgr: Manager, verdict: Verdict, op: Op) returns (goOn: bool)
      requires Valid() && Agrees(State()) && mgr.fd in managers && managers[mgr.fd] == mgr
      modifies this, managers.Values
      ensures Valid()
      ensures State() == Answer(old(State()), mgr.fd, op, verdict)
      ensures goOn <==> verdict != Error
    {
      hide Agrees, Disable, Del;
      if verdict == Done {
        DisableOp(mgr, op, true);
      } else if verdict == Error {
        DelManager(mgr.fd);
        return false;
      }
      goOn := true;
    }

    // shutdown() on the multiplexer thread
    method ShutdownLoop()
      requires Valid() && Agrees(State())
      modifies this, managers.Values
      ensures Valid() && State() == Shutdown(old(State()))
      ensures forall g :: g in managers ==> g in old(managers) && managers[g] == old(managers[g])
      decreases 4, 1
    {
      hide Shutdown, Visited, Agrees;
      ghost var m := State();
      shuttingDown := true;
      assert Masks() == m.masks;
      VisitStart(m);
      assert managers.Keys == m.masks.Keys;
      VisitAll(m);
      VisitEnd(m, State());
      writerOpen := false;
    }

    // The registry is unordered, so it is visited in any order.
    method VisitAll(ghost m: Mpx)
      requires Valid() && Visited(m, State(), managers.Keys)
      modifies this, managers.Values
      ensures Valid() && Visited(m, State(), {})
      ensures forall g :: g in managers ==> g in old(managers) && managers[g] == old(managers[g])
      decreases 4, 0
    {
      hide *;
      var todo := managers.Keys;
      while todo != {}
        invariant Valid() && todo <= managers.Keys
        invariant forall fd :: fd in managers ==> fd in old(managers) && managers[fd] == old(managers[fd])
        invariant Visited(m, State(), todo)
        decreases todo
      {
        var fd :| fd in todo;
        VisitStep(m, State(), todo, fd);
        ShutdownOne(fd);
        todo := todo - {fd};
      }
    }

    // The body of the shutdown loop.
    method ShutdownOne(fd: nat)
      requires Valid() && Agrees(State()) && fd in managers
      modifies this, managers.Values
      ensures Valid() && State() == ShutdownVisit(old(State()), fd)
      ensures forall g :: g in managers ==> g in old(managers) && managers[g] == old(managers[g])
      ensures old(managers).Keys - {fd} <= managers.Keys
      decreases 3
    {
      var mgr := managers[fd];
      if fd != pipeReader {
        DisableOp(mgr, READ_ACCEPT, false);
        if mgr.mask == NONE {
          DelByIterator(fd);
        }
      }
    }
  }
}
