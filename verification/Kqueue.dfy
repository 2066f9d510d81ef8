/** The kqueue multiplexer: manager registry, operation masks, a kernel filter table that is updated
    lazily through a log of changes, and graceful shutdown. */
module Kqueue {
  import opened Interest
  import opened ManagerResult
  import opened Managers

  // -- The kernel's filter table ----------------------------------------------

  datatype Filter = ReadFilter | WriteFilter | NoFilter
  datatype Flag = AddDisabled | EnableFilter | DisableFilter | DeleteFilter
  datatype Change = Change(fd: nat, flag: Flag, filter: Filter)

  // Which filters exist, and which of them are enabled.
  type Table = map<(nat, Filter), bool>

  // Changes to filter 0 and to filters that do not exist are rejected by the kernel.
  function Applied(t: Table, c: Change): Table {
    var key := (c.fd, c.filter);
    if c.filter == NoFilter then t
    else match c.flag
      case AddDisabled => t[key := false]
      case EnableFilter => if key in t then t[key := true] else t
      case DisableFilter => if key in t then t[key := false] else t
      case DeleteFilter => t - {key}
  }

  function Replay(t: Table, log: seq<Change>): Table
    decreases |log|
  {
    if log == [] then t else Replay(Applied(t, log[0]), log[1..])
  }

  lemma {:induction false} ReplayAppend(t: Table, a: seq<Change>, b: seq<Change>)
    ensures Replay(t, a + b) == Replay(Replay(t, a), b)
    decreases |a|
  {
    if a == [] {
      assert a + b == b;
    } else {
      assert (a + b)[1..] == a[1..] + b;
      ReplayAppend(Applied(t, a[0]), a[1..], b);
    }
  }

  function ToFilter(op: Op): Filter {
    if op == READ then ReadFilter else if op == WRITE then WriteFilter else NoFilter
  }

  // What mod() appends to the log.
  function Changes(fd: nat, flag: Flag, op: Op): seq<Change> {
    if op == READ_WRITE then [Change(fd, flag, ReadFilter), Change(fd, flag, WriteFilter)]
    else [Change(fd, flag, ToFilter(op))]
  }

  // -- The multiplexer on values ----------------------------------------------

  // `masks` are the registered managers by descriptor; `table` is the kernel table once the log is applied.
  datatype Mpx = Mpx(
    masks: map<nat, Op>, table: Table, shuttingDown: bool, running: bool, pipeReader: nat, writerOpen: bool)

  function Modified(t: Table, fd: nat, flag: Flag, op: Op): Table {
    Replay(t, Changes(fd, flag, op))
  }

  function Enable(m: Mpx, fd: nat, op: Op): Mpx
    requires fd in m.masks
  {
    var mask := m.masks[fd];
    if Holds(mask, op) then m
    else m.(masks := m.masks[fd := Joined(mask, op)], table := Modified(m.table, fd, EnableFilter, Joined(mask, op)))
  }

  function Del(m: Mpx, fd: nat): Mpx {
    var masks := m.masks - {fd};
    m.(masks := masks, table := Modified(m.table, fd, DeleteFilter, READ_WRITE),
       running := m.running && !(m.shuttingDown && masks == map[]))
  }

  function Disable(m: Mpx, fd: nat, op: Op, remove: bool): Mpx
    requires fd in m.masks
  {
    var mask := m.masks[fd];
    if !Has(mask, op) then m
    else
      var mask' := Cleared(mask, op);
      var m' := m.(masks := m.masks[fd := mask'], table := Modified(m.table, fd, DisableFilter, op));
      if remove && mask' == NONE then Del(m', fd) else m'
  }

  // add() of a manager with an empty mask; the registry keeps an entry it already has for the descriptor.
  function Add(m: Mpx, fd: nat, initial: Op): Mpx {
    var added := Modified(m.table, fd, AddDisabled, READ_WRITE);
    m.(masks := if fd in m.masks then m.masks else m.masks[fd := initial],
       table := if initial == NONE then added else Modified(added, fd, EnableFilter, initial))
  }

  // Managers that stay registered in shutdown().
  predicate Survives(m: Mpx, fd: nat)
    requires fd in m.masks
  {
    fd == m.pipeReader || Cleared(m.masks[fd], READ_ACCEPT) != NONE
  }

  // shutdown() on the multiplexer thread.
  function Shutdown(m: Mpx): Mpx {
    var masks := map fd | fd in m.masks && Survives(m, fd) ::
                   if fd == m.pipeReader then m.masks[fd] else Cleared(m.masks[fd], READ_ACCEPT);
    m.(masks := masks,
       table := map key | key in m.table && (key.0 in m.masks && key.1 != NoFilter ==> key.0 in masks) :: m.table[key],
       shuttingDown := true,
       running := m.running && (masks == map[] ==> m.masks == map[]),
       writerOpen := false)
  }

  // -- Interest agreement -----------------------------------------------------

  // A manager with this mask has both filters, enabled exactly as the mask says; with `stale`, its read
  // filter may also be enabled without the mask asking for it.
  predicate Listed(t: Table, fd: nat, mask: Op, stale: bool) {
    && mask <= READ_WRITE
    && (fd, ReadFilter) in t
    && (Has(mask, READ) ==> t[(fd, ReadFilter)])
    && (!stale && t[(fd, ReadFilter)] ==> Has(mask, READ))
    && (fd, WriteFilter) in t
    && t[(fd, WriteFilter)] == Has(mask, WRITE)
  }

  predicate Unlisted(t: Table, fd: nat) {
    && (fd, ReadFilter) !in t
    && (fd, WriteFilter) !in t
    && (fd, NoFilter) !in t
  }

  predicate AgreesAt(m: Mpx, fd: nat, stale: bool) {
    if fd in m.masks then Listed(m.table, fd, m.masks[fd], stale) && (fd, NoFilter) !in m.table
    else Unlisted(m.table, fd)
  }

  // The kernel polls for what the masks of the registered managers ask for.
  ghost predicate Agrees(m: Mpx, stale: bool) {
    forall fd :: AgreesAt(m, fd, stale)
  }

  // Nothing but the entries of one descriptor differs.
  ghost predicate SameElsewhere(t: Table, u: Table, fd: nat) {
    forall other, filter :: other != fd ==>
      ((other, filter) in u <==> (other, filter) in t)
      && ((other, filter) in t ==> u[(other, filter)] == t[(other, filter)])
  }

  lemma ModifiedLaws(t: Table, fd: nat, flag: Flag, op: Op)
    ensures op == READ ==> Modified(t, fd, flag, op) == Applied(t, Change(fd, flag, ReadFilter))
    ensures op == WRITE ==> Modified(t, fd, flag, op) == Applied(t, Change(fd, flag, WriteFilter))
    ensures op == READ_WRITE ==>
              Modified(t, fd, flag, op)
              == Applied(Applied(t, Change(fd, flag, ReadFilter)), Change(fd, flag, WriteFilter))
    ensures op != READ && op != WRITE && op != READ_WRITE ==> Modified(t, fd, flag, op) == t
    ensures SameElsewhere(t, Modified(t, fd, flag, op), fd)
    ensures (fd, NoFilter) in Modified(t, fd, flag, op) <==> (fd, NoFilter) in t
  {
    var cs := Changes(fd, flag, op);
    assert Replay(Applied(t, cs[0]), cs[1..]) == Modified(t, fd, flag, op);
    if op == READ_WRITE {
      assert cs[1..] == [cs[1]] && [cs[1]][1..] == [];
      assert Replay(Applied(Applied(t, cs[0]), cs[1]), []) == Modified(t, fd, flag, op);
    } else {
      assert cs[1..] == [];
    }
  }

  // Enabling what the mask holds lists the manager, whatever was enabled before.
  lemma EnabledIsListed(t: Table, fd: nat, mask: Op, stale: bool)
    requires mask <= READ_WRITE && (fd, ReadFilter) in t && (fd, WriteFilter) in t
    requires !stale && t[(fd, ReadFilter)] ==> Has(mask, READ)
    requires t[(fd, WriteFilter)] ==> Has(mask, WRITE)
    ensures Listed(Modified(t, fd, EnableFilter, mask), fd, mask, stale)
  {
    MaskLaws(mask, mask);
    ModifiedLaws(t, fd, EnableFilter, mask);
  }

  lemma EnableAgrees(m: Mpx, fd: nat, op: Op, stale: bool)
    requires Agrees(m, stale) && fd in m.masks && op <= READ_WRITE
    ensures Agrees(Enable(m, fd, op), stale)
  {
    assert AgreesAt(m, fd, stale);
    var mask := m.masks[fd];
    if !Holds(mask, op) {
      MaskLaws(mask, op);
      EnabledIsListed(m.table, fd, Joined(mask, op), stale);
      ModifiedLaws(m.table, fd, EnableFilter, Joined(mask, op));
      forall other ensures AgreesAt(Enable(m, fd, op), other, stale) {
        assert AgreesAt(m, other, stale);
      }
    }
  }

  lemma DelAgrees(m: Mpx, fd: nat, stale: bool)
    requires forall other :: other != fd ==> AgreesAt(m, other, stale)
    requires (fd, NoFilter) !in m.table
    ensures Agrees(Del(m, fd), stale)
  {
    ModifiedLaws(m.table, fd, DeleteFilter, READ_WRITE);
    forall other ensures AgreesAt(Del(m, fd), other, stale) {
      assert other != fd ==> AgreesAt(m, other, stale);
    }
  }

  lemma DisableAgrees(m: Mpx, fd: nat, op: Op, remove: bool, stale: bool)
    requires Agrees(m, stale) && fd in m.masks && (op == READ || op == WRITE)
    ensures Agrees(Disable(m, fd, op, remove), stale)
  {
    assert AgreesAt(m, fd, stale);
    var mask := m.masks[fd];
    MaskLaws(mask, op);
    if Has(mask, op) {
      var m' := m.(masks := m.masks[fd := Cleared(mask, op)], table := Modified(m.table, fd, DisableFilter, op));
      ModifiedLaws(m.table, fd, DisableFilter, op);
      forall other ensures AgreesAt(m', other, stale) {
        assert AgreesAt(m, other, stale);
      }
      DelAgrees(m', fd, stale);
    }
  }

  lemma AddIsListed(m: Mpx, fd: nat, initial: Op)
    requires initial <= READ_WRITE
    ensures Listed(Add(m, fd, initial).table, fd, initial, false)
    ensures SameElsewhere(m.table, Add(m, fd, initial).table, fd)
    ensures (fd, NoFilter) in Add(m, fd, initial).table <==> (fd, NoFilter) in m.table
  {
    var added := Modified(m.table, fd, AddDisabled, READ_WRITE);
    ModifiedLaws(m.table, fd, AddDisabled, READ_WRITE);
    ModifiedLaws(added, fd, EnableFilter, initial);
    MaskLaws(initial, initial);
    EnabledIsListed(added, fd, initial, false);
  }

  lemma AddAgrees(m: Mpx, fd: nat, initial: Op, stale: bool)
    requires Agrees(m, stale) && initial <= READ_WRITE && fd !in m.masks
    ensures Agrees(Add(m, fd, initial), stale)
  {
    AddIsListed(m, fd, initial);
    assert AgreesAt(m, fd, stale);
    forall other | other != fd ensures AgreesAt(Add(m, fd, initial), other, stale) {
      assert AgreesAt(m, other, stale);
    }
  }

  /** Adding a manager keeps registry and kernel in agreement exactly when its descriptor is not registered yet,
      or is registered with the very mask the new manager starts with. */
  lemma AddExactness(m: Mpx, fd: nat, initial: Op)
    requires Agrees(m, false) && initial <= READ_WRITE
    ensures Agrees(Add(m, fd, initial), false) <==> fd in m.masks ==> m.masks[fd] == initial
  {
    var r := Add(m, fd, initial);
    AddIsListed(m, fd, initial);
    MaskLaws(initial, initial);
    assert AgreesAt(m, fd, false);
    if fd in m.masks {
      MaskLaws(m.masks[fd], initial);
      assert Agrees(r, false) ==> AgreesAt(r, fd, false);
    }
    forall other | other != fd ensures AgreesAt(r, other, false) {
      assert AgreesAt(m, other, false);
    }
  }

  /** Shutdown leaves registry and kernel in agreement exactly when no manager other than the pipe reader is
      registered for both reading and writing: the change for read_accept names no filter, so the read
      filters of surviving writers stay enabled. */
  lemma ShutdownExactness(m: Mpx)
    requires Agrees(m, false)
    ensures Agrees(Shutdown(m), false)
            <==> forall fd :: fd in m.masks && fd != m.pipeReader ==> m.masks[fd] != READ_WRITE
  {
    var r := Shutdown(m);
    forall fd ensures AgreesAt(r, fd, false) <==> (fd in m.masks && fd != m.pipeReader ==> m.masks[fd] != READ_WRITE) {
      assert AgreesAt(m, fd, false);
      if fd in m.masks {
        MaskLaws(m.masks[fd], READ);
        MaskLaws(Cleared(m.masks[fd], READ), READ);
      }
    }
    if Agrees(r, false) {
      assert forall fd :: AgreesAt(r, fd, false);
    }
  }

  lemma ShutdownAgrees(m: Mpx, stale: bool)
    requires Agrees(m, stale)
    ensures Agrees(Shutdown(m), true)
  {
    var r := Shutdown(m);
    forall fd ensures AgreesAt(r, fd, true) {
      assert AgreesAt(m, fd, stale);
      if fd in m.masks {
        MaskLaws(m.masks[fd], READ);
        MaskLaws(Cleared(m.masks[fd], READ), READ);
      }
    }
  }

  /** Just after the shutdown loop every survivor but the pipe reader has no read or accept bit and a non-empty mask. */
  lemma ShutdownSurvivors(m: Mpx)
    ensures var r := Shutdown(m);
            forall fd :: fd in r.masks ==>
              fd in m.masks && (fd != m.pipeReader ==> !Has(r.masks[fd], READ_ACCEPT) && r.masks[fd] != NONE)
  {
    forall fd | fd in m.masks ensures !Has(Cleared(m.masks[fd], READ_ACCEPT), READ_ACCEPT) {
    }
  }

  // -- What each operation does to the registry -------------------------------

  lemma EnableExactness(m: Mpx, fd: nat, op: Op)
    requires Plain(m.masks) && fd in m.masks && op <= READ_WRITE
    ensures var r := Enable(m, fd, op);
            && r == m.(masks := r.masks, table := r.table)
            && Plain(r.masks)
            && Seen(r.masks) == Wanting(Seen(m.masks), fd, Has(op, READ), Has(op, WRITE))
  {
    hide Has, Holds, Joined, Modified, Seen, Wanting;
    var mask := Joined(m.masks[fd], op);
    MaskLaws(m.masks[fd], op);
    UnchangedMask(m.masks[fd], op);
    SeenWanting(m.masks, fd, mask, Has(op, READ), Has(op, WRITE));
    assert mask == m.masks[fd] ==> m.masks[fd := mask] == m.masks;
  }

  /** Disabling takes away the one bit and keeps the other. A manager leaves exactly when it is to be removed then and
      had no other bit: one that is done writing goes on reading. */
  lemma DisableExactness(m: Mpx, fd: nat, op: Op, remove: bool)
    requires Plain(m.masks) && fd in m.masks && (op == READ || op == WRITE)
    ensures var r := Disable(m, fd, op, remove);
            && (fd in r.masks <==> !(remove && m.masks[fd] == op))
            && (fd in r.masks ==> (Has(r.masks[fd], READ) <==> Has(m.masks[fd], READ) && op != READ))
            && (fd in r.masks ==> (Has(r.masks[fd], WRITE) <==> Has(m.masks[fd], WRITE) && op != WRITE))
            && r.masks - {fd} == m.masks - {fd}
            && r == m.(masks := r.masks, table := r.table, running := r.running)
            && (r.running <==> m.running && !(m.shuttingDown && r.masks == map[]))
            && Plain(r.masks)
  {
    MaskLaws(m.masks[fd], op);
    UnchangedMask(m.masks[fd], op);
    OneBit(op);
    hide Has, Cleared, Modified;
  }

  lemma OneBit(op: Op)
    ensures op == READ ==> Has(op, READ) && !Has(op, WRITE)
    ensures op == WRITE ==> Has(op, WRITE) && !Has(op, READ)
    ensures Cleared(op, op) == NONE
  {
  }

  lemma DisableSeen(m: Mpx, fd: nat, op: Op)
    requires Plain(m.masks) && fd in m.masks && (op == READ || op == WRITE)
    ensures Plain(Disable(m, fd, op, true).masks)
    ensures Seen(Disable(m, fd, op, true).masks)
         == if op == READ then DoneReading(Seen(m.masks), fd) else DoneWriting(Seen(m.masks), fd)
  {
    var r := Disable(m, fd, op, true);
    DisableExactness(m, fd, op, true);
    MaskLaws(m.masks[fd], op);
    hide Disable;
    OthersSame(m.masks, r.masks, fd);
    SameSeen(r.masks, if op == READ then DoneReading(Seen(m.masks), fd) else DoneWriting(Seen(m.masks), fd));
  }

  lemma OthersSame(a: map<nat, Op>, b: map<nat, Op>, fd: nat)
    requires a - {fd} == b - {fd}
    ensures forall other :: other != fd ==> (other in a <==> other in b) && (other in a ==> a[other] == b[other])
  {
    forall other | other != fd
      ensures (other in a <==> other in b) && (other in a ==> a[other] == b[other])
    {
      assert other in a <==> other in (a - {fd});
      assert other in b <==> other in (b - {fd});
    }
  }

  lemma DelExactness(m: Mpx, fd: nat)
    ensures var r := Del(m, fd);
            && Seen(r.masks) == Leaving(Seen(m.masks), fd)
            && (Plain(m.masks) ==> Plain(r.masks))
            && r == m.(masks := r.masks, table := r.table, running := r.running)
            && (r.running <==> m.running && !(m.shuttingDown && r.masks == map[]))
  {
    SameSeen(Del(m, fd).masks, Leaving(Seen(m.masks), fd));
  }

  lemma AddSeen(m: Mpx, fd: nat, initial: Op)
    ensures var r := Add(m, fd, initial);
            && r == m.(masks := r.masks, table := r.table)
            && Seen(r.masks) == Joining(Seen(m.masks), fd, Has(initial, READ), Has(initial, WRITE))
            && (Plain(m.masks) && initial <= READ_WRITE ==> Plain(r.masks))
  {
    SameSeen(Add(m, fd, initial).masks, Joining(Seen(m.masks), fd, Has(initial, READ), Has(initial, WRITE)));
  }

  /** Shutdown keeps the pipe reader as it is and of the others exactly those that write, for writing alone. */
  lemma ShutdownSeen(m: Mpx)
    requires Plain(m.masks)
    ensures var r := Shutdown(m);
            && r == m.(masks := r.masks, table := r.table, running := r.running, shuttingDown := true,
                       writerOpen := false)
            && (r.running <==> m.running && (r.masks == map[] ==> m.masks == map[]))
            && Plain(r.masks)
            && (m.pipeReader in m.masks ==> m.pipeReader in r.masks && r.masks[m.pipeReader] == m.masks[m.pipeReader])
            && Seen(r.masks) == ShuttingDown(Seen(m.masks), m.pipeReader)
  {
    var r := Shutdown(m);
    forall fd | fd in m.masks
      ensures Survives(m, fd) <==> fd == m.pipeReader || Has(m.masks[fd], WRITE)
      ensures Cleared(m.masks[fd], READ_ACCEPT) <= READ_WRITE && !Has(Cleared(m.masks[fd], READ_ACCEPT), READ)
      ensures Has(Cleared(m.masks[fd], READ_ACCEPT), WRITE) <==> Has(m.masks[fd], WRITE)
    {
      MaskLaws(m.masks[fd], READ);
      MaskLaws(Cleared(m.masks[fd], READ), READ);
    }
    SameSeen(r.masks, ShuttingDown(Seen(m.masks), m.pipeReader));
  }

  // -- The running flag -------------------------------------------------------

  // The loop has been told to stop exactly when shutdown was requested and the registry is empty.
  predicate StopsWhenDrained(m: Mpx) {
    !m.running <==> m.shuttingDown && m.masks == map[]
  }

  /** shutdown() keeps the flag exact precisely when the registry is not empty or shutdown was under way:
      called for the first time with an empty registry it would leave the loop running forever. */
  lemma ShutdownFlagExactness(m: Mpx)
    requires StopsWhenDrained(m)
    ensures StopsWhenDrained(Shutdown(m)) <==> m.masks != map[] || m.shuttingDown
  {
    var r := Shutdown(m);
    assert m.masks == map[] ==> r.masks == map[];
  }

  /** A manager adopted by a callback that has just emptied the registry would be registered with a loop that
      stops: adding keeps the flag exact precisely while the loop has not been told to stop. */
  lemma AddFlagExactness(m: Mpx, fd: nat, initial: Op)
    requires StopsWhenDrained(m)
    ensures StopsWhenDrained(Add(m, fd, initial)) <==> m.running
  {
    assert fd in Add(m, fd, initial).masks;
  }

  // -- The concurrent system --------------------------------------------------

  // Commands other threads write to the pipe.
  datatype Command = AddCommand(fd: nat, initial: Op) | ShutdownCommand

  datatype Step =
    | RequestAdd(fd: nat, initial: Op)
    | RequestShutdown
    | Event(fd: nat, filter: Filter, actions: seq<Action>, verdict: Verdict)
    | Eof(fd: nat)
    | PipeReadable(actions: seq<Action>)

  datatype System = System(mpx: Mpx, pipe: seq<Command>)

  function ActOn(m: Mpx, a: Action): Mpx {
    match a
    case Register(fd, op) => if fd in m.masks then Enable(m, fd, op) else m
    case Adopt(fd, initial) => Add(m, fd, initial)
    case RaiseShutdown => Shutdown(m)
  }

  function Callback(m: Mpx, actions: seq<Action>): Mpx
    decreases |actions|
  {
    if actions == [] then m else Callback(ActOn(m, actions[0]), actions[1..])
  }

  // handle_result in handle_events().
  function Answer(m: Mpx, fd: nat, op: Op, verdict: Verdict): Mpx {
    match verdict
    case Done => if fd in m.masks then Disable(m, fd, op, true) else m
    case Error => Del(m, fd)
    case _ => m
  }

  function HandleEvent(m: Mpx, fd: nat, filter: Filter, actions: seq<Action>, verdict: Verdict): Mpx {
    if fd !in m.masks || filter == NoFilter then m
    else Answer(Callback(m, actions), fd, if filter == ReadFilter then READ else WRITE, verdict)
  }

  // The pipe reader's read event: a short read is an error. `actions` is what init() of an adopted manager does, which
  // includes the shutdown when it fails.
  function ReadPipe(s: System, actions: seq<Action>): System
    requires s.mpx.pipeReader in s.mpx.masks
  {
    var fd := s.mpx.pipeReader;
    if s.pipe == [] then s.(mpx := Answer(s.mpx, fd, READ, Error))
    else
      match s.pipe[0]
      case AddCommand(new_fd, initial) =>
        System(Answer(Callback(Add(s.mpx, new_fd, initial), actions), fd, READ, Ok), s.pipe[1..])
      case ShutdownCommand =>
        System(Answer(Shutdown(s.mpx), fd, READ, Done), s.pipe[1..])
  }

  function Next(s: System, step: Step): System {
    match step
    case RequestAdd(fd, initial) =>
      if s.mpx.writerOpen then s.(pipe := s.pipe + [AddCommand(fd, initial)]) else s
    case RequestShutdown =>
      if s.mpx.shuttingDown then s else s.(pipe := s.pipe + [ShutdownCommand])
    case Event(fd, filter, actions, verdict) => s.(mpx := HandleEvent(s.mpx, fd, filter, actions, verdict))
    case Eof(fd) => s.(mpx := Del(s.mpx, fd))
    case PipeReadable(actions) => if s.mpx.pipeReader in s.mpx.masks then ReadPipe(s, actions) else s
  }

  function Run(s: System, steps: seq<Step>): System
    decreases |steps|
  {
    if steps == [] then s else Run(Next(s, steps[0]), steps[1..])
  }

  // What the operating system and the managers guarantee: new descriptors are not in use, managers
  // register for reading or writing, nobody adopts a manager once the loop was told to stop, and only the
  // pipe reader handles the pipe.
  predicate Fresh(m: Mpx, pipe: seq<Command>, fd: nat) {
    && fd !in m.masks && fd != m.pipeReader
    && forall i :: 0 <= i < |pipe| && pipe[i].AddCommand? ==> pipe[i].fd != fd
  }

  predicate ValidAction(m: Mpx, pipe: seq<Command>, a: Action) {
    match a
    case Register(fd, op) => fd != m.pipeReader && (op == READ || op == WRITE)
    case Adopt(fd, initial) => Fresh(m, pipe, fd) && initial <= READ_WRITE && m.running
    case RaiseShutdown => true
  }

  predicate ValidActions(m: Mpx, pipe: seq<Command>, actions: seq<Action>)
    decreases |actions|
  {
    actions != [] ==> ValidAction(m, pipe, actions[0]) && ValidActions(ActOn(m, actions[0]), pipe, actions[1..])
  }

  predicate ValidStep(s: System, step: Step) {
    match step
    case RequestAdd(fd, initial) => Fresh(s.mpx, s.pipe, fd) && initial <= READ_WRITE
    case Event(fd, _, actions, _) => fd != s.mpx.pipeReader && ValidActions(s.mpx, s.pipe, actions)
    case PipeReadable(actions) =>
      s.mpx.pipeReader in s.mpx.masks && s.pipe != [] && s.pipe[0].AddCommand? ==>
        ValidActions(Add(s.mpx, s.pipe[0].fd, s.pipe[0].initial), s.pipe[1..], actions)
    case _ => true
  }

  predicate ValidRun(s: System, steps: seq<Step>)
    decreases |steps|
  {
    steps != [] ==> ValidStep(s, steps[0]) && ValidRun(Next(s, steps[0]), steps[1..])
  }

  // Commands wait for managers that are not registered yet.
  predicate PipeInOrder(m: Mpx, pipe: seq<Command>) {
    && (forall i :: 0 <= i < |pipe| && pipe[i].AddCommand? ==>
          pipe[i].fd !in m.masks && pipe[i].fd != m.pipeReader && pipe[i].initial <= READ_WRITE)
    && (forall i, j :: 0 <= i < j < |pipe| && pipe[i].AddCommand? && pipe[j].AddCommand? ==>
          pipe[i].fd != pipe[j].fd)
  }

  // Nobody but the multiplexer handles the pipe reader, which only reads.
  predicate PipeReaderReads(m: Mpx) {
    m.pipeReader in m.masks ==> m.masks[m.pipeReader] == READ
  }

  ghost predicate MpxInv(m: Mpx, pipe: seq<Command>) {
    && StopsWhenDrained(m)
    && PipeReaderReads(m)
    && (m.writerOpen <==> !m.shuttingDown)
    && Agrees(m, m.shuttingDown)
    && PipeInOrder(m, pipe)
  }

  ghost predicate Inv(s: System) {
    MpxInv(s.mpx, s.pipe)
  }

  // While an event is handled its manager is registered, or shutdown has begun.
  predicate Handling(m: Mpx) {
    m.masks != map[] || m.shuttingDown
  }

  lemma ActOnKeeps(m: Mpx, pipe: seq<Command>, a: Action)
    requires MpxInv(m, pipe) && Handling(m) && ValidAction(m, pipe, a)
    ensures MpxInv(ActOn(m, a), pipe)
    ensures Handling(ActOn(m, a))
    ensures ActOn(m, a).pipeReader == m.pipeReader
  {
    match a {
      case Register(fd, op) =>
        if fd in m.masks {
          EnableAgrees(m, fd, op, m.shuttingDown);
        }
      case Adopt(fd, initial) =>
        AddAgrees(m, fd, initial, m.shuttingDown);
        assert fd in Add(m, fd, initial).masks;
      case RaiseShutdown =>
        ShutdownAgrees(m, m.shuttingDown);
        ShutdownFlagExactness(m);
    }
  }

  lemma {:induction false} CallbackKeeps(m: Mpx, pipe: seq<Command>, actions: seq<Action>)
    requires MpxInv(m, pipe) && Handling(m) && ValidActions(m, pipe, actions)
    ensures MpxInv(Callback(m, actions), pipe)
    ensures Callback(m, actions).pipeReader == m.pipeReader
    ensures Handling(Callback(m, actions))
    decreases |actions|
  {
    if actions != [] {
      ActOnKeeps(m, pipe, actions[0]);
      CallbackKeeps(ActOn(m, actions[0]), pipe, actions[1..]);
    }
  }

  lemma DelKeeps(m: Mpx, pipe: seq<Command>, fd: nat)
    requires MpxInv(m, pipe)
    ensures MpxInv(Del(m, fd), pipe)
  {
    assert AgreesAt(m, fd, m.shuttingDown);
    DelAgrees(m, fd, m.shuttingDown);
  }

  // What the pipe reader, which only reads, is left with.
  lemma PipeReaderAnswered(m: Mpx, fd: nat, op: Op, verdict: Verdict)
    requires PipeReaderReads(m) && (op == READ || op == WRITE)
    ensures PipeReaderReads(Answer(m, fd, op, verdict))
    ensures op == READ && verdict == Done ==> m.pipeReader !in Answer(m, m.pipeReader, READ, Done).masks
  {
    assert Has(READ, READ) && !Has(READ, WRITE) && Cleared(READ, READ) == NONE;
  }

  lemma AnswerKeeps(m: Mpx, pipe: seq<Command>, fd: nat, op: Op, verdict: Verdict)
    requires MpxInv(m, pipe) && (op == READ || op == WRITE)
    ensures MpxInv(Answer(m, fd, op, verdict), pipe)
  {
    PipeReaderAnswered(m, fd, op, verdict);
    hide PipeReaderReads;
    match verdict {
      case Done =>
        if fd in m.masks {
          DisableAgrees(m, fd, op, true, m.shuttingDown);
          assert fd in m.masks[fd := Cleared(m.masks[fd], op)];
        }
      case Error => DelKeeps(m, pipe, fd);
      case Ok =>
      case TemporaryError =>
    }
  }

  lemma NextKeeps(s: System, step: Step)
    requires Inv(s) && ValidStep(s, step)
    ensures Inv(Next(s, step))
  {
    var m := s.mpx;
    match step {
      case RequestAdd(fd, initial) =>
      case RequestShutdown =>
      case Event(fd, filter, actions, verdict) =>
        if fd in m.masks && filter != NoFilter {
          CallbackKeeps(m, s.pipe, actions);
          AnswerKeeps(Callback(m, actions), s.pipe, fd, if filter == ReadFilter then READ else WRITE, verdict);
        }
      case Eof(fd) => DelKeeps(m, s.pipe, fd);
      case PipeReadable(actions) =>
        if m.pipeReader in m.masks {
          ReadPipeKeeps(s, actions);
        }
    }
  }

  lemma ReadPipeKeeps(s: System, actions: seq<Action>)
    requires Inv(s) && s.mpx.pipeReader in s.mpx.masks && ValidStep(s, PipeReadable(actions))
    ensures Inv(ReadPipe(s, actions))
  {
    var m := s.mpx;
    if s.pipe == [] {
      AnswerKeeps(m, s.pipe, m.pipeReader, READ, Error);
    } else {
      assert PipeInOrder(m, s.pipe[1..]);
      match s.pipe[0] {
        case AddCommand(fd, initial) =>
          AddAgrees(m, fd, initial, m.shuttingDown);
          assert fd in Add(m, fd, initial).masks;
          CallbackKeeps(Add(m, fd, initial), s.pipe[1..], actions);
        case ShutdownCommand =>
          ActOnKeeps(m, s.pipe[1..], RaiseShutdown);
          AnswerKeeps(Shutdown(m), s.pipe[1..], m.pipeReader, READ, Done);
      }
    }
  }

  /** Over every interleaving of requesting threads, pipe and event loop: the loop is told to stop exactly when
      shutdown has begun and no manager is left; the pipe's write end is open exactly until shutdown; and the kernel
      polls for what the masks say, read filters of survivors aside. */
  lemma {:induction false} SafetyOverRuns(s: System, steps: seq<Step>)
    requires Inv(s) && ValidRun(s, steps)
    ensures Inv(Run(s, steps))
    decreases |steps|
  {
    if steps != [] {
      NextKeeps(s, steps[0]);
      SafetyOverRuns(Next(s, steps[0]), steps[1..]);
    }
  }

  // init() and start(): the pipe reader and the acceptor are registered for reading.
  function Started(pipeReader: nat, acceptor: nat): System {
    var empty := Mpx(map[], map[], false, true, pipeReader, true);
    System(Add(Add(empty, pipeReader, READ), acceptor, READ), [])
  }

  lemma StartedSafely(pipeReader: nat, acceptor: nat)
    requires pipeReader != acceptor
    ensures Inv(Started(pipeReader, acceptor))
  {
    var empty := Mpx(map[], map[], false, true, pipeReader, true);
    assert Agrees(empty, false);
    AddAgrees(empty, pipeReader, READ, false);
    AddAgrees(Add(empty, pipeReader, READ), acceptor, READ, false);
    assert acceptor in Started(pipeReader, acceptor).mpx.masks;
  }

  // -- Late requests ----------------------------------------------------------

  // The step runs the shutdown loop: a callback raises it, or the command is read.
  predicate ShutsDown(s: System, step: Step) {
    match step
    case Event(fd, filter, actions, _) => fd in s.mpx.masks && filter != NoFilter && RaiseShutdown in actions
    case PipeReadable(actions) =>
      && s.mpx.pipeReader in s.mpx.masks
      && s.pipe != []
      && (s.pipe[0].ShutdownCommand? || RaiseShutdown in actions)
    case _ => false
  }

  predicate NeverShutsDown(s: System, steps: seq<Step>)
    decreases |steps|
  {
    steps != [] ==> !ShutsDown(s, steps[0]) && NeverShutsDown(Next(s, steps[0]), steps[1..])
  }

  lemma {:induction false} CallbackCloses(m: Mpx, actions: seq<Action>)
    ensures Callback(m, actions).writerOpen <==> m.writerOpen && RaiseShutdown !in actions
    decreases |actions|
  {
    if actions != [] {
      CallbackCloses(ActOn(m, actions[0]), actions[1..]);
      assert RaiseShutdown in actions <==> actions[0] == RaiseShutdown || RaiseShutdown in actions[1..];
    }
  }

  lemma StepCloses(s: System, step: Step)
    ensures Next(s, step).mpx.writerOpen <==> s.mpx.writerOpen && !ShutsDown(s, step)
  {
    match step {
      case Event(fd, filter, actions, verdict) => CallbackCloses(s.mpx, actions);
      case PipeReadable(actions) =>
        if s.mpx.pipeReader in s.mpx.masks && s.pipe != [] && s.pipe[0].AddCommand? {
          CallbackCloses(Add(s.mpx, s.pipe[0].fd, s.pipe[0].initial), actions);
        }
      case _ =>
    }
  }

  /** A thread that requests shutdown looks at the flag first and writes its command later. What it writes finds the
      pipe open exactly if no step in between ran the shutdown loop; otherwise the write fails, which terminates the
      process. */
  lemma {:induction false} LateRequestExactness(s: System, between: seq<Step>)
    requires Inv(s) && !s.mpx.shuttingDown
    ensures Run(s, between).mpx.writerOpen <==> NeverShutsDown(s, between)
  {
    OpenOverRuns(s, between);
  }

  lemma {:induction false} OpenOverRuns(s: System, steps: seq<Step>)
    ensures Run(s, steps).mpx.writerOpen <==> s.mpx.writerOpen && NeverShutsDown(s, steps)
    decreases |steps|
  {
    hide Next, ShutsDown;
    if steps != [] {
      StepCloses(s, steps[0]);
      OpenOverRuns(Next(s, steps[0]), steps[1..]);
    }
  }

  /** Two threads request shutdown: when the second one writes, the command of the first may have closed the pipe. */
  lemma LateRequestExample(pipeReader: nat, acceptor: nat)
    requires pipeReader != acceptor
    ensures var between := [RequestShutdown, PipeReadable([])];
            ValidRun(Started(pipeReader, acceptor), between)
            && !Run(Started(pipeReader, acceptor), between).mpx.writerOpen
  {
  }

  // -- Bare references --------------------------------------------------------

  predicate StaysRegistered(m: Mpx, actions: seq<Action>, fd: nat)
    decreases |actions|
  {
    fd in m.masks && (actions != [] ==> StaysRegistered(ActOn(m, actions[0]), actions[1..], fd))
  }

  predicate SurvivesShutdowns(m: Mpx, actions: seq<Action>, fd: nat)
    decreases |actions|
  {
    actions != [] ==>
      && (actions[0].RaiseShutdown? && fd in m.masks ==> Survives(m, fd))
      && SurvivesShutdowns(ActOn(m, actions[0]), actions[1..], fd)
  }

  /** The loop handles an event through a bare reference. Its manager stays registered all through the callback exactly
      if every shutdown that the callback raises finds it waiting to write (or is handled by the pipe reader); otherwise
      the registry gives up its reference while the handler still runs and the answer is still to be looked at. */
  lemma {:induction false} BareReferenceExactness(m: Mpx, actions: seq<Action>, fd: nat)
    requires fd in m.masks
    ensures StaysRegistered(m, actions, fd) <==> SurvivesShutdowns(m, actions, fd)
    decreases |actions|
  {
    hide Survives;
    if actions != [] {
      ActOnStays(m, actions[0], fd);
      if fd in ActOn(m, actions[0]).masks {
        BareReferenceExactness(ActOn(m, actions[0]), actions[1..], fd);
      }
    }
  }

  lemma ActOnStays(m: Mpx, a: Action, fd: nat)
    requires fd in m.masks
    ensures fd in ActOn(m, a).masks <==> a.RaiseShutdown? ==> Survives(m, fd)
  {
  }

  // -- Graceful exit ----------------------------------------------------------

  // Shutdown has begun, the pipe reader only reads, everybody else only writes, and no manager is on its way: add
  // commands may be left in the pipe, but only when nobody reads it any more.
  ghost predicate Draining(s: System) {
    && Inv(s) && s.mpx.shuttingDown
    && (forall fd :: fd in s.mpx.masks ==>
          s.mpx.masks[fd] == if fd == s.mpx.pipeReader then READ else WRITE)
    && (s.mpx.pipeReader in s.mpx.masks ==>
          forall i :: 0 <= i < |s.pipe| ==> s.pipe[i].ShutdownCommand?)
  }

  lemma ShutdownLeavesWriters(m: Mpx)
    requires Agrees(m, m.shuttingDown) && PipeReaderReads(m)
    ensures var r := Shutdown(m);
            forall fd :: fd in r.masks ==> r.masks[fd] == if fd == m.pipeReader then READ else WRITE
  {
    var r := Shutdown(m);
    forall fd | fd in r.masks ensures r.masks[fd] == if fd == m.pipeReader then READ else WRITE {
      assert AgreesAt(m, fd, m.shuttingDown);
      MaskLaws(m.masks[fd], READ);
      MaskLaws(Cleared(m.masks[fd], READ), READ);
    }
  }

  /** The shutdown loop itself establishes this, wherever it is called, unless the pipe reader is still there to adopt
      a manager from the pipe. */
  lemma ShutdownStartsDraining(s: System)
    requires Inv(s) && s.mpx.masks != map[]
    ensures Draining(s.(mpx := Shutdown(s.mpx)))
            <==> s.mpx.pipeReader in s.mpx.masks ==> forall i :: 0 <= i < |s.pipe| ==> s.pipe[i].ShutdownCommand?
  {
    ActOnKeeps(s.mpx, s.pipe, RaiseShutdown);
    ShutdownLeavesWriters(s.mpx);
  }

  /** The shutdown command starts draining whatever waits behind it in the pipe: its reader leaves with it. */
  lemma CommandStartsDraining(s: System, actions: seq<Action>)
    requires Inv(s) && s.mpx.pipeReader in s.mpx.masks && s.pipe != [] && s.pipe[0].ShutdownCommand?
    ensures Draining(Next(s, PipeReadable(actions)))
  {
    var m := s.mpx;
    NextKeeps(s, PipeReadable(actions));
    ShutdownLeavesWriters(m);
    PipeReaderAnswered(Shutdown(m), m.pipeReader, READ, Done);
    assert Has(READ, READ) && Cleared(READ, READ) == NONE;
  }

  // Nobody adopts new managers or registers for reading again.
  predicate NoNewWork(steps: seq<Step>) {
    forall i, j :: 0 <= i < |steps| && steps[i].Event? && 0 <= j < |steps[i].actions| ==>
      !steps[i].actions[j].Adopt? && (steps[i].actions[j].Register? ==> steps[i].actions[j].op == WRITE)
  }

  // The step in which a manager leaves: its writing is done, it fails, its peer is gone, or, for the pipe reader, it
  // reads a command or the end of the pipe.
  predicate Leaves(pipeReader: nat, step: Step, fd: nat) {
    match step
    case Event(f, filter, _, verdict) =>
      f == fd && ((verdict == Error && filter != NoFilter) || (verdict == Done && filter == WriteFilter))
    case Eof(f) => f == fd
    case PipeReadable(_) => fd == pipeReader
    case _ => false
  }

  lemma {:induction false} CallbackIdle(s: System, actions: seq<Action>)
    requires Draining(s) && ValidActions(s.mpx, s.pipe, actions)
    requires forall j :: 0 <= j < |actions| ==> !actions[j].Adopt? && (actions[j].Register? ==> actions[j].op == WRITE)
    ensures Callback(s.mpx, actions) == s.mpx
    decreases |actions|
  {
    if actions != [] {
      assert Holds(WRITE, WRITE);
      assert ActOn(s.mpx, actions[0]) == s.mpx;
      CallbackIdle(s, actions[1..]);
    }
  }

  lemma DrainingStep(s: System, step: Step)
    requires Draining(s) && ValidStep(s, step) && NoNewWork([step])
    ensures Draining(Next(s, step))
    ensures Next(s, step).mpx.pipeReader == s.mpx.pipeReader
    ensures Next(s, step).mpx.masks.Keys <= s.mpx.masks.Keys
    ensures forall fd :: Leaves(s.mpx.pipeReader, step, fd) ==> fd !in Next(s, step).mpx.masks
  {
    NextKeeps(s, step);
    assert !Has(WRITE, READ) && Has(WRITE, WRITE) && Has(READ, READ);
    assert Cleared(WRITE, WRITE) == NONE && Cleared(READ, READ) == NONE;
    match step {
      case Event(fd, filter, actions, verdict) =>
        assert [step][0] == step;
        CallbackIdle(s, actions);
      case PipeReadable(actions) =>
      case _ =>
    }
  }

  /** Graceful exit: once draining, if every registered manager leaves at some point of the run and nobody
      starts new work, the registry ends empty and the loop is told to stop. */
  lemma {:induction false} GracefulExit(s: System, steps: seq<Step>)
    requires Draining(s) && ValidRun(s, steps) && NoNewWork(steps)
    requires forall fd :: fd in s.mpx.masks ==>
               exists i :: 0 <= i < |steps| && Leaves(s.mpx.pipeReader, steps[i], fd)
    ensures Run(s, steps).mpx.masks == map[] && !Run(s, steps).mpx.running
    decreases |steps|
  {
    if steps == [] {
      assert forall fd :: fd !in s.mpx.masks;
    } else {
      var s' := Next(s, steps[0]);
      assert steps[0] == [steps[0]][0];
      DrainingStep(s, steps[0]);
      forall fd | fd in s'.mpx.masks
        ensures exists i :: 0 <= i < |steps[1..]| && Leaves(s'.mpx.pipeReader, steps[1..][i], fd)
      {
        var i :| 0 <= i < |steps| && Leaves(s.mpx.pipeReader, steps[i], fd);
        assert i > 0 && steps[1..][i - 1] == steps[i];
      }
      assert forall i :: 0 <= i < |steps[1..]| ==> steps[1..][i] == steps[i + 1];
      GracefulExit(s', steps[1..]);
    }
  }

  lemma {:induction false} RunSplits(s: System, a: seq<Step>, b: seq<Step>)
    ensures Run(s, a + b) == Run(Run(s, a), b)
    ensures ValidRun(s, a + b) <==> ValidRun(s, a) && ValidRun(Run(s, a), b)
    decreases |a|
  {
    hide Next, ValidStep;
    if a == [] {
      assert a + b == b;
    } else {
      assert (a + b)[1..] == a[1..] + b;
      RunSplits(Next(s, a[0]), a[1..], b);
    }
  }

  /** From the very start: whatever happens before the shutdown command is read, and whatever is still in the pipe then,
      once every manager that is left has left and nobody starts new work, nobody is registered and the loop is told
      to stop. */
  lemma {:induction false} ShutdownCompletes(pipeReader: nat, acceptor: nat, before: seq<Step>, after: seq<Step>)
    requires pipeReader != acceptor
    requires ValidRun(Started(pipeReader, acceptor), before + [PipeReadable([])] + after) && NoNewWork(after)
    requires var s := Run(Started(pipeReader, acceptor), before);
             s.mpx.pipeReader in s.mpx.masks && s.pipe != [] && s.pipe[0].ShutdownCommand?
    requires var d := Run(Started(pipeReader, acceptor), before + [PipeReadable([])]);
             forall fd :: fd in d.mpx.masks ==>
               exists i :: 0 <= i < |after| && Leaves(d.mpx.pipeReader, after[i], fd)
    ensures var e := Run(Started(pipeReader, acceptor), before + [PipeReadable([])] + after);
            e.mpx.masks == map[] && !e.mpx.running
  {
    hide Next, ValidStep, Inv, Draining;
    var start, command := Started(pipeReader, acceptor), [PipeReadable([])];
    RunSplits(start, before + command, after);
    RunSplits(start, before, command);
    var s := Run(start, before);
    StartedSafely(pipeReader, acceptor);
    SafetyOverRuns(start, before);
    CommandStartsDraining(s, []);
    assert command[1..] == [];
    assert Run(s, command) == Next(s, command[0]);
    GracefulExit(Next(s, command[0]), after);
  }

  // -- The shutdown loop, manager by manager ----------------------------------

  function ShutdownVisit(m: Mpx, fd: nat): Mpx
    requires fd in m.masks
  {
    if fd == m.pipeReader then m
    else
      var d := Disable(m, fd, READ_ACCEPT, false);
      if d.masks[fd] == NONE then Del(d, fd) else d
  }

  // Where the loop that started at m stands, with the managers in `todo` still to be visited.
  ghost predicate Visited(m: Mpx, s: Mpx, todo: set<nat>) {
    && MasksVisited(m, s.masks, todo)
    && TableVisited(m, s.masks, s.table)
    && s == m.(masks := s.masks, table := s.table, shuttingDown := true,
               running := m.running && (s.masks == map[] ==> m.masks == map[]))
  }

  ghost predicate MasksVisited(m: Mpx, masks: map<nat, Op>, todo: set<nat>) {
    && todo <= m.masks.Keys
    && masks.Keys <= m.masks.Keys
    && (forall fd :: fd in m.masks ==>
          if fd in todo then fd in masks && masks[fd] == m.masks[fd]
          else (fd in masks <==> Survives(m, fd))
               && (fd in masks ==>
                   masks[fd] == if fd == m.pipeReader then m.masks[fd] else Cleared(m.masks[fd], READ_ACCEPT)))
  }

  ghost predicate TableVisited(m: Mpx, masks: map<nat, Op>, t: Table) {
    && (forall key :: key in t <==> key in m.table && (key.0 in m.masks && key.1 != NoFilter ==>
          key.0 in masks))
    && (forall key :: key in t ==> t[key] == m.table[key])
  }

  lemma VisitStart(m: Mpx)
    ensures Visited(m, m.(shuttingDown := true), m.masks.Keys)
  {
  }

  lemma VisitEffect(s: Mpx, fd: nat)
    requires fd in s.masks && fd != s.pipeReader
    ensures var left := Cleared(s.masks[fd], READ_ACCEPT);
            ShutdownVisit(s, fd) ==
              if left != NONE then s.(masks := s.masks[fd := left])
              else s.(masks := s.masks - {fd}, table := s.table - {(fd, ReadFilter), (fd, WriteFilter)},
                      running := s.running && !(s.shuttingDown && s.masks - {fd} == map[]))
  {
    var mask := s.masks[fd];
    ModifiedLaws(s.table, fd, DisableFilter, READ_ACCEPT);
    ModifiedLaws(s.table, fd, DeleteFilter, READ_WRITE);
    UnchangedMask(mask, READ_ACCEPT);
    hide Modified, Has, Cleared;
    assert s.table - {(fd, ReadFilter)} - {(fd, WriteFilter)} == s.table - {(fd, ReadFilter), (fd, WriteFilter)};
    assert s.masks[fd := mask] == s.masks;
    assert s.masks[fd := Cleared(mask, READ_ACCEPT)] - {fd} == s.masks - {fd};
  }

  lemma TableStep(m: Mpx, masks: map<nat, Op>, t: Table, fd: nat, left: Op)
    requires TableVisited(m, masks, t) && fd in m.masks
    ensures TableVisited(m, masks - {fd}, t - {(fd, ReadFilter), (fd, WriteFilter)})
    ensures fd in masks ==> TableVisited(m, masks[fd := left], t)
  {
  }

  lemma VisitStep(m: Mpx, s: Mpx, todo: set<nat>, fd: nat)
    requires Visited(m, s, todo) && fd in todo
    ensures fd in s.masks && Visited(m, ShutdownVisit(s, fd), todo - {fd})
  {
    hide Cleared, TableVisited;
    if fd != m.pipeReader {
      VisitEffect(s, fd);
      TableStep(m, s.masks, s.table, fd, Cleared(s.masks[fd], READ_ACCEPT));
    }
    hide ShutdownVisit;
    var r := ShutdownVisit(s, fd);
    assert fd == m.pipeReader ==> r == s;
  }

  lemma VisitEnd(m: Mpx, s: Mpx)
    requires Visited(m, s, {})
    ensures s.(writerOpen := false) == Shutdown(m)
  {
    var r := Shutdown(m);
    assert s.masks == r.masks;
    assert s.table == r.table;
  }

  // -- The multiplexer --------------------------------------------------------

  class Multiplexer {
    var managers: map<nat, Manager>
    var updateCache: seq<Change>
    var shuttingDown: bool
    var running: bool
    const pipeReader: nat
    var writerOpen: bool
    ghost var kernel: Table

    ghost predicate Valid()
      reads this, managers.Values
    {
      forall fd :: fd in managers ==> managers[fd].fd == fd
    }

    ghost function Pending(): Table
      reads this
    {
      Replay(kernel, updateCache)
    }

    ghost function Masks(): map<nat, Op>
      reads this, managers.Values
    {
      map fd | fd in managers :: managers[fd].mask
    }

    ghost function State(): Mpx
      reads this, managers.Values
    {
      Mpx(Masks(), Pending(), shuttingDown, running, pipeReader, writerOpen)
    }

    constructor (pipeReader: nat)
      ensures Valid()
      ensures State() == Mpx(map[], map[], false, false, pipeReader, true)
    {
      this.pipeReader := pipeReader;
      managers, updateCache, kernel := map[], [], map[];
      shuttingDown, running, writerOpen := false, false, true;
    }

    method Mod(fd: nat, flag: Flag, events: Op)
      modifies this`updateCache
      ensures Pending() == Modified(old(Pending()), fd, flag, events)
      ensures updateCache == old(updateCache) + Changes(fd, flag, events)
      decreases events == READ_WRITE
    {
      ghost var log := updateCache;
      if events == READ_WRITE {
        Mod(fd, flag, READ);
        Mod(fd, flag, WRITE);
        assert updateCache == log + Changes(fd, flag, events);
      } else {
        updateCache := updateCache + [Change(fd, flag, ToFilter(events))];
      }
      ReplayAppend(kernel, log, Changes(fd, flag, events));
    }

    method EnableOp(mgr: Manager, op: Op)
      modifies this`updateCache, mgr`mask
      ensures mgr.mask == Joined(old(mgr.mask), op)
      ensures Pending() == if Holds(old(mgr.mask), op) then old(Pending())
                           else Modified(old(Pending()), mgr.fd, EnableFilter, mgr.mask)
    {
      var changed := mgr.MaskAdd(op);
      if !changed {
        return;
      }
      Mod(mgr.fd, EnableFilter, mgr.mask);
    }

    method DisableOp(mgr: Manager, op: Op, remove: bool)
      requires Valid() && mgr.fd in managers && managers[mgr.fd] == mgr
      modifies this, mgr
      ensures Valid()
      ensures State() == Disable(old(State()), mgr.fd, op, remove)
      ensures forall fd :: fd in managers ==> fd in old(managers) && managers[fd] == old(managers[fd])
      ensures managers == old(managers) || managers == old(managers) - {mgr.fd}
      ensures !remove ==> managers == old(managers)
    {
      hide Modified, Replay, Changes;
      ghost var m := State();
      var changed := mgr.MaskDel(op);
      if !changed {
        UnchangedMask(old(mgr.mask), op);
        assert Masks() == m.masks;
        return;
      }
      Mod(mgr.fd, DisableFilter, op);
      assert Masks() == m.masks[mgr.fd := mgr.mask];
      if remove && mgr.mask == NONE {
        DelManager(mgr.fd);
      }
    }

    method DelManager(fd: nat)
      requires Valid()
      modifies this
      ensures Valid() && State() == Del(old(State()), fd)
      ensures managers == old(managers) - {fd}
    {
      ghost var masks := Masks();
      Mod(fd, DeleteFilter, READ_WRITE);
      managers := managers - {fd};
      assert Masks() == masks - {fd};
      assert managers == map[] <==> Masks() == map[];
      if shuttingDown && managers == map[] {
        running := false;
      }
    }

    // A manager whose init() fails shuts the multiplexer down.
    method AddManager(mgr: Manager, initial: Op, initFails: bool)
      requires Valid() && mgr.mask == NONE && mgr !in managers.Values
      modifies this, mgr, managers.Values
      ensures Valid()
      ensures var added := Add(old(State()), mgr.fd, initial);
              State() == if initFails then Shutdown(added) else added
    {
      hide Shutdown;
      SubscribeNew(mgr, initial);
      ghost var masks := Masks();
      if mgr.fd !in managers {
        managers := managers[mgr.fd := mgr];
        assert Masks() == masks[mgr.fd := initial];
      }
      if initFails {
        ShutdownLoop();
      }
    }

    // Adds both filters and enables the initial ones; the registry is untouched.
    method SubscribeNew(mgr: Manager, initial: Op)
      requires Valid() && mgr.mask == NONE && mgr !in managers.Values
      modifies this`updateCache, mgr`mask
      ensures mgr.mask == initial && Masks() == old(Masks()) && Valid()
      ensures Pending() == Add(old(State()), mgr.fd, initial).table
    {
      hide Modified, Replay, Changes;
      UnchangedMask(NONE, initial);
      assert forall fd :: fd in managers ==> managers[fd] in managers.Values;
      Mod(mgr.fd, AddDisabled, READ_WRITE);
      EnableOp(mgr, initial);
    }

    // shutdown() on the multiplexer thread
    method ShutdownLoop()
      requires Valid()
      modifies this, managers.Values
      ensures Valid() && State() == Shutdown(old(State()))
    {
      hide Shutdown, Visited;
      ghost var m := State();
      shuttingDown := true;
      assert Masks() == m.masks;
      VisitStart(m);
      assert managers.Keys == m.masks.Keys;
      VisitAll(m);
      VisitEnd(m, State());
      writerOpen := false;
    }

    // The registry is unordered, so it is visited in any order.
    method VisitAll(ghost m: Mpx)
      requires Valid() && Visited(m, State(), managers.Keys)
      modifies this, managers.Values
      ensures Valid() && Visited(m, State(), {})
    {
      hide *;
      var todo := managers.Keys;
      while todo != {}
        invariant Valid() && todo <= managers.Keys
        invariant forall fd :: fd in managers ==> fd in old(managers) && managers[fd] == old(managers[fd])
        invariant Visited(m, State(), todo)
        decreases todo
      {
        var fd :| fd in todo;
        VisitStep(m, State(), todo, fd);
        ShutdownOne(fd);
        todo := todo - {fd};
      }
    }

    // The body of the shutdown loop.
    method ShutdownOne(fd: nat)
      requires Valid() && fd in managers
      modifies this, managers[fd]
      ensures Valid() && State() == ShutdownVisit(old(State()), fd)
      ensures forall other :: other in managers ==> other in old(managers) && managers[other] == old(managers[other])
      ensures old(managers).Keys - {fd} <= managers.Keys
    {
      var mgr := managers[fd];
      if fd != pipeReader {
        DisableOp(mgr, READ_ACCEPT, false);
        if mgr.mask == NONE {
          DelManager(fd);
        }
      }
    }

    // poll_once: kevent applies the log; what the registry and the kernel will agree on stays the same.
    method SubmitChanges()
      requires Valid()
      modifies this
      ensures Valid() && State() == old(State())
      ensures updateCache == []
      ensures kernel == old(Pending())
      ensures managers == old(managers)
    {
      kernel := Replay(kernel, updateCache);
      updateCache := [];
    }

    // handle_result in handle_events().
    method HandleResult(mgr: Manager, verdict: Verdict, op: Op)
      requires Valid() && mgr.fd in managers && managers[mgr.fd] == mgr
      modifies this, mgr
      ensures Valid()
      ensures State() == Answer(old(State()), mgr.fd, op, verdict)
    {
      match verdict {
        case Done => DisableOp(mgr, op, true);
        case Error => DelManager(mgr.fd);
        case Ok =>
        case TemporaryError =>
      }
    }
  }
}
