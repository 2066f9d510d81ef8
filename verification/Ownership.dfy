/** Reference-counted managers: intrusive pointers, and the hand-over of references between threads, the pipe, the
    registry and io_uring submissions. */
module Ownership {
  import opened Options

  // -- Counts and holders -----------------------------------------------------

  /** Where a counted reference is kept: a pointer variable, the registry, submission data, an add-command in the pipe,
      or nowhere that is ever looked at again. */
  datatype Place = Local(n: nat) | Registry(fd: nat) | Submission(id: nat) | InPipe(k: nat) | Lost(k: nat)

  // Only objects that exist have a count.
  datatype Heap = Heap(
    count: map<nat, nat>, held: map<Place, nat>, created: set<nat>, deleted: seq<nat>, pipeHead: nat, pipeTail: nat,
    lost: nat)

  // Fault is counting a reference up or down in an object that has been deleted.
  datatype Outcome = Fine(heap: Heap) | Fault

  function Ref(h: Heap, o: nat): Outcome {
    if o in h.count then Fine(h.(count := h.count[o := h.count[o] + 1])) else Fault
  }

  function Deref(h: Heap, o: nat): Outcome {
    if o !in h.count then Fault
    else if h.count[o] == 1 then Fine(h.(count := h.count - {o}, deleted := h.deleted + [o]))
    else if h.count[o] == 0 then Fault
    else Fine(h.(count := h.count[o := h.count[o] - 1]))
  }

  function Pointing(h: Heap, p: Place): Option<nat> {
    if p in h.held then Some(h.held[p]) else None
  }

  function SetPtr(h: Heap, p: Place, o: Option<nat>, addRef: bool): Outcome {
    match o
    case None => Fine(h.(held := h.held - {p}))
    case Some(x) =>
      var set_ := h.(held := h.held[p := x]);
      if addRef then Ref(set_, x) else Fine(set_)
  }

  // reset(): the old object is given up before the new one is taken.
  function Reset(h: Heap, p: Place, o: Option<nat>, addRef: bool): Outcome {
    var d := if p in h.held then Deref(h, h.held[p]) else Fine(h);
    match d
    case Fault => Fault
    case Fine(h') => SetPtr(h', p, o, addRef)
  }

  // The destructor.
  function Drop(h: Heap, p: Place): Outcome {
    if p !in h.held then Fine(h)
    else
      match Deref(h, h.held[p])
      case Fault => Fault
      case Fine(h') => Fine(h'.(held := h'.held - {p}))
  }

  // release() in one place and adoption without counting in another.
  function Moved(h: Heap, from: Place, to: Place): Heap {
    if from !in h.held then h else h.(held := (h.held - {from})[to := h.held[from]])
  }

  function Swapped(h: Heap, p: Place, q: Place): Heap {
    var a, b := Pointing(h, p), Pointing(h, q);
    var without := h.held - {p, q};
    var one := if b.Some? then without[p := b.value] else without;
    h.(held := if a.Some? then one[q := a.value] else one)
  }

  function Holders(h: Heap, o: nat): set<Place> {
    set p | p in h.held && h.held[p] == o
  }

  predicate NoRepeats(s: seq<nat>) {
    forall i, j :: 0 <= i < j < |s| ==> s[i] != s[j]
  }

  // The count of every existing object is the number of its holders.
  ghost predicate Matching(h: Heap) {
    && (forall p :: p in h.held ==> h.held[p] in h.count)
    && (forall o :: o in h.count ==>
          h.count[o] == |Holders(h, o)| && h.count[o] > 0)
  }

  // An object is deleted once, and then gone.
  ghost predicate DeletedOnce(count: map<nat, nat>, created: set<nat>, deleted: seq<nat>) {
    && NoRepeats(deleted)
    && (forall i :: 0 <= i < |deleted| ==>
          deleted[i] in created && deleted[i] !in count)
    && (forall o :: o in count ==> o in created)
    && (forall o :: o in created ==>
          o in count || o in deleted)
  }

  ghost predicate Counted(h: Heap) {
    && Matching(h)
    && DeletedOnce(h.count, h.created, h.deleted)
  }

  // Commands in the pipe, and references nobody will give up, are numbered.
  ghost predicate Numbered(h: Heap) {
    && h.pipeHead <= h.pipeTail
    && (forall k: nat :: InPipe(k) in h.held <==> h.pipeHead <= k < h.pipeTail)
    && (forall k: nat :: Lost(k) in h.held <==> k < h.lost)
  }

  ghost predicate Inv(h: Heap) {
    Counted(h) && Numbered(h)
  }

  // -- Primitive changes ------------------------------------------------------

  lemma HeldTwice(h: Heap, p: Place, q: Place)
    requires Matching(h) && p in h.held && q in h.held && h.held[p] == h.held[q] && p != q
    ensures h.count[h.held[p]] >= 2
  {
    var o := h.held[p];
    assert {p, q} <= Holders(h, o);
    SubsetSize({p, q}, Holders(h, o));
  }

  lemma {:induction false} SubsetSize(a: set<Place>, b: set<Place>)
    requires a <= b
    ensures |a| <= |b|
  {
    if a != {} {
      var p :| p in a;
      SubsetSize(a - {p}, b - {p});
    }
  }

  lemma SoleHolder(h: Heap, p: Place)
    requires Matching(h) && p in h.held && h.count[h.held[p]] == 1
    ensures Holders(h, h.held[p]) == {p}
  {
    var o := h.held[p];
    forall q | q in Holders(h, o) ensures q == p {
      if q != p {
        HeldTwice(h, p, q);
      }
    }
    assert p in Holders(h, o);
  }

  lemma DropMatches(h: Heap, p: Place)
    requires Matching(h) && p in h.held
    ensures Drop(h, p).Fine? && Matching(Drop(h, p).heap)
  {
    var x := h.held[p];
    assert h.count[x] > 0;
    var r := Drop(h, p).heap;
    assert p in Holders(h, x);
    forall y | y in h.count && y != x ensures Holders(r, y) == Holders(h, y) {
    }
    if h.count[x] == 1 {
      SoleHolder(h, p);
      forall q | q in r.held ensures r.held[q] != x {
        assert q in h.held && q != p;
        assert h.held[q] == x ==> q in Holders(h, x);
      }
    } else {
      assert Holders(r, x) == Holders(h, x) - {p};
    }
  }

  lemma DropCounts(h: Heap, p: Place)
    requires Counted(h) && p in h.held
    ensures var o := Drop(h, p);
            && o.Fine?
            && Counted(o.heap)
            && o.heap.held == h.held - {p}
            && o.heap == h.(count := o.heap.count, held := h.held - {p}, deleted := o.heap.deleted)
            && (forall x :: x in o.heap.count <==> x in h.count && (x == h.held[p] ==> h.count[x] > 1))
  {
    DropMatches(h, p);
    hide Matching;
    var x := h.held[p];
    if h.count[x] == 1 {
    } else {
    }
  }

  lemma TakeMatches(h: Heap, p: Place, x: nat)
    requires Matching(h) && p !in h.held && x in h.count
    ensures Matching(h.(count := h.count[x := h.count[x] + 1], held := h.held[p := x]))
  {
    var r := h.(count := h.count[x := h.count[x] + 1], held := h.held[p := x]);
    assert Holders(r, x) == Holders(h, x) + {p};
    forall y | y in h.count && y != x ensures Holders(r, y) == Holders(h, y) {
    }
  }

  lemma TakeCounts(h: Heap, p: Place, x: nat)
    requires Counted(h) && p !in h.held && x in h.count
    ensures var o := SetPtr(h, p, Some(x), true);
            o.Fine? && Counted(o.heap)
            && o.heap == h.(count := h.count[x := h.count[x] + 1], held := h.held[p := x])
  {
    TakeMatches(h, p, x);
    hide Matching;
  }

  lemma MoveCounts(h: Heap, p: Place, q: Place)
    requires Counted(h) && p in h.held && q !in h.held
    ensures Counted(Moved(h, p, q))
  {
    hide DeletedOnce;
    var r := Moved(h, p, q);
    var x := h.held[p];
    var b := Holders(h, x);
    assert Holders(r, x) == b - {p} + {q};
    assert p in b && q !in b;
    forall y | y in h.count && y != x ensures Holders(r, y) == Holders(h, y) {
    }
  }

  lemma SwapCounts(h: Heap, p: Place, q: Place)
    requires Counted(h)
    ensures Counted(Swapped(h, p, q))
  {
    hide Matching, DeletedOnce;
    var r := Swapped(h, p, q);
    if p == q || (p !in h.held && q !in h.held) {
      assert r.held == h.held;
    } else if q !in h.held {
      MoveCounts(h, p, q);
      assert r.held == Moved(h, p, q).held;
    } else if p !in h.held {
      MoveCounts(h, q, p);
      assert r.held == Moved(h, q, p).held;
    } else if h.held[p] == h.held[q] {
      assert r.held == h.held;
    } else {
      assert r.held == h.held[p := h.held[q]][q := h.held[p]];
      ExchangeCounts(h, p, q);
    }
  }

  lemma ExchangeCounts(h: Heap, p: Place, q: Place)
    requires Matching(h) && p in h.held && q in h.held && h.held[p] != h.held[q]
    ensures Matching(h.(held := h.held[p := h.held[q]][q := h.held[p]]))
  {
    var x, y := h.held[p], h.held[q];
    var r := h.(held := h.held[p := y][q := x]);
    assert Holders(r, x) == Holders(h, x) - {p} + {q};
    assert Holders(r, y) == Holders(h, y) - {q} + {p};
    assert p in Holders(h, x) && q !in Holders(h, x) && q in Holders(h, y) && p !in Holders(h, y);
    forall z | z in h.count && z != x && z != y ensures Holders(r, z) == Holders(h, z) {
    }
  }

  lemma CreateCounts(h: Heap, p: Place, x: nat)
    requires Counted(h) && p !in h.held && x !in h.created
    ensures Counted(h.(count := h.count[x := 1], held := h.held[p := x], created := h.created + {x}))
  {
    assert x !in h.count;
    hide DeletedOnce;
    var r := h.(count := h.count[x := 1], held := h.held[p := x], created := h.created + {x});
    assert Holders(r, x) == {p};
    forall y | y in h.count ensures Holders(r, y) == Holders(h, y) {
    }
  }

  // -- Assignment -------------------------------------------------------------

  /** reset() to an object uses it after its deletion exactly when the pointer was its only holder. */
  lemma ResetExactness(h: Heap, p: Place, x: nat)
    requires Counted(h) && x in h.count
    ensures var o := Reset(h, p, Some(x), true);
            && (o.Fault? <==> Pointing(h, p) == Some(x) && h.count[x] == 1)
            && (o.Fine? ==> Counted(o.heap)
                            && o.heap == h.(count := o.heap.count, held := h.held[p := x], deleted := o.heap.deleted))
  {
    hide Matching, DeletedOnce;
    if p in h.held {
      DropCounts(h, p);
      var d := Drop(h, p).heap;
      if x in d.count {
        TakeCounts(d, p, x);
        assert (h.held - {p})[p := x] == h.held[p := x];
      }
    } else {
      TakeCounts(h, p, x);
    }
  }

  /** Copy assignment is safe but for one case: a pointer assigned to itself that is the only holder of its object. */
  lemma CopyAssignExactness(h: Heap, p: Place, q: Place)
    requires Counted(h)
    ensures var o := Reset(h, p, Pointing(h, q), true);
            && (o.Fault? <==> p == q && p in h.held && h.count[h.held[p]] == 1)
            && (o.Fine? ==> Counted(o.heap) && Pointing(o.heap, p) == Pointing(h, q)
                            && o.heap == h.(count := o.heap.count, held := o.heap.held, deleted := o.heap.deleted)
                            && o.heap.held - {p} == h.held - {p})
  {
    if q in h.held {
      ResetExactness(h, p, h.held[q]);
      if p != q && p in h.held && h.held[p] == h.held[q] {
        HeldTwice(h, p, q);
      }
      assert h.held[p := h.held[q]] - {p} == h.held - {p};
    } else if p in h.held {
      DropCounts(h, p);
      var d := Deref(h, h.held[p]).heap;
      assert h.held - {p} - {p} == h.held - {p};
    } else {
      assert h.held - {p} == h.held;
    }
  }

  // -- Threads, pipe, registry and submissions --------------------------------

  datatype Step =
    | Create(n: nat, o: nat)
    | Copy(n: nat, from: nat)
    | CopyAssign(n: nat, from: nat)
    | MoveAssign(n: nat, from: nat)
    | Destroy(n: nat)
    | Add(n: nat, fd: nat)
    | RequestAdd(n: nat, written: bool)
    | RequestAddReleasing(n: nat, written: bool)
    | ReadAdd(fd: nat)
    | Remove(fd: nat)
    | Submit(manager: Place, id: nat, room: bool)
    | Complete(id: nat, multishot: bool, more: bool)

  // Where a command goes: into the pipe, or, when the write fails, nowhere.
  function Target(h: Heap, written: bool): Place {
    if written then InPipe(h.pipeTail) else Lost(h.lost)
  }

  function Numbering(h: Heap, written: bool): Heap {
    if written then h.(pipeTail := h.pipeTail + 1) else h.(lost := h.lost + 1)
  }

  function Renumbered(o: Outcome, written: bool): Outcome {
    if o.Fine? then Fine(Numbering(o.heap, written)) else Fault
  }

  function ThenDrop(o: Outcome, p: Place): Outcome {
    if o.Fine? then Drop(o.heap, p) else Fault
  }

  // The registry keeps an entry it has; the reference brought along is then given up.
  function IntoRegistry(h: Heap, from: Place, fd: nat): Outcome {
    if Registry(fd) in h.held then Drop(h, from) else Fine(Moved(h, from, Registry(fd)))
  }

  // kqueue: ref(), then write, then the argument is destroyed; the result of the write is not looked at.
  function HandedOver(h: Heap, n: nat, written: bool): Outcome {
    ThenDrop(Renumbered(SetPtr(h, Target(h, written), Pointing(h, Local(n)), true), written), Local(n))
  }

  // io_uring: release(), then write; likewise.
  function HandedOverByRelease(h: Heap, n: nat, written: bool): Heap {
    Numbering(Moved(h, Local(n), Target(h, written)), written)
  }

  function ReadIn(h: Heap, fd: nat): Outcome {
    IntoRegistry(h.(pipeHead := h.pipeHead + 1), InPipe(h.pipeHead), fd)
  }

  // The submission data hold a new reference to the manager, wherever it is held, which goes at once if no entry is
  // free.
  function Submitted(h: Heap, manager: Place, id: nat, room: bool): Outcome {
    var taken := SetPtr(h, Submission(id), Pointing(h, manager), true);
    if room then taken else ThenDrop(taken, Submission(id))
  }

  // Only the data of single-shot submissions are deleted.
  function Completed(h: Heap, id: nat, multishot: bool, more: bool): Outcome {
    if !multishot then Drop(h, Submission(id))
    else if more then Fine(h)
    else Fine(Moved(h, Submission(id), Lost(h.lost)).(lost := h.lost + 1))
  }

  function Next(h: Heap, step: Step): Outcome {
    match step
    case Create(n, o) => Fine(h.(count := h.count[o := 1], held := h.held[Local(n) := o], created := h.created + {o}))
    case Copy(n, from) => SetPtr(h, Local(n), Pointing(h, Local(from)), true)
    case CopyAssign(n, from) => Reset(h, Local(n), Pointing(h, Local(from)), true)
    case MoveAssign(n, from) => Fine(Swapped(h, Local(n), Local(from)))
    case Destroy(n) => Drop(h, Local(n))
    case Add(n, fd) => IntoRegistry(h, Local(n), fd)
    case RequestAdd(n, written) => HandedOver(h, n, written)
    case RequestAddReleasing(n, written) => Fine(HandedOverByRelease(h, n, written))
    case ReadAdd(fd) => ReadIn(h, fd)
    case Remove(fd) => Drop(h, Registry(fd))
    case Submit(manager, id, room) => Submitted(h, manager, id, room)
    case Complete(id, multishot, more) => Completed(h, id, multishot, more)
  }

  // New objects, variables and submission ids are new; pointers passed on are not null. Managers outside the registry
  // submit too, as long as an earlier submission keeps them.
  predicate ValidStep(h: Heap, step: Step) {
    match step
    case Create(n, o) => Local(n) !in h.held && o !in h.created
    case Copy(n, from) => Local(n) !in h.held
    case Add(n, fd) => Local(n) in h.held
    case RequestAdd(n, _) => Local(n) in h.held
    case RequestAddReleasing(n, _) => Local(n) in h.held
    case ReadAdd(fd) => h.pipeHead < h.pipeTail
    case Submit(manager, id, _) => manager in h.held && Submission(id) !in h.held
    case Complete(id, _, _) => Submission(id) in h.held
    case _ => true
  }

  // A sole holder is assigned to itself.
  predicate SoleSelfAssignment(h: Heap, step: Step) {
    step.CopyAssign? && step.n == step.from && Local(step.n) in h.held
    && h.held[Local(step.n)] in h.count
    && h.count[h.held[Local(step.n)]] == 1
  }

  // A reference that nobody will ever give up.
  predicate Loses(step: Step) {
    match step
    case RequestAdd(_, written) => !written
    case RequestAddReleasing(_, written) => !written
    case Complete(_, multishot, more) => multishot && !more
    case _ => false
  }

  lemma RegistryKeeps(h: Heap, from: Place, fd: nat)
    requires Counted(h) && from in h.held && !from.Registry?
    ensures var o := IntoRegistry(h, from, fd);
            && o.Fine?
            && Counted(o.heap)
            && o.heap.lost == h.lost
            && o.heap.created == h.created
            && o.heap.pipeHead == h.pipeHead
            && o.heap.pipeTail == h.pipeTail
            && forall p: Place :: !p.Registry? ==> (p in o.heap.held <==> p in h.held && p != from)
  {
    hide Counted;
    if Registry(fd) in h.held {
      DropCounts(h, from);
    } else {
      MoveCounts(h, from, Registry(fd));
    }
  }

  lemma HandOverKeeps(h: Heap, n: nat, written: bool)
    requires Inv(h) && Local(n) in h.held
    ensures var o := HandedOver(h, n, written);
            o.Fine? && Inv(o.heap) && o.heap.lost == h.lost + if written then 0 else 1
  {
    hide Counted;
    var t, x := Target(h, written), h.held[Local(n)];
    assert t !in h.held;
    HeldExists(h, Local(n));
    TakeCounts(h, t, x);
    var a := SetPtr(h, t, Some(x), true).heap;
    Renumbering(a, written);
    var b := Numbering(a, written);
    DropCounts(b, Local(n));
    hide SetPtr, Numbered;
  }

  lemma ReleaseKeeps(h: Heap, n: nat, written: bool)
    requires Inv(h) && Local(n) in h.held
    ensures var o := Fine(HandedOverByRelease(h, n, written));
            o.Fine? && Inv(o.heap) && o.heap.lost == h.lost + if written then 0 else 1
  {
    hide Counted;
    var t := Target(h, written);
    assert t !in h.held;
    MoveCounts(h, Local(n), t);
    Renumbering(Moved(h, Local(n), t), written);
  }

  lemma HeldExists(h: Heap, p: Place)
    ensures Counted(h) && p in h.held ==> h.held[p] in h.count && h.count[h.held[p]] > 0
  {
  }

  lemma Renumbering(h: Heap, written: bool)
    requires Counted(h)
    ensures Counted(Numbering(h, written))
  {
    hide DeletedOnce;
    var r := Numbering(h, written);
    forall o ensures Holders(r, o) == Holders(h, o) {
    }
  }

  lemma SubmitKeeps(h: Heap, manager: Place, id: nat, room: bool)
    requires Inv(h) && manager in h.held && Submission(id) !in h.held
    ensures var o := Submitted(h, manager, id, room);
            && o.Fine?
            && Inv(o.heap)
            && o.heap.lost == h.lost
  {
    hide Counted;
    HeldExists(h, manager);
    TakeCounts(h, Submission(id), h.held[manager]);
    var a := SetPtr(h, Submission(id), Some(h.held[manager]), true).heap;
    if !room {
      DropCounts(a, Submission(id));
    }
  }

  lemma CompleteKeeps(h: Heap, id: nat, multishot: bool, more: bool)
    requires Inv(h) && Submission(id) in h.held
    ensures var o := Completed(h, id, multishot, more);
            o.Fine? && Inv(o.heap) && o.heap.lost == h.lost + if multishot && !more then 1 else 0
  {
    hide Counted;
    if !multishot {
      DropCounts(h, Submission(id));
    } else if !more {
      assert Lost(h.lost) !in h.held;
      MoveCounts(h, Submission(id), Lost(h.lost));
      Renumbering(Moved(h, Submission(id), Lost(h.lost)), false);
    }
  }

  lemma CopyKeeps(h: Heap, n: nat, from: nat)
    requires Inv(h) && Local(n) !in h.held
    ensures var o := SetPtr(h, Local(n), Pointing(h, Local(from)), true);
            && o.Fine?
            && Inv(o.heap)
            && o.heap.lost == h.lost
  {
    hide Counted;
    if Local(from) in h.held {
      HeldExists(h, Local(from));
      TakeCounts(h, Local(n), h.held[Local(from)]);
    } else {
      assert h.held - {Local(n)} == h.held;
    }
  }

  lemma AssignKeeps(h: Heap, n: nat, from: nat)
    requires Inv(h)
    ensures var o := Reset(h, Local(n), Pointing(h, Local(from)), true);
            && (o.Fault? <==> SoleSelfAssignment(h, CopyAssign(n, from)))
            && (o.Fine? ==> Inv(o.heap) && o.heap.lost == h.lost)
  {
    CopyAssignExactness(h, Local(n), Local(from));
    if Local(n) in h.held {
      HeldExists(h, Local(n));
    }
    hide Counted, Numbered, Reset;
    var o := Reset(h, Local(n), Pointing(h, Local(from)), true);
    if o.Fine? {
      forall p | p != Local(n) ensures p in o.heap.held <==> p in h.held {
        assert p in (o.heap.held - {Local(n)}) <==> p in (h.held - {Local(n)});
      }
    }
  }

  lemma SwapKeeps(h: Heap, n: nat, from: nat)
    requires Inv(h)
    ensures Inv(Swapped(h, Local(n), Local(from)))
  {
    SwapCounts(h, Local(n), Local(from));
    hide Counted;
  }

  lemma PlainDropKeeps(h: Heap, p: Place)
    requires Inv(h) && !p.InPipe? && !p.Lost?
    ensures Drop(h, p).Fine?
    ensures Inv(Drop(h, p).heap)
    ensures Drop(h, p).heap.lost == h.lost
  {
    if p in h.held {
      DropCounts(h, p);
      hide Counted;
    }
  }

  lemma AddKeeps(h: Heap, n: nat, fd: nat)
    requires Inv(h) && Local(n) in h.held
    ensures var o := IntoRegistry(h, Local(n), fd);
            && o.Fine?
            && Inv(o.heap)
            && o.heap.lost == h.lost
  {
    RegistryKeeps(h, Local(n), fd);
    hide Counted, IntoRegistry;
  }

  /** An event handler runs on a bare reference. When its manager is removed from the registry meanwhile, the object is
      still there afterwards exactly if something else holds it. */
  lemma RemovalExactness(h: Heap, fd: nat)
    requires Inv(h) && Registry(fd) in h.held
    ensures var x := h.held[Registry(fd)];
            var o := Next(h, Remove(fd));
            && o.Fine?
            && (x in o.heap.count <==> exists p :: p in h.held && p != Registry(fd) && h.held[p] == x)
  {
    var x := h.held[Registry(fd)];
    DropCounts(h, Registry(fd));
    if h.count[x] == 1 {
      SoleHolder(h, Registry(fd));
      forall p | p in h.held && h.held[p] == x ensures p == Registry(fd) {
        assert p in Holders(h, x);
      }
    } else {
      assert h.count[x] > 1;
      assert Holders(h, x) != {Registry(fd)};
      assert Registry(fd) in Holders(h, x);
      var p :| p in Holders(h, x) && p != Registry(fd);
    }
  }

  // The command at the head of the pipe is taken out.
  lemma PoppedNumbered(h: Heap, r: Heap)
    requires Numbered(h) && h.pipeHead < h.pipeTail
    requires r.pipeHead == h.pipeHead + 1 && r.pipeTail == h.pipeTail && r.lost == h.lost
    requires forall p: Place :: !p.Registry? ==> (p in r.held <==> p in h.held && p != InPipe(h.pipeHead))
    ensures Numbered(r)
  {
  }

  lemma ReadKeeps(h: Heap, fd: nat)
    requires Inv(h) && h.pipeHead < h.pipeTail
    ensures var o := ReadIn(h, fd);
            && o.Fine?
            && Inv(o.heap)
            && o.heap.lost == h.lost
  {
    hide Counted, Numbered, IntoRegistry;
    PipeHeadUncounted(h);
    HeadIsHeld(h);
    var popped := h.(pipeHead := h.pipeHead + 1);
    var r := IntoRegistry(popped, InPipe(h.pipeHead), fd);
    RegistryKeeps(popped, InPipe(h.pipeHead), fd);
    PoppedNumbered(h, r.heap);
  }

  lemma HeadIsHeld(h: Heap)
    requires Numbered(h) && h.pipeHead < h.pipeTail
    ensures InPipe(h.pipeHead) in h.held
  {
  }

  /** Every step keeps counts and holders equal; the only one that counts on a deleted object is a sole holder assigned
      to itself. */
  lemma StepExactness(h: Heap, step: Step)
    requires Inv(h) && ValidStep(h, step)
    ensures Next(h, step).Fault? <==> SoleSelfAssignment(h, step)
    ensures Next(h, step).Fine? ==>
              Inv(Next(h, step).heap) && Next(h, step).heap.lost == h.lost + if Loses(step) then 1 else 0
  {
    match step {
      case Create(n, o) => CreateCounts(h, Local(n), o);
      case Copy(n, from) => CopyKeeps(h, n, from);
      case CopyAssign(n, from) => AssignKeeps(h, n, from);
      case MoveAssign(n, from) => SwapKeeps(h, n, from);
      case Destroy(n) => PlainDropKeeps(h, Local(n));
      case Add(n, fd) => AddKeeps(h, n, fd);
      case RequestAdd(n, written) => HandOverKeeps(h, n, written);
      case RequestAddReleasing(n, written) => ReleaseKeeps(h, n, written);
      case ReadAdd(fd) => ReadKeeps(h, fd);
      case Remove(fd) => PlainDropKeeps(h, Registry(fd));
      case Submit(manager, id, room) => SubmitKeeps(h, manager, id, room);
      case Complete(id, multishot, more) => CompleteKeeps(h, id, multishot, more);
    }
  }

  // -- Where references go ----------------------------------------------------

  // Reference o is one more, respectively one less, than before.
  ghost predicate OneMore(h: Heap, r: Heap, o: nat) {
    o in h.count && r.count == h.count[o := h.count[o] + 1] && r.deleted == h.deleted
  }

  ghost predicate OneLess(h: Heap, r: Heap, o: nat) {
    && o in h.count
    && (h.count[o] > 1 ==> r.count == h.count[o := h.count[o] - 1] && r.deleted == h.deleted)
    && (h.count[o] <= 1 ==> r.count == h.count - {o} && r.deleted == h.deleted + [o])
  }

  ghost predicate SameCounts(h: Heap, r: Heap) {
    r.count == h.count && r.deleted == h.deleted
  }

  // A reference is given up, and nothing else changes hands.
  ghost predicate GivenUp(h: Heap, r: Heap, from: Place)
    requires from in h.held
  {
    r.held == h.held - {from} && OneLess(h, r, h.held[from])
  }

  // A reference moves, and nothing is counted.
  ghost predicate Carried(h: Heap, r: Heap, from: Place, to: Place)
    requires from in h.held
  {
    r.held == (h.held - {from})[to := h.held[from]] && SameCounts(h, r)
  }

  // Who is added is registered, unless somebody else is: then the reference brought along is given up.
  ghost predicate Entered(h: Heap, r: Heap, from: Place, fd: nat)
    requires from in h.held
  {
    if Registry(fd) in h.held then GivenUp(h, r, from) else Carried(h, r, from, Registry(fd))
  }

  // What every step does to the places that hold references, and to the counts.
  ghost predicate Moves(h: Heap, r: Heap, step: Step)
    requires ValidStep(h, step)
  {
    match step
    case Create(n, o) => r.held == h.held[Local(n) := o] && r.count == h.count[o := 1] && r.deleted == h.deleted
    case Copy(n, from) =>
      if Local(from) in h.held
      then r.held == h.held[Local(n) := h.held[Local(from)]] && OneMore(h, r, h.held[Local(from)])
      else r.held == h.held && SameCounts(h, r)
    case CopyAssign(n, from) =>
      && r.held - {Local(n)} == h.held - {Local(n)}
      && Pointing(r, Local(n)) == Pointing(h, Local(from))
    case MoveAssign(n, from) =>
      && r.held - {Local(n), Local(from)} == h.held - {Local(n), Local(from)}
      && Pointing(r, Local(n)) == Pointing(h, Local(from))
      && Pointing(r, Local(from)) == Pointing(h, Local(n))
      && SameCounts(h, r)
    case Destroy(n) =>
      if Local(n) in h.held then GivenUp(h, r, Local(n)) else r.held == h.held && SameCounts(h, r)
    case Add(n, fd) => Entered(h, r, Local(n), fd)
    case RequestAdd(n, written) =>
      Carried(h, r, Local(n), if written then InPipe(h.pipeTail) else Lost(h.lost))
    case RequestAddReleasing(n, written) =>
      Carried(h, r, Local(n), if written then InPipe(h.pipeTail) else Lost(h.lost))
    case ReadAdd(fd) => InPipe(h.pipeHead) in h.held && Entered(h, r, InPipe(h.pipeHead), fd)
    case Remove(fd) =>
      if Registry(fd) in h.held then GivenUp(h, r, Registry(fd)) else r.held == h.held && SameCounts(h, r)
    case Submit(manager, id, room) =>
      if room then r.held == h.held[Submission(id) := h.held[manager]] && OneMore(h, r, h.held[manager])
      else r.held == h.held && SameCounts(h, r)
    case Complete(id, multishot, more) =>
      if !multishot then GivenUp(h, r, Submission(id))
      else if more then r.held == h.held && SameCounts(h, r)
      else Carried(h, r, Submission(id), Lost(h.lost))
  }

  lemma DropMoves(h: Heap, p: Place)
    requires Counted(h) && p in h.held
    ensures Drop(h, p).Fine? && GivenUp(h, Drop(h, p).heap, p)
  {
    DropCounts(h, p);
    HeldExists(h, p);
  }

  lemma EnterMoves(h: Heap, from: Place, fd: nat)
    requires Counted(h) && from in h.held
    ensures IntoRegistry(h, from, fd).Fine? && Entered(h, IntoRegistry(h, from, fd).heap, from, fd)
  {
    DropMoves(h, from);
  }

  // Counted up for the pipe, and down when the argument goes.
  lemma HandedOverIs(h: Heap, n: nat, written: bool)
    requires Local(n) in h.held && h.held[Local(n)] in h.count
    ensures var t, x := Target(h, written), h.held[Local(n)];
            HandedOver(h, n, written)
            == Drop(Numbering(h.(count := h.count[x := h.count[x] + 1], held := h.held[t := x]), written), Local(n))
  {
  }

  lemma TargetIsFree(h: Heap, written: bool)
    requires Numbered(h)
    ensures Target(h, written) !in h.held && !Target(h, written).Local?
  {
  }

  lemma HandOverMoves(h: Heap, n: nat, written: bool)
    requires Inv(h) && Local(n) in h.held
    ensures var o := HandedOver(h, n, written);
            o.Fine? && Carried(h, o.heap, Local(n), if written then InPipe(h.pipeTail) else Lost(h.lost))
  {
    hide Counted, Numbered, HandedOver, Drop;
    var t, x := Target(h, written), h.held[Local(n)];
    TargetIsFree(h, written);
    HeldExists(h, Local(n));
    TakeCounts(h, t, x);
    HandedOverIs(h, n, written);
    var a := h.(count := h.count[x := h.count[x] + 1], held := h.held[t := x]);
    Renumbering(a, written);
    var b := Numbering(a, written);
    DropMoves(b, Local(n));
    BackAgain(h, b, Drop(b, Local(n)).heap, Local(n), t);
  }

  lemma BackAgain(h: Heap, b: Heap, r: Heap, from: Place, to: Place)
    requires from in h.held && to !in h.held && h.held[from] in h.count && h.count[h.held[from]] > 0
    requires b.held == h.held[to := h.held[from]] && GivenUp(b, r, from)
    requires b.count == h.count[h.held[from] := h.count[h.held[from]] + 1] && b.deleted == h.deleted
    ensures Carried(h, r, from, to)
  {
    var x := h.held[from];
    assert from in b.held && b.held[from] == x;
    assert b.count[x := h.count[x]] == h.count;
    assert h.held[to := x] - {from} == (h.held - {from})[to := x];
  }

  lemma SubmitMoves(h: Heap, manager: Place, id: nat, room: bool)
    requires Inv(h) && manager in h.held && Submission(id) !in h.held
    ensures var o := Submitted(h, manager, id, room);
            o.Fine? && Moves(h, o.heap, Submit(manager, id, room))
  {
    var x := h.held[manager];
    HeldExists(h, manager);
    TakeCounts(h, Submission(id), x);
    hide Counted, Numbered;
    var a := SetPtr(h, Submission(id), Some(x), true).heap;
    if !room {
      DropMoves(a, Submission(id));
      assert a.count[x := h.count[x]] == h.count;
      assert h.held[Submission(id) := x] - {Submission(id)} == h.held;
    }
  }

  lemma SwapMoves(h: Heap, n: nat, from: nat)
    ensures Moves(h, Swapped(h, Local(n), Local(from)), MoveAssign(n, from))
  {
    var p, q := Local(n), Local(from);
    var r := Swapped(h, p, q);
    assert r.held - {p, q} == h.held - {p, q};
  }

  lemma ReadMoves(h: Heap, fd: nat)
    requires Inv(h) && h.pipeHead < h.pipeTail
    ensures ReadIn(h, fd).Fine? && Moves(h, ReadIn(h, fd).heap, ReadAdd(fd))
  {
    HeadIsHeld(h);
    PipeHeadUncounted(h);
    hide Counted, Numbered, IntoRegistry;
    EnterMoves(h.(pipeHead := h.pipeHead + 1), InPipe(h.pipeHead), fd);
  }

  lemma CopyMoves(h: Heap, n: nat, from: nat)
    requires Inv(h) && Local(n) !in h.held
    ensures var o := SetPtr(h, Local(n), Pointing(h, Local(from)), true);
            o.Fine? && Moves(h, o.heap, Copy(n, from))
  {
    if Local(from) in h.held {
      HeldExists(h, Local(from));
      TakeCounts(h, Local(n), h.held[Local(from)]);
    } else {
      assert h.held - {Local(n)} == h.held;
    }
  }

  /** Every step moves exactly the references it is to move: a manager that is added or read from the pipe is registered
      under its descriptor unless that is taken, one that is handed over waits in the pipe, and so on. */
  lemma StepMoves(h: Heap, step: Step)
    requires Inv(h) && ValidStep(h, step) && !SoleSelfAssignment(h, step)
    ensures Next(h, step).Fine? && Moves(h, Next(h, step).heap, step)
  {
    StepExactness(h, step);
    match step {
      case Create(n, o) =>
      case Copy(n, from) => CopyMoves(h, n, from);
      case CopyAssign(n, from) => CopyAssignExactness(h, Local(n), Local(from));
      case MoveAssign(n, from) => SwapMoves(h, n, from);
      case Destroy(n) =>
        if Local(n) in h.held {
          DropMoves(h, Local(n));
        }
      case Add(n, fd) => EnterMoves(h, Local(n), fd);
      case RequestAdd(n, written) => HandOverMoves(h, n, written);
      case RequestAddReleasing(n, written) =>
      case ReadAdd(fd) => ReadMoves(h, fd);
      case Remove(fd) =>
        if Registry(fd) in h.held {
          DropMoves(h, Registry(fd));
        }
      case Submit(manager, id, room) => SubmitMoves(h, manager, id, room);
      case Complete(id, multishot, more) =>
        if !multishot {
          DropMoves(h, Submission(id));
        }
    }
  }

  lemma PipeHeadUncounted(h: Heap)
    requires Counted(h)
    ensures Counted(h.(pipeHead := h.pipeHead + 1))
  {
    var r := h.(pipeHead := h.pipeHead + 1);
    forall o ensures Holders(r, o) == Holders(h, o) {
    }
  }

  function Run(h: Heap, steps: seq<Step>): Outcome
    decreases |steps|
  {
    if steps == [] then Fine(h)
    else
      match Next(h, steps[0])
      case Fault => Fault
      case Fine(h') => Run(h', steps[1..])
  }

  predicate ValidRun(h: Heap, steps: seq<Step>)
    decreases |steps|
  {
    steps != [] ==>
      ValidStep(h, steps[0])
      && (Next(h, steps[0]).Fine? ==> ValidRun(Next(h, steps[0]).heap, steps[1..]))
  }

  predicate SafeRun(h: Heap, steps: seq<Step>)
    decreases |steps|
  {
    steps != [] ==>
      !SoleSelfAssignment(h, steps[0])
      && (Next(h, steps[0]).Fine? ==> SafeRun(Next(h, steps[0]).heap, steps[1..]))
  }

  // Nobody takes the registration away.
  predicate Undisturbed(steps: seq<Step>, fd: nat) {
    forall i :: 0 <= i < |steps| ==> steps[i] != Remove(fd)
  }

  /** Who is registered stays registered, and is not deleted, over every run in which the registration is not
      removed. */
  lemma {:induction false} RegisteredStays(h: Heap, fd: nat, steps: seq<Step>)
    requires Inv(h) && Registry(fd) in h.held && ValidRun(h, steps) && SafeRun(h, steps) && Undisturbed(steps, fd)
    ensures var o := Run(h, steps);
            && o.Fine?
            && Registry(fd) in o.heap.held
            && o.heap.held[Registry(fd)] == h.held[Registry(fd)]
            && h.held[Registry(fd)] in o.heap.count
            && h.held[Registry(fd)] !in o.heap.deleted
    decreases |steps|
  {
    if steps == [] {
      HeldIsCreated(h, Registry(fd));
    } else {
      StepMoves(h, steps[0]);
      StepExactness(h, steps[0]);
      OneStepStays(h, Next(h, steps[0]).heap, steps[0], fd);
      assert forall i :: 0 <= i < |steps[1..]| ==> steps[1..][i] == steps[i + 1];
      hide Inv, Next, Moves, ValidStep;
      RegisteredStays(Next(h, steps[0]).heap, fd, steps[1..]);
    }
  }

  lemma OneStepStays(h: Heap, r: Heap, step: Step, fd: nat)
    requires ValidStep(h, step) && Moves(h, r, step) && Registry(fd) in h.held && step != Remove(fd)
    ensures Registry(fd) in r.held && r.held[Registry(fd)] == h.held[Registry(fd)]
  {
    hide OneLess, OneMore;
    match step {
      case CopyAssign(n, from) => assert Registry(fd) in (r.held - {Local(n)});
      case MoveAssign(n, from) => assert Registry(fd) in (r.held - {Local(n), Local(from)});
      case _ =>
    }
  }

  /** What is added under a free descriptor is held by the registry from then on, and not deleted, until it is removed;
      so is what is read from the pipe. */
  lemma AddedStays(h: Heap, step: Step, fd: nat, steps: seq<Step>)
    requires Inv(h) && ValidStep(h, step) && Registry(fd) !in h.held
    requires (step.Add? || step.ReadAdd?) && step.fd == fd
    requires ValidRun(h, [step] + steps) && SafeRun(h, [step] + steps) && Undisturbed(steps, fd)
    ensures var from := if step.Add? then Local(step.n) else InPipe(h.pipeHead);
            var o := Run(h, [step] + steps);
            && o.Fine?
            && from in h.held
            && Registry(fd) in o.heap.held
            && o.heap.held[Registry(fd)] == h.held[from]
            && h.held[from] !in o.heap.deleted
  {
    StepMoves(h, step);
    StepExactness(h, step);
    assert ([step] + steps)[1..] == steps;
    hide Inv, ValidRun, SafeRun, Next;
    UnfoldRun(h, step, steps);
    RegisteredStays(Next(h, step).heap, fd, steps);
  }

  lemma UnfoldRun(h: Heap, step: Step, steps: seq<Step>)
    requires Next(h, step).Fine?
    ensures Run(h, [step] + steps) == Run(Next(h, step).heap, steps)
    ensures ValidRun(h, [step] + steps) ==> ValidRun(Next(h, step).heap, steps)
    ensures SafeRun(h, [step] + steps) ==> SafeRun(Next(h, step).heap, steps)
  {
    assert ([step] + steps)[1..] == steps;
  }

  function Losses(steps: seq<Step>): nat {
    if steps == [] then 0 else (if Loses(steps[0]) then 1 else 0) + Losses(steps[1..])
  }

  /** Over every interleaving of threads, pipe, registry and completions: no reference operation touches a deleted
      object, if and only if no sole holder is assigned to itself; then every count is the number of holders in
      pointers, registry, pipe and submissions, and every object is deleted at most once and not before its last holder
      is gone. */
  lemma {:induction false} OwnershipOverRuns(h: Heap, steps: seq<Step>)
    requires Inv(h) && ValidRun(h, steps)
    ensures Run(h, steps).Fine? <==> SafeRun(h, steps)
    ensures Run(h, steps).Fine? ==> Inv(Run(h, steps).heap)
    ensures Run(h, steps).Fine? ==> Run(h, steps).heap.lost == h.lost + Losses(steps)
    decreases |steps|
  {
    hide Inv, Next, ValidStep, SoleSelfAssignment, Loses;
    if steps != [] {
      StepExactness(h, steps[0]);
      if Next(h, steps[0]).Fine? {
        OwnershipOverRuns(Next(h, steps[0]).heap, steps[1..]);
      }
    }
  }

  // An add command gets into the pipe.
  predicate Writes(step: Step) {
    match step
    case RequestAdd(_, written) => written
    case RequestAddReleasing(_, written) => written
    case _ => false
  }

  function Written(steps: seq<Step>): nat {
    if steps == [] then 0 else (if Writes(steps[0]) then 1 else 0) + Written(steps[1..])
  }

  function Reads(steps: seq<Step>): nat {
    if steps == [] then 0 else (if steps[0].ReadAdd? then 1 else 0) + Reads(steps[1..])
  }

  lemma PipeMoves(h: Heap, step: Step)
    ensures Next(h, step).Fine? ==>
              && Next(h, step).heap.pipeTail == h.pipeTail + (if Writes(step) then 1 else 0)
              && Next(h, step).heap.pipeHead == h.pipeHead + (if step.ReadAdd? then 1 else 0)
  {
  }

  lemma {:induction false} PipeOverRuns(h: Heap, steps: seq<Step>)
    ensures Run(h, steps).Fine? ==>
              && Run(h, steps).heap.pipeTail == h.pipeTail + Written(steps)
              && Run(h, steps).heap.pipeHead == h.pipeHead + Reads(steps)
    decreases |steps|
  {
    hide Next, Writes;
    if steps != [] {
      PipeMoves(h, steps[0]);
      if Next(h, steps[0]).Fine? {
        PipeOverRuns(Next(h, steps[0]).heap, steps[1..]);
      }
    }
  }

  const EMPTY := Heap(map[], map[], {}, [], 0, 0, 0)

  // Every pointer, registry entry and submission has given up its reference, and nobody reads the pipe any more.
  predicate Idle(h: Heap) {
    forall p :: p in h.held ==> p.Lost? || p.InPipe?
  }

  /** Once everybody has given up, every object ever created has been deleted, exactly once, if and only if no write to
      the pipe failed on the way, no multishot submission came to its end, and every add command in the pipe was read:
      one that waits when the pipe reader leaves is never adopted. */
  lemma LeakExactness(steps: seq<Step>)
    requires ValidRun(EMPTY, steps) && SafeRun(EMPTY, steps) && Run(EMPTY, steps).Fine? && Idle(Run(EMPTY, steps).heap)
    ensures var h := Run(EMPTY, steps).heap;
            && NoRepeats(h.deleted)
            && ((forall o :: o in h.created ==> o in h.deleted)
                <==> Written(steps) == Reads(steps) && forall i :: 0 <= i < |steps| ==> !Loses(steps[i]))
  {
    OwnershipOverRuns(EMPTY, steps);
    PipeOverRuns(EMPTY, steps);
    var h := Run(EMPTY, steps).heap;
    NoLosses(steps);
    hide Run, SafeRun, ValidRun;
    if h.lost > 0 {
      HeldIsCreated(h, Lost(0));
    } else if h.pipeHead < h.pipeTail {
      HeldIsCreated(h, InPipe(h.pipeHead));
    } else {
      assert h.held == map[] by {
        assert forall k: nat :: Lost(k) !in h.held && InPipe(k) !in h.held;
      }
      forall o | o in h.created ensures o in h.deleted {
        assert Holders(h, o) == {};
      }
    }
  }

  lemma HeldIsCreated(h: Heap, p: Place)
    requires Counted(h) && p in h.held
    ensures h.held[p] in h.created && h.held[p] !in h.deleted
  {
    assert h.held[p] in h.count;
  }

  lemma {:induction false} NoLosses(steps: seq<Step>)
    ensures Losses(steps) == 0 <==> forall i :: 0 <= i < |steps| ==> !Loses(steps[i])
  {
    hide Loses;
    if steps != [] {
      NoLosses(steps[1..]);
      assert forall i :: 0 < i < |steps| ==> steps[i] == steps[1..][i - 1];
    }
  }

  // -- The classes ------------------------------------------------------------

  class RefCounted {
    var refCount: nat
    ghost var alive: bool

    constructor ()
      ensures refCount == 1 && alive
    {
      refCount, alive := 1, true;
    }

    method AddRef()
      requires alive
      modifies this
      ensures alive && refCount == old(refCount) + 1
    {
      refCount := refCount + 1;
    }

    // Deletes the object with its last reference.
    method Release()
      requires alive && refCount > 0
      modifies this
      ensures refCount == old(refCount) - 1 && (alive <==> refCount > 0)
    {
      refCount := refCount - 1;
      if refCount == 0 {
        alive := false;
      }
    }
  }

  class IntrusivePtr {
    var ptr: RefCounted?

    // The object is there and counts at least this pointer.
    ghost predicate Valid()
      reads this, ptr
    {
      ptr != null ==> ptr.alive && ptr.refCount > 0
    }

    constructor (raw: RefCounted?, addRef: bool)
      requires raw != null ==> raw.alive && (addRef || raw.refCount > 0)
      modifies raw
      ensures ptr == raw && Valid()
      ensures raw != null ==> raw.refCount == old(raw.refCount) + if addRef then 1 else 0
    {
      ptr := raw;
      new;
      if ptr != null && addRef {
        ptr.AddRef();
      }
    }

    // Gives up the old object first; the caller must hold the new one elsewhere if they are the same.
    method ResetTo(raw: RefCounted?)
      requires Valid() && (raw != null ==> raw.alive && raw.refCount > 0)
      requires raw != null && raw == ptr ==> raw.refCount > 1
      modifies this, ptr, raw
      ensures ptr == raw && Valid()
      ensures raw != null ==> raw.refCount == old(raw.refCount) + if raw == old(ptr) then 0 else 1
      ensures old(ptr) != null && old(ptr) != raw ==>
                old(ptr).refCount == old(ptr.refCount) - 1 && (old(ptr).alive <==> old(ptr.refCount) > 1)
    {
      if ptr != null {
        ptr.Release();
      }
      ptr := raw;
      if ptr != null {
        ptr.AddRef();
      }
    }

    method SwapWith(other: IntrusivePtr)
      modifies this`ptr, other`ptr
      ensures ptr == old(other.ptr) && other.ptr == old(ptr)
    {
      var mine := ptr;
      ptr := other.ptr;
      other.ptr := mine;
    }

    method GiveAway() returns (raw: RefCounted?)
      modifies this`ptr
      ensures raw == old(ptr) && ptr == null
    {
      raw := ptr;
      if ptr != null {
        ptr := null;
      }
    }

    // Copy assignment is reset() with the other's object.
    method Assign(other: IntrusivePtr)
      requires Valid() && other.Valid()
      requires other.ptr != null && other.ptr == ptr ==> ptr.refCount > 1
      modifies this, ptr, other.ptr
      ensures ptr == old(other.ptr)
      ensures other.ptr == old(other.ptr)
      ensures Valid()
      ensures ptr != null ==> ptr.refCount == old(if other.ptr != null then other.ptr.refCount else 0)
                                              + if old(ptr) == old(other.ptr) then 0 else 1
    {
      ResetTo(other.ptr);
    }

    method Destroy()
      requires Valid()
      modifies ptr
      ensures ptr != null ==> ptr.refCount == old(ptr.refCount) - 1 && (ptr.alive <==> old(ptr.refCount) > 1)
    {
      if ptr != null {
        ptr.Release();
      }
    }
  }
}
