/** Conservation of timeout ids: every id handed out is pending or has fired, as long as no two entries collide. */
module TimeoutIds {
  import opened Options
  import opened Timeouts

  // Every id handed out is pending or has fired.
  predicate Whole(w: World) {
    !w.crashed && forall i :: 0 <= i < |w.issued| ==> w.issued[i] in w.sched.timeouts || w.issued[i] in w.fired
  }

  function Armed(w: World, after: World): seq<Entry>
    requires w.issued <= after.issued
  {
    after.issued[|w.issued|..]
  }

  predicate Different(s: seq<Entry>) {
    forall i, j :: 0 <= i < j < |s| ==> s[i] != s[j]
  }

  lemma DistinctInSorted(t: seq<Entry>, es: seq<Entry>)
    requires Sorted(t) && Different(es) && forall i :: 0 <= i < |es| ==> es[i] in t
    ensures DistinctTimes(es)
  {
    forall i, j | 0 <= i < j < |es| ensures es[i].when != es[j].when {
      var a :| 0 <= a < |t| && t[a] == es[i];
      var b :| 0 <= b < |t| && t[b] == es[j];
      assert a != b;
    }
  }

  predicate DistinctSince(issued: seq<Entry>, n0: nat) {
    forall i, j :: n0 <= i < j < |issued| ==>
      issued[i].when != issued[j].when
  }

  // The pending entries are exactly those handed out since id n0.
  predicate SincePending(w: World, n0: nat) {
    && n0 <= |w.issued|
    && (forall i :: n0 <= i < |w.issued| ==>
          w.issued[i] in w.sched.timeouts)
    && (forall i :: 0 <= i < |w.sched.timeouts| ==>
          n0 <= w.sched.timeouts[i].id)
  }

  lemma ActSince(w: World, a: Action, n0: nat)
    requires Ledger(w) && SincePending(w, n0) && DistinctSince(Act(w, a).issued, n0)
    ensures SincePending(Act(w, a), n0)
  {
    if a.Arm? {
      var e := Entry(a.handle, a.when, w.sched.nextId);
      var issued := Act(w, a).issued;
      InsertLaws(w.sched.timeouts, e);
      forall i | 0 <= i < |w.sched.timeouts| ensures w.sched.timeouts[i].when != a.when {
        assert issued[w.sched.timeouts[i].id] == w.sched.timeouts[i] && issued[|w.issued|] == e;
      }
      var t := Act(w, a).sched.timeouts;
      forall i | 0 <= i < |t| ensures n0 <= t[i].id {
        assert t[i] in t;
      }
    }
  }

  lemma {:induction false} ActAllSince(w: World, actions: seq<Action>, rest: seq<Entry>, n0: nat)
    requires PassLedger(w, rest) && SincePending(w, n0) && DistinctSince(ActAll(w, actions).issued, n0)
    ensures SincePending(ActAll(w, actions), n0)
    decreases |actions|
  {
    if actions != [] {
      var w1 := Act(w, actions[0]);
      ActKeeps(w, actions[0], rest);
      ActAllKeeps(w1, actions[1..], rest);
      ActSince(w, actions[0], n0);
      ActAllSince(w1, actions[1..], rest, n0);
    }
  }

  lemma {:induction false} FireSince(
    w: World, cached: seq<Entry>, k: nat, clock: seq<int>, callbacks: seq<seq<Action>>, n0: nat)
    requires k <= |cached| && PassLedger(w, cached[k..]) && SincePending(w, n0) && !w.crashed
    requires DistinctSince(Fire(w, cached, k, clock, callbacks).0.issued, n0)
    ensures SincePending(Fire(w, cached, k, clock, callbacks).0, n0)
    decreases |cached| - k
  {
    if k < |cached| && cached[k].when <= Now(clock, k) && cached[k].handle in w.owners {
      assert cached[k..][1..] == cached[k + 1..];
      assert cached[k] == cached[k..][0];
      FiredKeeps(w, cached[k..]);
      var w1 := w.(fired := w.fired + [cached[k]]);
      var w2 := ActAll(w1, Reaction(callbacks, k));
      ActAllKeeps(w1, Reaction(callbacks, k), cached[k + 1..]);
      FireKeeps(w2, cached, k + 1, clock, callbacks);
      ActAllSince(w1, Reaction(callbacks, k), cached[k + 1..], n0);
      FireSince(w2, cached, k + 1, clock, callbacks, n0);
    }
  }

  /** Setting a timeout keeps the ledger whole exactly when no pending timeout has the same time. */
  lemma ArmExactness(w: World, handle: nat, when: int)
    requires Ledger(w) && Whole(w)
    ensures Whole(Act(w, Arm(handle, when))) <==> !Occupied(w.sched.timeouts, when)
  {
    var e := Entry(handle, when, w.sched.nextId);
    var after := Act(w, Arm(handle, when));
    InsertLaws(w.sched.timeouts, e);
    assert after.issued[|w.issued|] == e;
    forall i | 0 <= i < |w.sched.timeouts| ensures w.sched.timeouts[i] != e {
      assert w.sched.timeouts[i].id < |w.issued|;
    }
    forall i | 0 <= i < |w.fired| ensures w.fired[i] != e {
      assert w.fired[i].id < |w.issued|;
    }
  }

  // What competes for places in the set during a pass: entries that did not expire, then entries set by callbacks.
  function Contenders(w: World, clock: seq<int>, callbacks: seq<seq<Action>>): seq<Entry>
    requires w.issued <= Pass(w, clock, callbacks).issued
  {
    w.sched.timeouts[Expired(w, clock, callbacks)..] + Armed(w, Pass(w, clock, callbacks))
  }

  /** A completed pass loses no id exactly when the unexpired entries and those set by its callbacks
      have pairwise distinct times. */
  lemma PassExactness(w: World, clock: seq<int>, callbacks: seq<seq<Action>>)
    requires Ledger(w) && Whole(w) && !Pass(w, clock, callbacks).crashed
    ensures w.issued <= Pass(w, clock, callbacks).issued
    ensures Whole(Pass(w, clock, callbacks)) <==> DistinctTimes(Contenders(w, clock, callbacks))
  {
    PassFires(w, clock, callbacks);
    if Whole(Pass(w, clock, callbacks)) {
      PassWholeOnlyIf(w, clock, callbacks);
    } else if DistinctTimes(Contenders(w, clock, callbacks)) {
      PassWholeIf(w, clock, callbacks);
    }
  }

  /** If all requested times of a run are distinct and no owner goes missing, the ids handed out
      are exactly the disjoint union of the pending and the fired ones. */
  lemma {:induction false} IdConservation(w: World, events: seq<Event>)
    requires Ledger(w) && Whole(w) && DeadlineKnown(w)
    requires !Run(w, events).crashed && DistinctSince(Run(w, events).issued, 0)
    ensures Whole(Run(w, events)) && Ledger(Run(w, events))
    decreases |events|
  {
    if events != [] {
      hide Ledger, Whole, DeadlineKnown, Step;
      var w1 := Step(w, events[0]);
      if w1.crashed {
        CrashEnds(w1, events[1..]);
      }
      IssuedGrows(w, events[0], events[1..]);
      StepWhole(w, events[0]);
      IdConservation(w1, events[1..]);
    }
  }

  // A timeout is set for an occupied time, or a pass stops at a missing owner or has entries collide.
  predicate Collides(w: World, e: Event) {
    match e
    case Acted(Arm(_, when)) => Occupied(w.sched.timeouts, when)
    case Acted(_) => false
    case Polled(clock, callbacks) =>
      var after := Pass(w, clock, callbacks);
      after.crashed || !(w.issued <= after.issued && DistinctTimes(Contenders(w, clock, callbacks)))
  }

  predicate NeverCollides(w: World, events: seq<Event>)
    decreases |events|
  {
    events != [] ==> !Collides(w, events[0]) && NeverCollides(Step(w, events[0]), events[1..])
  }

  predicate AlwaysWhole(w: World, events: seq<Event>)
    decreases |events|
  {
    Whole(w) && (events != [] ==> AlwaysWhole(Step(w, events[0]), events[1..]))
  }

  lemma StepExactness(w: World, e: Event)
    requires Ledger(w) && Whole(w) && DeadlineKnown(w)
    ensures Whole(Step(w, e)) <==> !Collides(w, e)
    ensures Whole(Step(w, e)) ==> Ledger(Step(w, e)) && DeadlineKnown(Step(w, e))
  {
    match e {
      case Acted(a) =>
        ActDeadline(w, a);
        if a.Arm? {
          ArmExactness(w, a.handle, a.when);
        }
      case Polled(clock, callbacks) =>
        PassFires(w, clock, callbacks);
        if !Pass(w, clock, callbacks).crashed {
          PassExactness(w, clock, callbacks);
        }
    }
  }

  /** At every point of a run every id handed out is pending or has fired, if and only if no timeout is set for a time
      that is taken and every pass completes without two entries for one time. Times may repeat otherwise. */
  lemma {:induction false} WholeOverRuns(w: World, events: seq<Event>)
    requires Ledger(w) && Whole(w) && DeadlineKnown(w)
    ensures AlwaysWhole(w, events) <==> NeverCollides(w, events)
    decreases |events|
  {
    hide Ledger, Whole, DeadlineKnown, Step, Collides;
    if events != [] {
      StepExactness(w, events[0]);
      var w1 := Step(w, events[0]);
      if Whole(w1) {
        WholeOverRuns(w1, events[1..]);
      } else {
        assert !AlwaysWhole(w1, events[1..]);
      }
    }
  }

  /** Two timeouts for the same moment: the second id is handed out and never fires. */
  lemma EqualTimesExample()
    ensures var w := Run(INITIAL, [Acted(Join(7)), Acted(Arm(7, 100)), Acted(Arm(7, 100)), Polled([100, 100], [])]);
            && |w.issued| == 2
            && w.fired == [Entry(7, 100, 0)]
            && w.sched.timeouts == []
  {
    var w1 := Act(Act(INITIAL, Join(7)), Arm(7, 100));
    var w2 := Act(w1, Arm(7, 100));
    assert w2.sched.timeouts == [Entry(7, 100, 0)];
    var start := w2.(sched := w2.sched.(timeouts := []));
    var fired := start.(fired := [Entry(7, 100, 0)]);
    assert Fire(fired, w2.sched.timeouts, 1, [100, 100], []) == (fired, 1);
    assert start.fired + [Entry(7, 100, 0)] == [Entry(7, 100, 0)];
    assert ActAll(fired, Reaction([], 0)) == fired;
    assert Fire(start, w2.sched.timeouts, 0, [100, 100], []) == (fired, 1);
    var w3 := Pass(w2, [100, 100], []);
    assert w3.fired == [Entry(7, 100, 0)] && w3.sched.timeouts == [];
    var tail := [Polled([100, 100], [])];
    assert tail[1..] == [] && Run(w3, []) == w3;
    assert Run(w2, tail) == w3;
    assert ([Acted(Arm(7, 100))] + tail)[1..] == tail;
    assert ([Acted(Arm(7, 100)), Acted(Arm(7, 100))] + tail)[1..] == [Acted(Arm(7, 100))] + tail;
    assert ([Acted(Join(7)), Acted(Arm(7, 100)), Acted(Arm(7, 100))] + tail)[1..]
        == [Acted(Arm(7, 100)), Acted(Arm(7, 100))] + tail;
    assert [Acted(Join(7)), Acted(Arm(7, 100)), Acted(Arm(7, 100)), Polled([100, 100], [])]
        == [Acted(Join(7)), Acted(Arm(7, 100)), Acted(Arm(7, 100))] + tail;
  }

  // -- Proof of the conservation of ids ---------------------------------------

  lemma PassWholeOnlyIf(w: World, clock: seq<int>, callbacks: seq<seq<Action>>)
    requires Ledger(w) && Whole(w) && w.issued <= Pass(w, clock, callbacks).issued
    requires Whole(Pass(w, clock, callbacks))
    ensures DistinctTimes(Contenders(w, clock, callbacks))
  {
    hide Pass, Loop, PassLedger;
    var after := Pass(w, clock, callbacks);
    var es := Contenders(w, clock, callbacks);
    LoopLeaves(w, clock, callbacks);
    forall i | 0 <= i < |es| ensures es[i] in after.sched.timeouts {
      ContenderUnfired(w, clock, callbacks, i);
    }
    PassFires(w, clock, callbacks);
    ContendersDiffer(w, clock, callbacks);
    DistinctInSorted(after.sched.timeouts, es);
  }

  lemma ContenderUnfired(w: World, clock: seq<int>, callbacks: seq<seq<Action>>, i: nat)
    requires Ledger(w) && !w.crashed && w.issued <= Pass(w, clock, callbacks).issued
    requires !Pass(w, clock, callbacks).crashed && i < |Contenders(w, clock, callbacks)|
    ensures var e := Contenders(w, clock, callbacks)[i];
            && e !in Pass(w, clock, callbacks).fired
            && e in Pass(w, clock, callbacks).issued
  {
    hide Pass, Loop;
    var after := Pass(w, clock, callbacks);
    var k := Expired(w, clock, callbacks);
    var pending := w.sched.timeouts;
    var e := Contenders(w, clock, callbacks)[i];
    LoopLeaves(w, clock, callbacks);
    if i < |pending| - k {
      assert e == pending[k + i] && e in pending;
      assert e == after.issued[e.id];
      assert forall j :: 0 <= j < k ==> pending[j].when != e.when;
    } else {
      var id := |w.issued| + i - (|pending| - k);
      assert e == after.issued[id] && e.id == id;
      forall j | 0 <= j < |after.fired| ensures after.fired[j].id < |w.issued| {
        assert j < |w.fired| || after.fired[j] == pending[j - |w.fired|];
      }
    }
  }

  lemma ContendersDiffer(w: World, clock: seq<int>, callbacks: seq<seq<Action>>)
    requires Ledger(w) && !w.crashed && w.issued <= Pass(w, clock, callbacks).issued
    requires Ledger(Pass(w, clock, callbacks))
    ensures Different(Contenders(w, clock, callbacks))
  {
    var after := Pass(w, clock, callbacks);
    var k := Expired(w, clock, callbacks);
    var es := Contenders(w, clock, callbacks);
    var rest := w.sched.timeouts[k..];
    assert forall i :: |rest| <= i < |es| ==> es[i] == after.issued[|w.issued| + i - |rest|];
    assert forall i :: |rest| <= i < |es| ==> es[i].id == |w.issued| + i - |rest|;
    assert forall i :: 0 <= i < |rest| ==> es[i] == w.sched.timeouts[k + i];
  }

  // What the loop leaves behind, before the merge.
  lemma LoopLeaves(w: World, clock: seq<int>, callbacks: seq<seq<Action>>)
    requires Ledger(w) && !Pass(w, clock, callbacks).crashed && !w.crashed
    ensures var (f, k) := Loop(w, clock, callbacks);
            var after := Pass(w, clock, callbacks);
            var rest := w.sched.timeouts[k..];
            && PassLedger(f, rest)
            && w.issued <= f.issued
            && after.issued == f.issued
            && after.fired == f.fired == w.fired + w.sched.timeouts[..k]
            && forall x :: x in after.sched.timeouts
                      <==> x in f.sched.timeouts || (x in rest && !Occupied(f.sched.timeouts, x.when))
  {
    var pending := w.sched.timeouts;
    var (f, k) := Loop(w, clock, callbacks);
    assert pending[0..] == pending;
    forall i | 0 <= i < |pending| ensures pending[i] !in w.fired {
      assert pending[i] in pending;
    }
    FireKeeps(w.(sched := w.sched.(timeouts := [])), pending, 0, clock, callbacks);
    FireTimes(w.(sched := w.sched.(timeouts := [])), pending, 0, clock, callbacks);
    InsertAllLaws(f.sched.timeouts, pending[k..]);
  }

  lemma LoopSince(w: World, clock: seq<int>, callbacks: seq<seq<Action>>)
    requires Ledger(w) && !w.crashed && !Pass(w, clock, callbacks).crashed
    requires DistinctSince(Loop(w, clock, callbacks).0.issued, |w.issued|)
    ensures SincePending(Loop(w, clock, callbacks).0, |w.issued|)
  {
    var pending := w.sched.timeouts;
    assert pending[0..] == pending;
    forall i | 0 <= i < |pending| ensures pending[i] !in w.fired {
      assert pending[i] in pending;
    }
    FireSince(w.(sched := w.sched.(timeouts := [])), pending, 0, clock, callbacks, |w.issued|);
  }

  lemma PassWholeIf(w: World, clock: seq<int>, callbacks: seq<seq<Action>>)
    requires Ledger(w) && Whole(w) && w.issued <= Pass(w, clock, callbacks).issued
    requires !Pass(w, clock, callbacks).crashed && DistinctTimes(Contenders(w, clock, callbacks))
    ensures Whole(Pass(w, clock, callbacks))
  {
    hide Pass, Loop, PassLedger, Ledger;
    var after := Pass(w, clock, callbacks);
    var pending := w.sched.timeouts;
    var (f, k) := Loop(w, clock, callbacks);
    var n0 := |w.issued|;
    LoopLeaves(w, clock, callbacks);
    ContenderTimes(w, clock, callbacks);
    LoopSince(w, clock, callbacks);
    forall i | 0 <= i < |after.issued|
      ensures after.issued[i] in after.sched.timeouts || after.issued[i] in after.fired
    {
      if i < n0 {
        assert after.issued[i] == w.issued[i];
        assert pending == pending[..k] + pending[k..];
        if w.issued[i] in pending[k..] {
          RestUnoccupied(w, clock, callbacks, w.issued[i]);
        }
      }
    }
  }

  lemma ContenderTimes(w: World, clock: seq<int>, callbacks: seq<seq<Action>>)
    requires Ledger(w) && !w.crashed && !Pass(w, clock, callbacks).crashed
    requires w.issued <= Pass(w, clock, callbacks).issued && DistinctTimes(Contenders(w, clock, callbacks))
    ensures DistinctSince(Loop(w, clock, callbacks).0.issued, |w.issued|)
  {
    LoopLeaves(w, clock, callbacks);
    var f := Loop(w, clock, callbacks).0;
    var es := Contenders(w, clock, callbacks);
    var n := |es| - |f.issued|;
    forall i, j | |w.issued| <= i < j < |f.issued| ensures f.issued[i].when != f.issued[j].when {
      assert es[n + i] == f.issued[i] && es[n + j] == f.issued[j];
    }
  }

  lemma RestUnoccupied(w: World, clock: seq<int>, callbacks: seq<seq<Action>>, x: Entry)
    requires Ledger(w) && !w.crashed && !Pass(w, clock, callbacks).crashed
    requires w.issued <= Pass(w, clock, callbacks).issued && DistinctTimes(Contenders(w, clock, callbacks))
    requires SincePending(Loop(w, clock, callbacks).0, |w.issued|)
    requires x in w.sched.timeouts[Expired(w, clock, callbacks)..]
    ensures !Occupied(Loop(w, clock, callbacks).0.sched.timeouts, x.when)
  {
    LoopLeaves(w, clock, callbacks);
    var (f, k) := Loop(w, clock, callbacks);
    var es := Contenders(w, clock, callbacks);
    var rest := w.sched.timeouts[k..];
    var i :| 0 <= i < |rest| && rest[i] == x;
    assert es[i] == x;
    forall j | 0 <= j < |f.sched.timeouts| ensures f.sched.timeouts[j].when != x.when {
      assert es[|rest| + f.sched.timeouts[j].id - |w.issued|] == f.sched.timeouts[j];
    }
  }

  lemma StepWhole(w: World, e: Event)
    requires Ledger(w) && Whole(w) && DeadlineKnown(w)
    requires !Step(w, e).crashed && DistinctSince(Step(w, e).issued, 0)
    ensures Ledger(Step(w, e))
    ensures Whole(Step(w, e))
    ensures DeadlineKnown(Step(w, e))
  {
    match e {
      case Acted(a) =>
        ActDeadline(w, a);
        if a.Arm? {
          forall i | 0 <= i < |w.sched.timeouts| ensures w.sched.timeouts[i].when != a.when {
            var issued := Step(w, e).issued;
            assert issued[w.sched.timeouts[i].id] == w.sched.timeouts[i] && issued[|w.issued|].when == a.when;
          }
          ArmExactness(w, a.handle, a.when);
        }
      case Polled(clock, callbacks) =>
        PassFires(w, clock, callbacks);
        ContendersGenuine(w, clock, callbacks);
        PassWholeIf(w, clock, callbacks);
    }
  }

  lemma ContendersGenuine(w: World, clock: seq<int>, callbacks: seq<seq<Action>>)
    requires Ledger(w) && !w.crashed && w.issued <= Pass(w, clock, callbacks).issued
    requires Ledger(Pass(w, clock, callbacks)) && DistinctSince(Pass(w, clock, callbacks).issued, 0)
    ensures DistinctTimes(Contenders(w, clock, callbacks))
  {
    hide Pass;
    var after := Pass(w, clock, callbacks);
    var es := Contenders(w, clock, callbacks);
    var k := Expired(w, clock, callbacks);
    var n := |w.sched.timeouts| - k;
    ContendersDiffer(w, clock, callbacks);
    forall i | 0 <= i < |es| ensures es[i].id < |after.issued| && after.issued[es[i].id] == es[i] {
      assert if i < n then es[i] == w.sched.timeouts[k + i] else es[i] == after.issued[|w.issued| + i - n];
    }
    forall i, j | 0 <= i < j < |es| ensures es[i].when != es[j].when {
      assert after.issued[es[i].id] == es[i] && after.issued[es[j].id] == es[j];
    }
  }

  lemma IssuedGrows(w: World, e: Event, events: seq<Event>)
    requires Ledger(w) && DeadlineKnown(w) && DistinctSince(Run(Step(w, e), events).issued, 0)
    ensures DistinctSince(Step(w, e).issued, 0)
  {
    RunKeeps(w, [e]);
    assert [e][1..] == [] && Run(Step(w, e), []) == Step(w, e);
    RunKeeps(Step(w, e), events);
    var all := Run(Step(w, e), events).issued;
    forall i, j | 0 <= i < j < |Step(w, e).issued| ensures Step(w, e).issued[i].when != Step(w, e).issued[j].when {
      assert all[i] == Step(w, e).issued[i] && all[j] == Step(w, e).issued[j];
    }
  }
}
