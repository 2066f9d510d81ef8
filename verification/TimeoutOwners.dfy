/** Who a timeout reaches: entries name descriptors, and a descriptor may have passed to another manager. */
module TimeoutOwners {
  import opened Options
  import opened Timeouts

  /** Managers are numbered in the order in which they are registered. `holder` maps descriptors to managers, `left` are
      those removed; `setters` holds by id the manager that was registered when the timeout was set, `reached` the
      manager each fired entry was handed to, and `gone` whether its setter had been removed by then. */
  datatype Tenants = Tenants(
    holder: map<nat, nat>, joined: nat, left: set<nat>, setters: seq<Option<nat>>, reached: seq<nat>, gone: seq<bool>)

  // The registry keeps an entry that it has.
  function Note(t: Tenants, a: Action): Tenants {
    match a
    case Arm(h, _) => t.(setters := t.setters + [if h in t.holder then Some(t.holder[h]) else None])
    case Join(h) => if h in t.holder then t else t.(holder := t.holder[h := t.joined], joined := t.joined + 1)
    case Leave(h) => if h !in t.holder then t else t.(holder := t.holder - {h}, left := t.left + {t.holder[h]})
  }

  function NoteAll(t: Tenants, actions: seq<Action>): Tenants
    decreases |actions|
  {
    if actions == [] then t else NoteAll(Note(t, actions[0]), actions[1..])
  }

  function Delivered(t: Tenants, e: Entry): Tenants
    requires e.handle in t.holder && e.id < |t.setters|
  {
    t.(reached := t.reached + [t.holder[e.handle]],
       gone := t.gone + [t.setters[e.id].Some? && t.setters[e.id].value in t.left])
  }

  // Along the loop over the cached set.
  function NoteFire(
    t: Tenants, w: World, cached: seq<Entry>, k: nat, clock: seq<int>, callbacks: seq<seq<Action>>): Tenants
    requires k <= |cached|
    decreases |cached| - k
  {
    if k == |cached| || cached[k].when > Now(clock, k) || cached[k].handle !in w.owners then t
    else if cached[k].handle !in t.holder || cached[k].id >= |t.setters| then t
    else
      NoteFire(NoteAll(Delivered(t, cached[k]), Reaction(callbacks, k)),
               ActAll(w.(fired := w.fired + [cached[k]]), Reaction(callbacks, k)), cached, k + 1, clock, callbacks)
  }

  function NoteStep(t: Tenants, w: World, e: Event): Tenants {
    if w.crashed then t
    else match e
      case Acted(a) => Note(t, a)
      case Polled(clock, callbacks) =>
        NoteFire(t, w.(sched := w.sched.(timeouts := [])), w.sched.timeouts, 0, clock, callbacks)
  }

  function NoteRun(t: Tenants, w: World, events: seq<Event>): Tenants
    decreases |events|
  {
    if events == [] then t else NoteRun(NoteStep(t, w, events[0]), Step(w, events[0]), events[1..])
  }

  const NOBODY := Tenants(map[], 0, {}, [], [], [])

  // -- Tenancy ----------------------------------------------------------------

  // No manager holds two descriptors, and none that was removed holds one.
  ghost predicate Registered(t: Tenants) {
    && (forall h :: h in t.holder ==> t.holder[h] < t.joined && t.holder[h] !in t.left)
    && (forall g, h :: g in t.holder && h in t.holder && g != h ==> t.holder[g] != t.holder[h])
    && (forall m :: m in t.left ==> m < t.joined)
  }

  // A manager that set a timeout still holds the descriptor it had then, or was removed.
  ghost predicate Settled(t: Tenants, issued: seq<Entry>) {
    && |t.setters| == |issued|
    && forall i :: 0 <= i < |issued| && t.setters[i].Some? ==>
         var m := t.setters[i].value;
         m < t.joined && (m in t.left || (issued[i].handle in t.holder && t.holder[issued[i].handle] == m))
  }

  // Every fired entry with a known setter reached it exactly if that had not been removed.
  ghost predicate Routed(t: Tenants, fired: seq<Entry>) {
    && |t.reached| == |fired| == |t.gone|
    && forall i :: 0 <= i < |fired| ==>
         fired[i].id < |t.setters|
         && (t.setters[fired[i].id].Some? ==> (t.reached[i] == t.setters[fired[i].id].value <==> !t.gone[i]))
  }

  ghost predicate Tenancy(t: Tenants, w: World) {
    && t.holder.Keys == w.owners
    && Registered(t)
    && Settled(t, w.issued)
    && Routed(t, w.fired)
  }

  lemma NoteKeeps(t: Tenants, w: World, a: Action)
    requires Tenancy(t, w)
    ensures Tenancy(Note(t, a), Act(w, a))
  {
    var u := Note(t, a);
    assert u.holder.Keys == Act(w, a).owners;
    match a {
      case Arm(h, when) =>
        assert forall i :: 0 <= i < |t.setters| ==> u.setters[i] == t.setters[i];
      case Join(h) =>
      case Leave(h) =>
    }
  }

  lemma {:induction false} NoteAllKeeps(t: Tenants, w: World, actions: seq<Action>)
    requires Tenancy(t, w)
    ensures Tenancy(NoteAll(t, actions), ActAll(w, actions))
    decreases |actions|
  {
    hide Tenancy;
    if actions != [] {
      NoteKeeps(t, w, actions[0]);
      NoteAllKeeps(Note(t, actions[0]), Act(w, actions[0]), actions[1..]);
    }
  }

  /** At the moment it fires, an entry reaches the manager that set it exactly if that has not been removed since. */
  lemma DeliveredRight(t: Tenants, w: World, e: Entry)
    requires Tenancy(t, w) && e.handle in w.owners && e.id < |w.issued| && w.issued[e.id] == e
    ensures e.handle in t.holder && e.id < |t.setters|
    ensures Tenancy(Delivered(t, e), w.(fired := w.fired + [e]))
  {
    assert e.handle in t.holder.Keys;
    var u := Delivered(t, e);
    assert forall i :: 0 <= i < |t.reached| ==> u.reached[i] == t.reached[i] && u.gone[i] == t.gone[i];
  }

  lemma {:induction false} NoteFireKeeps(
    t: Tenants, w: World, cached: seq<Entry>, k: nat, clock: seq<int>, callbacks: seq<seq<Action>>)
    requires k <= |cached| && PassLedger(w, cached[k..]) && !w.crashed && Tenancy(t, w)
    ensures Tenancy(NoteFire(t, w, cached, k, clock, callbacks), Fire(w, cached, k, clock, callbacks).0)
    decreases |cached| - k
  {
    if k < |cached| && cached[k].when <= Now(clock, k) && cached[k].handle in w.owners {
      FiredKeeps(w, cached[k..]);
      assert cached[k..][1..] == cached[k + 1..] && cached[k] == cached[k..][0];
      DeliveredRight(t, w, cached[k]);
      hide PassLedger, Tenancy;
      var w1 := w.(fired := w.fired + [cached[k]]);
      var t1 := Delivered(t, cached[k]);
      ActAllKeeps(w1, Reaction(callbacks, k), cached[k + 1..]);
      NoteAllKeeps(t1, w1, Reaction(callbacks, k));
      NoteFireKeeps(NoteAll(t1, Reaction(callbacks, k)), ActAll(w1, Reaction(callbacks, k)), cached, k + 1, clock,
                    callbacks);
    }
  }

  lemma NoteStepKeeps(t: Tenants, w: World, e: Event)
    requires Ledger(w) && Tenancy(t, w)
    ensures Tenancy(NoteStep(t, w, e), Step(w, e))
  {
    if !w.crashed {
      match e {
        case Acted(a) => NoteKeeps(t, w, a);
        case Polled(clock, callbacks) =>
          var start := w.(sched := w.sched.(timeouts := []));
          var pending := w.sched.timeouts;
          assert pending[0..] == pending;
          forall i | 0 <= i < |pending| ensures pending[i] !in w.fired {
            assert pending[i] in pending;
          }
          NoteFireKeeps(t, start, pending, 0, clock, callbacks);
      }
    }
  }

  /** Over every run, with descriptors reused: a timeout set by a registered manager reaches that manager exactly if it
      has not been removed by the time it fires; otherwise it reaches whoever holds the descriptor then. */
  lemma {:induction false} RoutingOverRuns(t: Tenants, w: World, events: seq<Event>)
    requires Ledger(w) && (!w.crashed ==> DeadlineKnown(w)) && Tenancy(t, w)
    ensures Tenancy(NoteRun(t, w, events), Run(w, events))
    decreases |events|
  {
    hide Tenancy, Ledger, DeadlineKnown;
    if events != [] {
      NoteStepKeeps(t, w, events[0]);
      RunKeeps(w, [events[0]]);
      assert [events[0]][1..] == [] && Run(Step(w, events[0]), []) == Step(w, events[0]);
      RoutingOverRuns(NoteStep(t, w, events[0]), Step(w, events[0]), events[1..]);
    }
  }

  /** From the start: a fired id reached the manager that set it exactly if that was still registered. */
  lemma ReachesSetter(events: seq<Event>)
    ensures Routed(NoteRun(NOBODY, INITIAL, events), Run(INITIAL, events).fired)
  {
    assert NOBODY.holder.Keys == INITIAL.owners;
    RoutingOverRuns(NOBODY, INITIAL, events);
  }

  /** A timeout reaches the wrong manager: it is set by the first manager of descriptor 7 and handed to the second. */
  lemma ReuseExample()
    ensures var events := [Acted(Join(7)), Acted(Arm(7, 100)), Acted(Leave(7)), Acted(Join(7)),
                           Polled([100, 100], [])];
            var t := NoteRun(NOBODY, INITIAL, events);
            t.setters == [Some(0)] && t.reached == [1]
  {
  }
}
