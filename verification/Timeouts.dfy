/** The timeout scheduler of the multiplexer: a set of entries ordered by time alone, a pass over the expired
    ones whose callbacks may set new timeouts, and the earliest deadline that is cached for the next poll. */
module Timeouts {
  import opened Options

  datatype Entry = Entry(handle: nat, when: int, id: nat)

  // -- std::set<timeout_entry>: operator< compares `when` only ----------------

  predicate Sorted(s: seq<Entry>) {
    forall i, j :: 0 <= i < j < |s| ==> s[i].when < s[j].when
  }

  predicate DistinctTimes(s: seq<Entry>) {
    forall i, j :: 0 <= i < j < |s| ==> s[i].when != s[j].when
  }

  // Inserting an entry that is equivalent to a present one changes nothing.
  function Insert(s: seq<Entry>, e: Entry): seq<Entry> {
    if s == [] then [e]
    else if e.when < s[0].when then [e] + s
    else if e.when == s[0].when then s
    else [s[0]] + Insert(s[1..], e)
  }

  function InsertAll(s: seq<Entry>, es: seq<Entry>): seq<Entry>
    decreases |es|
  {
    if es == [] then s else InsertAll(Insert(s, es[0]), es[1..])
  }

  predicate Occupied(s: seq<Entry>, when: int) {
    exists i :: 0 <= i < |s| && s[i].when == when
  }

  lemma {:induction false} InsertLaws(s: seq<Entry>, e: Entry)
    requires Sorted(s)
    ensures Sorted(Insert(s, e))
    ensures forall x :: x in Insert(s, e) <==> x in s || (x == e && !Occupied(s, e.when))
    ensures s != [] && s[0].when < e.when ==> Insert(s, e)[0] == s[0]
    ensures Insert(s, e) != []
  {
    if s != [] && s[0].when < e.when {
      InsertLaws(s[1..], e);
      var r := Insert(s[1..], e);
      forall j | 0 <= j < |r| ensures s[0].when < r[j].when {
        assert r[j] in r;
      }
      assert Occupied(s[1..], e.when) <==> Occupied(s, e.when) by {
        if Occupied(s[1..], e.when) {
          var i :| 0 <= i < |s[1..]| && s[1..][i].when == e.when;
          assert s[i + 1].when == e.when;
        }
        if Occupied(s, e.when) {
          var i :| 0 <= i < |s| && s[i].when == e.when;
          assert s[1..][i - 1].when == e.when;
        }
      }
    } else if s != [] && s[0].when > e.when {
      assert !Occupied(s, e.when);
    }
  }

  // -- The scheduler ----------------------------------------------------------

  datatype Sched = Sched(timeouts: seq<Entry>, current: Option<int>, nextId: nat)

  // set_timeout()
  function SetTimeout(s: Sched, handle: nat, when: int): Sched {
    Sched(Insert(s.timeouts, Entry(handle, when, s.nextId)),
          Some(if s.current.Some? && s.current.value < when then s.current.value else when),
          s.nextId + 1)
  }

  // What managers do: set a timeout, be registered, be removed from the registry.
  datatype Action = Arm(handle: nat, when: int) | Join(handle: nat) | Leave(handle: nat)

  // `issued` records the entry requested for every id handed out, `fired` the entries handed to their managers.
  datatype World = World(sched: Sched, owners: set<nat>, issued: seq<Entry>, fired: seq<Entry>, crashed: bool)

  function Act(w: World, a: Action): World {
    match a
    case Arm(handle, when) =>
      w.(sched := SetTimeout(w.sched, handle, when),
         issued := w.issued + [Entry(handle, when, w.sched.nextId)])
    case Join(handle) => w.(owners := w.owners + {handle})
    case Leave(handle) => w.(owners := w.owners - {handle})
  }

  function ActAll(w: World, actions: seq<Action>): World
    decreases |actions|
  {
    if actions == [] then w else ActAll(Act(w, actions[0]), actions[1..])
  }

  // Reading number k of the clock within a pass.
  function Now(clock: seq<int>, k: nat): int {
    if k < |clock| then clock[k] else if clock == [] then 0 else clock[|clock| - 1]
  }

  predicate Monotone(clock: seq<int>) {
    forall i, j :: 0 <= i < j < |clock| ==> clock[i] <= clock[j]
  }

  // What the callback of the k-th fired entry does.
  function Reaction(callbacks: seq<seq<Action>>, k: nat): seq<Action> {
    if k < |callbacks| then callbacks[k] else []
  }

  // The loop over the cached set, at entry k. A missing owner makes the registry lookup throw.
  function Fire(w: World, cached: seq<Entry>, k: nat, clock: seq<int>, callbacks: seq<seq<Action>>): (r: (World, nat))
    requires k <= |cached|
    ensures k <= r.1 <= |cached|
    decreases |cached| - k
  {
    if k == |cached| || cached[k].when > Now(clock, k) then (w, k)
    else if cached[k].handle !in w.owners then (w.(crashed := true), k)
    else Fire(ActAll(w.(fired := w.fired + [cached[k]]), Reaction(callbacks, k)), cached, k + 1, clock, callbacks)
  }

  function Earliest(timeouts: seq<Entry>): Option<int> {
    if timeouts == [] then None else Some(timeouts[0].when)
  }

  // The pass up to the end of its loop: the sets are swapped, then the expired entries fire.
  function Loop(w: World, clock: seq<int>, callbacks: seq<seq<Action>>): (r: (World, nat))
    ensures r.1 <= |w.sched.timeouts|
  {
    Fire(w.(sched := w.sched.(timeouts := [])), w.sched.timeouts, 0, clock, callbacks)
  }

  // handle_timeouts()
  function Pass(w: World, clock: seq<int>, callbacks: seq<seq<Action>>): World {
    var cached := w.sched.timeouts;
    var (f, k) := Loop(w, clock, callbacks);
    if f.crashed then f
    else
      var merged := InsertAll(f.sched.timeouts, cached[k..]);
      f.(sched := f.sched.(timeouts := merged, current := Earliest(merged)))
  }

  datatype Event = Acted(action: Action) | Polled(clock: seq<int>, callbacks: seq<seq<Action>>)

  function Step(w: World, e: Event): World {
    if w.crashed then w
    else match e
      case Acted(a) => Act(w, a)
      case Polled(clock, callbacks) => Pass(w, clock, callbacks)
  }

  function Run(w: World, events: seq<Event>): World
    decreases |events|
  {
    if events == [] then w else Run(Step(w, events[0]), events[1..])
  }

  const INITIAL := World(Sched([], None, 0), {}, [], [], false)

  // -- Safety over all runs ---------------------------------------------------

  // Every entry stems from the request with its id.
  predicate Genuine(w: World, entries: seq<Entry>) {
    forall i :: 0 <= i < |entries| ==>
      entries[i].id < |w.issued| && w.issued[entries[i].id] == entries[i]
  }

  predicate Ledger(w: World) {
    && w.sched.nextId == |w.issued|
    && (forall i :: 0 <= i < |w.issued| ==>
          w.issued[i].id == i)
    && Genuine(w, w.sched.timeouts)
    && Genuine(w, w.fired)
    && Sorted(w.sched.timeouts)
    && (forall i, j :: 0 <= i < j < |w.fired| ==>
          w.fired[i].id != w.fired[j].id)
    && (forall i :: 0 <= i < |w.fired| ==>
          w.fired[i] !in w.sched.timeouts)
  }

  // The cached deadline the next poll relies on.
  predicate DeadlineKnown(w: World) {
    w.sched.current == Earliest(w.sched.timeouts)
  }

  // The same while a pass runs: `rest` are cached entries that have not been looked at.
  predicate PassLedger(w: World, rest: seq<Entry>) {
    && Ledger(w)
    && Genuine(w, rest)
    && Sorted(rest)
    && (forall i :: 0 <= i < |rest| ==>
          rest[i] !in w.sched.timeouts && rest[i] !in w.fired)
  }

  lemma ActKeeps(w: World, a: Action, rest: seq<Entry>)
    requires PassLedger(w, rest)
    ensures PassLedger(Act(w, a), rest)
  {
    match a {
      case Arm(handle, when) =>
        var e := Entry(handle, when, w.sched.nextId);
        InsertLaws(w.sched.timeouts, e);
        var after := Act(w, a);
        forall i | 0 <= i < |after.sched.timeouts|
          ensures after.sched.timeouts[i].id < |after.issued|
          ensures after.issued[after.sched.timeouts[i].id] == after.sched.timeouts[i]
        {
          assert after.sched.timeouts[i] in after.sched.timeouts;
        }
      case Join(_) =>
      case Leave(_) =>
    }
  }

  lemma {:induction false} ActAllKeeps(w: World, actions: seq<Action>, rest: seq<Entry>)
    requires PassLedger(w, rest)
    ensures PassLedger(ActAll(w, actions), rest)
    ensures var after := ActAll(w, actions);
            && after.fired == w.fired
            && w.issued <= after.issued
            && after.crashed == w.crashed
    decreases |actions|
  {
    if actions != [] {
      ActKeeps(w, actions[0], rest);
      ActAllKeeps(Act(w, actions[0]), actions[1..], rest);
    }
  }

  lemma {:induction false} ActAllFrame(w: World, actions: seq<Action>)
    ensures ActAll(w, actions).fired == w.fired
    ensures ActAll(w, actions).crashed == w.crashed
    decreases |actions|
  {
    if actions != [] {
      ActAllFrame(Act(w, actions[0]), actions[1..]);
    }
  }

  lemma {:induction false} FireTimes(w: World, cached: seq<Entry>, k: nat, clock: seq<int>, callbacks: seq<seq<Action>>)
    requires k <= |cached| && !w.crashed
    ensures var r := Fire(w, cached, k, clock, callbacks);
            && r.0.fired == w.fired + cached[k..r.1]
            && (forall i :: k <= i < r.1 ==> cached[i].when <= Now(clock, i))
            && (!r.0.crashed && r.1 < |cached| ==> cached[r.1].when > Now(clock, r.1))
            && (r.0.crashed ==>
                  r.1 < |cached| && cached[r.1].when <= Now(clock, r.1) && cached[r.1].handle !in r.0.owners)
    decreases |cached| - k
  {
    if k < |cached| && cached[k].when <= Now(clock, k) && cached[k].handle in w.owners {
      var w1 := w.(fired := w.fired + [cached[k]]);
      var w2 := ActAll(w1, Reaction(callbacks, k));
      ActAllFrame(w1, Reaction(callbacks, k));
      FireTimes(w2, cached, k + 1, clock, callbacks);
      var k' := Fire(w2, cached, k + 1, clock, callbacks).1;
      assert w.fired + [cached[k]] + cached[k + 1..k'] == w.fired + cached[k..k'];
    } else {
      assert w.fired + cached[k..k] == w.fired;
    }
  }

  lemma {:induction false} FireKeeps(w: World, cached: seq<Entry>, k: nat, clock: seq<int>, callbacks: seq<seq<Action>>)
    requires k <= |cached| && PassLedger(w, cached[k..]) && !w.crashed
    ensures var r := Fire(w, cached, k, clock, callbacks);
            && PassLedger(r.0, cached[r.1..])
            && w.issued <= r.0.issued
    decreases |cached| - k
  {
    if k < |cached| && cached[k].when <= Now(clock, k) && cached[k].handle in w.owners {
      FiredKeeps(w, cached[k..]);
      assert cached[k..][1..] == cached[k + 1..] && cached[k] == cached[k..][0];
      hide PassLedger;
      var w1 := w.(fired := w.fired + [cached[k]]);
      ActAllKeeps(w1, Reaction(callbacks, k), cached[k + 1..]);
      FireKeeps(ActAll(w1, Reaction(callbacks, k)), cached, k + 1, clock, callbacks);
    } else {
      LedgerDespiteCrash(w, cached[k..]);
    }
  }

  lemma LedgerDespiteCrash(w: World, rest: seq<Entry>)
    ensures PassLedger(w, rest) ==> PassLedger(w.(crashed := true), rest)
  {
  }

  lemma FiredKeeps(w: World, rest: seq<Entry>)
    requires PassLedger(w, rest) && rest != []
    ensures PassLedger(w.(fired := w.fired + [rest[0]]), rest[1..])
  {
    var w1 := w.(fired := w.fired + [rest[0]]);
    forall i | 0 <= i < |w.fired| ensures w.fired[i].id != rest[0].id {
      assert w.fired[i] in w.fired;
    }
  }

  lemma InsertOccupied(s: seq<Entry>, e: Entry, when: int)
    requires Sorted(s)
    ensures Occupied(Insert(s, e), when) <==> Occupied(s, when) || when == e.when
  {
    var r := Insert(s, e);
    InsertLaws(s, e);
    if Occupied(r, when) {
      var i :| 0 <= i < |r| && r[i].when == when;
      assert r[i] in r;
    }
    if Occupied(s, when) {
      var i :| 0 <= i < |s| && s[i].when == when;
      assert s[i] in r;
    }
    if when == e.when && !Occupied(s, when) {
      assert e in r;
    }
  }

  lemma {:induction false} InsertAllLaws(s: seq<Entry>, es: seq<Entry>)
    requires Sorted(s) && Sorted(es)
    ensures Sorted(InsertAll(s, es))
    ensures forall x :: x in InsertAll(s, es) <==> x in s || (x in es && !Occupied(s, x.when))
    decreases |es|
  {
    if es != [] {
      hide Occupied, Insert;
      var s1 := Insert(s, es[0]);
      InsertLaws(s, es[0]);
      InsertAllLaws(s1, es[1..]);
      forall x | x in es[1..] ensures Occupied(s1, x.when) <==> Occupied(s, x.when) {
        var j :| 0 <= j < |es[1..]| && es[1..][j] == x;
        assert es[0].when < es[j + 1].when;
        InsertOccupied(s, es[0], x.when);
      }
      assert forall x :: x in es <==> x == es[0] || x in es[1..];
    }
  }

  // How many entries a pass fires.
  function Expired(w: World, clock: seq<int>, callbacks: seq<seq<Action>>): (k: nat)
    ensures k <= |w.sched.timeouts|
  {
    Loop(w, clock, callbacks).1
  }

  lemma ActDeadline(w: World, a: Action)
    requires Ledger(w) && DeadlineKnown(w)
    ensures Ledger(Act(w, a)) && DeadlineKnown(Act(w, a))
  {
    ActKeeps(w, a, []);
    if a.Arm? {
      InsertLaws(w.sched.timeouts, Entry(a.handle, a.when, w.sched.nextId));
    }
  }

  /** One pass: it fires a prefix of the pending entries, so in time order; none before its time; every one whose
      time had come when the pass began; and it stops early only at an entry whose owner is gone. */
  lemma PassFires(w: World, clock: seq<int>, callbacks: seq<seq<Action>>)
    requires Ledger(w) && !w.crashed
    ensures var after := Pass(w, clock, callbacks);
            var k := Expired(w, clock, callbacks);
            var pending := w.sched.timeouts;
            && Ledger(after)
            && (!after.crashed ==> DeadlineKnown(after))
            && after.fired == w.fired + pending[..k]
            && w.issued <= after.issued
            && (forall i :: 0 <= i < k ==> pending[i].when <= Now(clock, i))
            && (after.crashed ==> k < |pending| && pending[k].handle !in after.owners)
            && (!after.crashed && Monotone(clock) ==>
                forall i :: 0 <= i < |pending| && pending[i].when <= Now(clock, 0) ==> i < k)
  {
    var pending := w.sched.timeouts;
    var k := Expired(w, clock, callbacks);
    PassKeeps(w, clock, callbacks);
    hide PassLedger;
    FireTimes(w.(sched := w.sched.(timeouts := [])), pending, 0, clock, callbacks);
    assert pending[0..k] == pending[..k];
    assert Monotone(clock) && k < |pending| ==> Now(clock, 0) <= Now(clock, k);
  }

  lemma PassKeeps(w: World, clock: seq<int>, callbacks: seq<seq<Action>>)
    requires Ledger(w) && !w.crashed
    ensures var after := Pass(w, clock, callbacks);
            && Ledger(after)
            && (!after.crashed ==> DeadlineKnown(after))
            && w.issued <= after.issued
  {
    var pending := w.sched.timeouts;
    var start := w.(sched := w.sched.(timeouts := []));
    var (f, k) := Loop(w, clock, callbacks);
    assert pending[0..] == pending;
    forall i | 0 <= i < |pending| ensures pending[i] !in w.fired {
      assert pending[i] in pending;
    }
    FireKeeps(start, pending, 0, clock, callbacks);
    if !f.crashed {
      MergeKeeps(f, pending[k..]);
    }
  }

  lemma MergeKeeps(f: World, rest: seq<Entry>)
    requires PassLedger(f, rest)
    ensures Ledger(f.(sched := f.sched.(timeouts := InsertAll(f.sched.timeouts, rest),
                                        current := Earliest(InsertAll(f.sched.timeouts, rest)))))
  {
    InsertAllLaws(f.sched.timeouts, rest);
    var merged := InsertAll(f.sched.timeouts, rest);
    forall i | 0 <= i < |merged| ensures merged[i].id < |f.issued| && f.issued[merged[i].id] == merged[i] {
      assert merged[i] in merged;
    }
  }

  /** In every reachable state each fired id was handed out, no id fired twice, no fired entry is pending,
      and the cached deadline is the earliest pending time, absent exactly when nothing is pending. */
  lemma {:induction false} RunKeeps(w: World, events: seq<Event>)
    requires Ledger(w) && (!w.crashed ==> DeadlineKnown(w))
    ensures var after := Run(w, events);
            && Ledger(after)
            && (!after.crashed ==> DeadlineKnown(after))
            && w.issued <= after.issued
            && w.fired <= after.fired
    decreases |events|
  {
    if events != [] {
      if !w.crashed {
        match events[0] {
          case Acted(a) => ActDeadline(w, a);
          case Polled(clock, callbacks) => PassFires(w, clock, callbacks);
        }
      }
      RunKeeps(Step(w, events[0]), events[1..]);
    }
  }

  lemma DeadlineIsMinimum(w: World)
    requires Ledger(w) && DeadlineKnown(w)
    ensures w.sched.current == None <==> w.sched.timeouts == []
    ensures w.sched.current.Some? ==>
              (exists e :: e in w.sched.timeouts && e.when == w.sched.current.value)
              && forall e :: e in w.sched.timeouts ==> w.sched.current.value <= e.when
  {
    if w.sched.timeouts != [] {
      assert w.sched.timeouts[0] in w.sched.timeouts;
    }
  }

  // -- Which timeouts are set -------------------------------------------------

  // The timeouts that are set among some actions, under the ids from n on.
  function Requests(actions: seq<Action>, n: nat): seq<Entry>
    decreases |actions|
  {
    if actions == [] then []
    else
      match actions[0]
      case Arm(handle, when) => [Entry(handle, when, n)] + Requests(actions[1..], n + 1)
      case _ => Requests(actions[1..], n)
  }

  // What the callbacks numbered from i to k do, one after the other.
  function Reactions(callbacks: seq<seq<Action>>, i: nat, k: nat): seq<Action>
    requires i <= k
    decreases k - i
  {
    if i == k then [] else Reaction(callbacks, i) + Reactions(callbacks, i + 1, k)
  }

  lemma {:induction false} RequestsAppend(a: seq<Action>, b: seq<Action>, n: nat)
    ensures Requests(a + b, n) == Requests(a, n) + Requests(b, n + |Requests(a, n)|)
    decreases |a|
  {
    if a == [] {
      assert a + b == b;
    } else {
      assert (a + b)[1..] == a[1..] + b;
      RequestsAppend(a[1..], b, if a[0].Arm? then n + 1 else n);
    }
  }

  /** Setting a timeout records it under the next id, for its owner and time, and makes it pending unless its time is
      taken; the deadline becomes the earlier of the two. */
  lemma ArmRecords(w: World, handle: nat, when: int)
    requires Ledger(w)
    ensures var r := Act(w, Arm(handle, when)); var e := Entry(handle, when, |w.issued|);
            && r.issued == w.issued + [e]
            && (forall x :: x in r.sched.timeouts <==>
                  x in w.sched.timeouts || (x == e && !Occupied(w.sched.timeouts, when)))
            && r.sched.current.Some? && r.sched.current.value <= when
            && (w.sched.current.Some? ==> r.sched.current.value <= w.sched.current.value)
            && (r.sched.current.value == when || w.sched.current == r.sched.current)
            && r.owners == w.owners && r.fired == w.fired
  {
    InsertLaws(w.sched.timeouts, Entry(handle, when, |w.issued|));
  }

  lemma {:induction false} ActAllRecords(w: World, actions: seq<Action>)
    requires w.sched.nextId == |w.issued|
    ensures var r := ActAll(w, actions);
            r.sched.nextId == |r.issued| && r.issued == w.issued + Requests(actions, |w.issued|)
    decreases |actions|
  {
    if actions != [] {
      var r := Act(w, actions[0]);
      ActAllRecords(r, actions[1..]);
      hide ActAll;
      var rest := Requests(actions[1..], |r.issued|);
      assert actions[0].Arm? ==>
          w.issued + [Entry(actions[0].handle, actions[0].when, |w.issued|)] + rest
          == w.issued + ([Entry(actions[0].handle, actions[0].when, |w.issued|)] + rest);
    }
  }

  lemma {:induction false} FireRecords(
    w: World, cached: seq<Entry>, k: nat, clock: seq<int>, callbacks: seq<seq<Action>>)
    requires k <= |cached| && w.sched.nextId == |w.issued|
    ensures var r := Fire(w, cached, k, clock, callbacks);
            && r.0.sched.nextId == |r.0.issued|
            && r.0.issued == w.issued + Requests(Reactions(callbacks, k, r.1), |w.issued|)
    decreases |cached| - k
  {
    if k < |cached| && cached[k].when <= Now(clock, k) && cached[k].handle in w.owners {
      var w1 := w.(fired := w.fired + [cached[k]]);
      var w2 := ActAll(w1, Reaction(callbacks, k));
      ActAllRecords(w1, Reaction(callbacks, k));
      FireRecords(w2, cached, k + 1, clock, callbacks);
      var r := Fire(w2, cached, k + 1, clock, callbacks);
      hide Fire, ActAll;
      RequestsAppend(Reaction(callbacks, k), Reactions(callbacks, k + 1, r.1), |w.issued|);
      var a := Requests(Reaction(callbacks, k), |w.issued|);
      var b := Requests(Reactions(callbacks, k + 1, r.1), |w2.issued|);
      assert w.issued + a + b == w.issued + (a + b);
    }
  }

  // The actions of a step: its own, or those of the callbacks that run.
  function Actions(w: World, e: Event): seq<Action> {
    match e
    case Acted(a) => [a]
    case Polled(clock, callbacks) => Reactions(callbacks, 0, Expired(w, clock, callbacks))
  }

  lemma StepRecords(w: World, e: Event)
    requires w.sched.nextId == |w.issued| && !w.crashed
    ensures Step(w, e).issued == w.issued + Requests(Actions(w, e), |w.issued|)
    ensures Step(w, e).sched.nextId == |Step(w, e).issued|
  {
    match e {
      case Acted(a) =>
        ActAllRecords(w, [a]);
        assert ActAll(w, [a]) == ActAll(Act(w, a), []);
      case Polled(clock, callbacks) =>
        FireRecords(w.(sched := w.sched.(timeouts := [])), w.sched.timeouts, 0, clock, callbacks);
    }
  }

  // The actions of a run, up to a crash.
  function AllActions(w: World, events: seq<Event>): seq<Action>
    decreases |events|
  {
    if events == [] || w.crashed then [] else Actions(w, events[0]) + AllActions(Step(w, events[0]), events[1..])
  }

  /** Over every run the ids handed out are those of the timeouts that were set, by managers and by callbacks that ran,
      in the order in which they were set, each for its owner and its time. */
  lemma {:induction false} RequestsOverRuns(w: World, events: seq<Event>)
    requires w.sched.nextId == |w.issued|
    ensures Run(w, events).issued == w.issued + Requests(AllActions(w, events), |w.issued|)
    decreases |events|
  {
    hide Step, Actions;
    if events == [] {
    } else if w.crashed {
      CrashEnds(w, events);
    } else {
      var r := Step(w, events[0]);
      StepRecords(w, events[0]);
      RequestsOverRuns(r, events[1..]);
      RequestsAppend(Actions(w, events[0]), AllActions(r, events[1..]), |w.issued|);
      var a, b := Requests(Actions(w, events[0]), |w.issued|), Requests(AllActions(r, events[1..]), |r.issued|);
      assert w.issued + a + b == w.issued + (a + b);
    }
  }

  lemma {:induction false} CrashEnds(w: World, events: seq<Event>)
    requires w.crashed
    ensures Run(w, events) == w
    decreases |events|
  {
    if events != [] {
      CrashEnds(Step(w, events[0]), events[1..]);
    }
  }

  // -- The multiplexer's scheduler --------------------------------------------

  class Scheduler {
    var timeouts: seq<Entry>
    var cachedTimeouts: seq<Entry>
    var currentTimeoutId: nat
    var currentTimeout: Option<int>
    var managers: set<nat>
    ghost var issued: seq<Entry>
    ghost var fired: seq<Entry>

    ghost function State(): World
      reads this
    {
      World(Sched(timeouts, currentTimeout, currentTimeoutId), managers, issued, fired, false)
    }

    constructor ()
      ensures State() == INITIAL && cachedTimeouts == []
    {
      timeouts, cachedTimeouts, currentTimeoutId, currentTimeout := [], [], 0, None;
      managers, issued, fired := {}, [], [];
    }

    method SetTimeout(handle: nat, when: int) returns (id: nat)
      modifies this
      ensures id == old(currentTimeoutId)
      ensures State() == Act(old(State()), Arm(handle, when))
      ensures cachedTimeouts == old(cachedTimeouts)
    {
      id := currentTimeoutId;
      timeouts := Insert(timeouts, Entry(handle, when, id));
      var earlier := currentTimeout.Some? && currentTimeout.value < when;
      currentTimeout := Some(if earlier then currentTimeout.value else when);
      currentTimeoutId := id + 1;
      issued := issued + [Entry(handle, when, id)];
    }

    // A manager's handle_timeout, re-entering the scheduler and the registry.
    method RunCallback(actions: seq<Action>)
      modifies this
      ensures State() == ActAll(old(State()), actions)
      ensures cachedTimeouts == old(cachedTimeouts)
    {
      ghost var s0 := State();
      for i := 0 to |actions|
        invariant ActAll(State(), actions[i..]) == ActAll(s0, actions)
        invariant cachedTimeouts == old(cachedTimeouts)
      {
        match actions[i] {
          case Arm(handle, when) => var _ := SetTimeout(handle, when);
          case Join(handle) => managers := managers + {handle};
          case Leave(handle) => managers := managers - {handle};
        }
        assert actions[i..][1..] == actions[i + 1..];
      }
      assert actions[|actions|..] == [];
    }

    // Returns false when the registry lookup throws.
    method HandleTimeouts(clock: seq<int>, callbacks: seq<seq<Action>>) returns (completed: bool)
      requires cachedTimeouts == []
      modifies this
      ensures completed <==> !Pass(old(State()), clock, callbacks).crashed
      ensures completed ==> State() == Pass(old(State()), clock, callbacks) && cachedTimeouts == []
    {
      cachedTimeouts, timeouts := timeouts, cachedTimeouts;
      ghost var cached := cachedTimeouts;
      var k: nat := 0;
      while k < |cachedTimeouts|
        invariant k <= |cached| && cachedTimeouts == cached
        invariant Fire(State(), cached, k, clock, callbacks) == Loop(old(State()), clock, callbacks)
      {
        if cachedTimeouts[k].when <= Now(clock, k) {
          if cachedTimeouts[k].handle !in managers {
            return false;
          }
          fired := fired + [cachedTimeouts[k]];
          RunCallback(Reaction(callbacks, k));
          k := k + 1;
        } else {
          break;
        }
      }
      timeouts := InsertAll(timeouts, cachedTimeouts[k..]);
      cachedTimeouts := [];
      if timeouts == [] {
        currentTimeout := None;
      } else {
        currentTimeout := Some(timeouts[0].when);
      }
      completed := true;
    }
  }
}
