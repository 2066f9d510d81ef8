/** How long a poll may block, derived from the earliest pending deadline. */
module PollWaits {
  import opened Options
  import opened Timeouts

  const NS_PER_MS: int := 1_000_000
  const NS_PER_S: int := 1_000_000_000
  const INT_MAX: int := 0x7FFF_FFFF

  // static_cast<int>
  function ToInt32(x: int): int {
    (x + 0x8000_0000) % 0x1_0000_0000 - 0x8000_0000
  }

  // The timeout argument of epoll_wait, in milliseconds; a negative one blocks without limit.
  function EpollWait(blocking: bool, current: Option<int>, now: int): int {
    if !blocking then 0
    else if current.None? then -1
    else if now >= current.value then 0
    else ToInt32((current.value - now + NS_PER_MS - 1) / NS_PER_MS)
  }

  // The timespec given to kevent; None blocks without limit.
  function KqueueWait(blocking: bool, current: Option<int>, now: int): Option<(int, int)> {
    if blocking && current.None? then None
    else if !blocking || now > current.value then Some((0, 0))
    else
      var diff := current.value - now;
      Some((diff / NS_PER_S, diff - diff / NS_PER_S * NS_PER_S))
  }

  // The timespec given to io_uring_wait_cqe_timeout: tv_sec stays 0 and tv_nsec is assigned twice.
  function UringWait(blocking: bool, current: Option<int>, now: int): Option<(int, int)> {
    if blocking && current.None? then None
    else
      var nowMs := now / NS_PER_MS;
      if !blocking || nowMs * NS_PER_MS > current.value then Some((0, 0))
      else Some((0, (current.value / NS_PER_MS - nowMs) % 1000 * NS_PER_MS))
  }

  /** A poll that is not to block never does, and one whose deadline has passed does not either; without a deadline a
      blocking poll has no limit. */
  lemma NoWait(current: Option<int>, now: int)
    ensures EpollWait(false, current, now) == 0
    ensures KqueueWait(false, current, now) == Some((0, 0)) == UringWait(false, current, now)
    ensures current.Some? && now > current.value ==>
              EpollWait(true, current, now) == 0 && KqueueWait(true, current, now) == Some((0, 0))
    ensures current.Some? && now / NS_PER_MS * NS_PER_MS > current.value ==>
              UringWait(true, current, now) == Some((0, 0))
    ensures current.None? ==>
              && EpollWait(true, current, now) < 0
              && KqueueWait(true, current, now).None?
              && UringWait(true, current, now).None?
  {
  }

  /** No missed wake-up on epoll: the wait covers the gap to the earliest deadline and exceeds it by less than
      a millisecond, exactly for gaps whose milliseconds fit an int. */
  lemma EpollWaitExactness(deadline: int, now: int)
    requires now < deadline
    ensures var wait := EpollWait(true, Some(deadline), now);
            (0 <= wait && deadline - now <= wait * NS_PER_MS < deadline - now + NS_PER_MS)
            <==> (deadline - now + NS_PER_MS - 1) / NS_PER_MS <= INT_MAX
  {
    var ms := (deadline - now + NS_PER_MS - 1) / NS_PER_MS;
    assert ms * NS_PER_MS <= deadline - now + NS_PER_MS - 1 < ms * NS_PER_MS + NS_PER_MS;
    assert ms > 0;
    if ms > INT_MAX {
      assert ToInt32(ms) < ms;
      assert ToInt32(ms) * NS_PER_MS <= (ms - 1) * NS_PER_MS;
    }
  }

  /** The kqueue split is exact and normalised. */
  lemma KqueueWaitExact(deadline: int, now: int)
    requires now <= deadline
    ensures var wait := KqueueWait(true, Some(deadline), now);
            && wait.Some?
            && wait.value.0 * NS_PER_S + wait.value.1 == deadline - now
            && 0 <= wait.value.1 < NS_PER_S
  {
  }

  /** On io_uring the wait is the gap in whole milliseconds exactly when that is below one second. */
  lemma UringWaitExactness(deadline: int, now: int)
    requires 0 <= now <= deadline
    ensures var gap := deadline / NS_PER_MS - now / NS_PER_MS;
            UringWait(true, Some(deadline), now) == Some((0, gap * NS_PER_MS)) <==> gap < 1000
  {
    var gap := deadline / NS_PER_MS - now / NS_PER_MS;
    assert now / NS_PER_MS * NS_PER_MS <= now;
    assert gap >= 0;
    if gap >= 1000 {
      assert gap % 1000 < gap;
      assert gap % 1000 * NS_PER_MS < gap * NS_PER_MS;
    }
  }

  /** In every reachable state a blocking poll blocks without limit only if nothing is pending. Otherwise epoll's (for
      gaps an int can hold) returns no earlier than, and less than 1 ms after, the earliest deadline, and kqueue's
      waits for the earliest deadline to the nanosecond, or not at all once it has passed. */
  lemma NoMissedWakeup(events: seq<Event>, now: int)
    requires !Run(INITIAL, events).crashed
    ensures var s := Run(INITIAL, events).sched;
            && (EpollWait(true, s.current, now) == -1
                && (s.current.Some? ==> s.current.value - now <= INT_MAX * NS_PER_MS)
                ==> s.timeouts == [])
            && (KqueueWait(true, s.current, now) == None ==> s.timeouts == [])
            && (s.timeouts == [] ==> EpollWait(true, s.current, now) == -1 && KqueueWait(true, s.current, now) == None)
            && (forall e :: e in s.timeouts && e.when <= now ==> EpollWait(true, s.current, now) == 0)
            && (s.timeouts != [] && now < s.current.value <= now + INT_MAX * NS_PER_MS ==>
                var wait := EpollWait(true, s.current, now) * NS_PER_MS;
                forall e :: e in s.timeouts && e.when == s.current.value ==> e.when <= now + wait < e.when + NS_PER_MS)
            && (s.timeouts != [] && now <= s.current.value ==>
                var wait := KqueueWait(true, s.current, now).value;
                var wakeUp := now + wait.0 * NS_PER_S + wait.1;
                && (exists e :: e in s.timeouts && e.when == wakeUp)
                && (forall e :: e in s.timeouts ==> wakeUp <= e.when)
                && 0 <= wait.1 < NS_PER_S)
            && (s.timeouts != [] && now > s.current.value ==> KqueueWait(true, s.current, now) == Some((0, 0)))
  {
    var w := Run(INITIAL, events);
    RunKeeps(INITIAL, events);
    DeadlineIsMinimum(w);
    if w.sched.current.Some? && now <= w.sched.current.value {
      KqueueWaitExact(w.sched.current.value, now);
    }
    if w.sched.current.Some? && now < w.sched.current.value {
      var gap := w.sched.current.value - now;
      EpollWaitExactness(w.sched.current.value, now);
      if gap <= INT_MAX * NS_PER_MS {
        assert (gap + NS_PER_MS - 1) / NS_PER_MS <= INT_MAX;
      }
    }
  }
}
