/**
 The robot's periodic callbacks: a priority queue of deadlines, popped one at a time, with a
 catch-up loop for everything that is due when the notifier wakes the thread. Times are in whole
 microseconds. The queue class is not part of this model: it is taken as any queue whose top has a
 smallest expiration time, with ties broken arbitrarily.
 */
module TimedRobotLoop {
  import opened Common

  /** `first` is the deadline a callback was added with, `expiration` its next one. */
  datatype Callback = Callback(first: int, period: int, expiration: int)

  /** The callback function `id` was called for one of its deadlines. */
  datatype Run = Run(id: int, deadline: int)

  /** The queue, by callback; every AddPeriodic call makes a new id. */
  type Queue = map<int, Callback>

  /** The deadlines for which `id` has run, in order. */
  ghost function Deadlines(trace: seq<Run>, id: int): seq<int> {
    if trace == [] then []
    else
      var last := trace[|trace| - 1];
      Deadlines(trace[..|trace| - 1], id) + if last.id == id then [last.deadline] else []
  }

  /** The first n deadlines of a callback. */
  ghost function Schedule(c: Callback, n: nat): seq<int> {
    seq(n, k => c.first + k * c.period)
  }

  /** The callback has run once for each of its first n deadlines, and waits for the next. */
  ghost predicate OnSchedule(id: int, c: Callback, trace: seq<Run>, n: nat) {
    Deadlines(trace, id) == Schedule(c, n) && c.expiration == c.first + n * c.period
  }

  /** The callback has run exactly for its deadlines up to `now`. */
  ghost predicate CaughtUp(id: int, c: Callback, trace: seq<Run>, now: int) {
    exists n: nat :: OnSchedule(id, c, trace, n) && forall k: nat :: k < n <==> c.first + k * c.period <= now
  }

  ghost predicate Chronological(trace: seq<Run>) {
    forall i, j | 0 <= i < j < |trace| :: trace[i].deadline <= trace[j].deadline
  }

  ghost predicate ServedBy(trace: seq<Run>, now: int) {
    forall i | 0 <= i < |trace| :: trace[i].deadline <= now
  }

  ghost predicate Scheduled(id: int, c: Callback, trace: seq<Run>) {
    exists n: nat :: OnSchedule(id, c, trace, n)
  }

  ghost predicate AllScheduled(q: Queue, trace: seq<Run>) {
    forall id | id in q :: Scheduled(id, q[id], trace)
  }

  /** Deadlines are served in order, and no queued one is earlier than a served one. */
  ghost predicate InOrder(q: Queue, trace: seq<Run>) {
    Chronological(trace) && forall id | id in q :: ServedBy(trace, q[id].expiration)
  }

  ghost predicate AllPositive(q: Queue) {
    forall id | id in q :: q[id].period > 0
  }

  /** The same callbacks, whatever their next deadlines. */
  ghost predicate SameCallbacks(q: Queue, q': Queue) {
    q.Keys == q'.Keys && forall id | id in q :: q[id].first == q'[id].first && q[id].period == q'[id].period
  }

  lemma SameAsTheSame(q0: Queue, q: Queue, q': Queue)
    requires SameCallbacks(q0, q) && SameCallbacks(q, q')
    ensures SameCallbacks(q0, q')
  {
  }

  /** The same callbacks but for one that is gone. */
  ghost predicate LostOne(q: Queue, q': Queue) {
    exists lost | lost in q :: SameCallbacks(q - {lost}, q')
  }

  lemma LostFromTheSame(q0: Queue, q: Queue, q': Queue, lost: int)
    requires SameCallbacks(q0, q) && lost in q && q' == q - {lost}
    ensures LostOne(q0, q')
  {
    assert SameCallbacks(q0 - {lost}, q');
  }

  predicate IsTop(q: Queue, id: int) {
    id in q && forall j | j in q :: q[id].expiration <= q[j].expiration
  }

  ghost function SomeKey(q: Queue): (id: int)
    requires q != map[]
    ensures id in q
  {
    assert (forall id :: id !in q) ==> q == map[];
    var id :| id in q;
    id
  }

  lemma {:induction false} TopExists(q: Queue)
    requires q != map[]
    ensures exists id :: IsTop(q, id)
    decreases |q|
  {
    var x := SomeKey(q);
    var rest := q - {x};
    if rest == map[] {
      assert forall j | j in q :: j != x ==> j in rest;
      assert IsTop(q, x);
    } else {
      TopExists(rest);
      var y :| IsTop(rest, y);
      assert forall j | j in q :: j == x || j in rest;
      assert IsTop(q, if q[x].expiration <= q[y].expiration then x else y);
    }
  }

  function Rescheduled(c: Callback): Callback {
    c.(expiration := c.expiration + c.period)
  }

  lemma DeadlinesSnoc(trace: seq<Run>, r: Run, id: int)
    ensures Deadlines(trace + [r], id) == Deadlines(trace, id) + if r.id == id then [r.deadline] else []
  {
  }

  lemma {:induction false} NeverRun(trace: seq<Run>, id: int)
    requires forall i | 0 <= i < |trace| :: trace[i].id != id
    ensures Deadlines(trace, id) == []
  {
    if trace != [] {
      NeverRun(trace[..|trace| - 1], id);
    }
  }

  lemma OnScheduleNext(id: int, c: Callback, trace: seq<Run>, n: nat)
    requires OnSchedule(id, c, trace, n)
    ensures OnSchedule(id, Rescheduled(c), trace + [Run(id, c.expiration)], n + 1)
  {
  }

  lemma ServeKeepsSchedules(q: Queue, id: int, trace: seq<Run>, j: int)
    requires id in q && j in q && Scheduled(j, q[j], trace)
    ensures Scheduled(j, q[id := Rescheduled(q[id])][j], trace + [Run(id, q[id].expiration)])
  {
    var n: nat :| OnSchedule(j, q[j], trace, n);
    if j == id {
      OnScheduleNext(id, q[id], trace, n);
    } else {
      DeadlinesSnoc(trace, Run(id, q[id].expiration), j);
      assert OnSchedule(j, q[j], trace + [Run(id, q[id].expiration)], n);
    }
  }

  lemma ServeKeepsAllScheduled(q: Queue, id: int, trace: seq<Run>)
    requires AllScheduled(q, trace) && id in q
    ensures AllScheduled(q[id := Rescheduled(q[id])], trace + [Run(id, q[id].expiration)])
  {
    forall j | j in q
      ensures Scheduled(j, q[id := Rescheduled(q[id])][j], trace + [Run(id, q[id].expiration)])
    {
      ServeKeepsSchedules(q, id, trace, j);
    }
  }

  lemma ServeTopKeepsOrder(q: Queue, id: int, trace: seq<Run>)
    requires InOrder(q, trace) && IsTop(q, id) && q[id].period > 0
    ensures InOrder(q[id := Rescheduled(q[id])], trace + [Run(id, q[id].expiration)])
  {
  }

  /** Running the top callback and queueing it again keeps the schedules of all and the order of the deadlines. */
  lemma ServeTop(q: Queue, id: int, trace: seq<Run>)
    requires AllScheduled(q, trace) && IsTop(q, id)
    ensures var q' := q[id := Rescheduled(q[id])];
            && AllScheduled(q', trace + [Run(id, q[id].expiration)]) && SameCallbacks(q, q')
            && (InOrder(q, trace) && q[id].period > 0 ==> InOrder(q', trace + [Run(id, q[id].expiration)]))
  {
    ServeKeepsAllScheduled(q, id, trace);
    if InOrder(q, trace) && q[id].period > 0 {
      ServeTopKeepsOrder(q, id, trace);
    }
  }

  lemma {:induction false} DeadlineServed(trace: seq<Run>, id: int, now: int, k: nat)
    requires ServedBy(trace, now) && k < |Deadlines(trace, id)|
    ensures Deadlines(trace, id)[k] <= now
  {
    if trace != [] {
      var before := trace[..|trace| - 1];
      if k < |Deadlines(before, id)| {
        DeadlineServed(before, id, now, k);
      }
    }
  }

  /** With everything served on time and nothing due, each callback has run exactly once per deadline so far. */
  lemma NothingDueMeansCaughtUp(id: int, c: Callback, trace: seq<Run>, now: int, n: nat)
    requires OnSchedule(id, c, trace, n) && c.period > 0 && ServedBy(trace, now) && now < c.expiration
    ensures CaughtUp(id, c, trace, now)
  {
    forall k: nat
      ensures k < n <==> c.first + k * c.period <= now
    {
      if k < n {
        DeadlineServed(trace, id, now, k);
      } else {
        assert k * c.period >= n * c.period;
      }
    }
  }

  ghost predicate NothingDue(q: Queue, now: int) {
    forall id | id in q :: now < q[id].expiration
  }

  lemma AllCaughtUp(q: Queue, trace: seq<Run>, now: int)
    requires AllScheduled(q, trace) && AllPositive(q) && ServedBy(trace, now)
    requires NothingDue(q, now)
    ensures forall id | id in q :: CaughtUp(id, q[id], trace, now)
  {
    forall id | id in q
      ensures CaughtUp(id, q[id], trace, now)
    {
      var n: nat :| OnSchedule(id, q[id], trace, n);
      NothingDueMeansCaughtUp(id, q[id], trace, now, n);
    }
  }

  // ---------------------------------------------------------------- termination of the catch-up loop

  ghost function Backlog(c: Callback, now: int): nat {
    if c.expiration <= now then now - c.expiration + 1 else 0
  }

  ghost function TotalBacklog(q: Queue, now: int): nat
    decreases |q|
  {
    if q == map[] then 0
    else
      var id := SomeKey(q);
      Backlog(q[id], now) + TotalBacklog(q - {id}, now)
  }

  lemma {:induction false} BacklogOf(q: Queue, now: int, id: int)
    requires id in q
    ensures TotalBacklog(q, now) == Backlog(q[id], now) + TotalBacklog(q - {id}, now)
    decreases |q|
  {
    var x := SomeKey(q);
    if x != id {
      BacklogOf(q - {x}, now, id);
      BacklogOf(q - {id}, now, x);
      assert q - {x} - {id} == q - {id} - {x};
    }
  }

  lemma ServingShrinksBacklog(q: Queue, now: int, id: int)
    requires id in q && q[id].period > 0 && q[id].expiration <= now
    ensures TotalBacklog(q[id := Rescheduled(q[id])], now) < TotalBacklog(q, now)
  {
    BacklogOf(q, now, id);
    BacklogOf(q[id := Rescheduled(q[id])], now, id);
    assert q[id := Rescheduled(q[id])] - {id} == q - {id};
  }

  /** The loop may end: whatever is due has a positive period. */
  ghost predicate DuePositive(q: Queue, now: int) {
    forall id | id in q && q[id].expiration <= now :: q[id].period > 0
  }

  ghost function ServedAll(q: Queue, ids: seq<int>): Queue
    decreases |ids|
  {
    if ids == [] then q
    else ServedAll(if ids[0] in q then q[ids[0] := Rescheduled(q[ids[0]])] else q, ids[1..])
  }

  /** Otherwise it never does: a due callback without a positive period is still due whatever has been served. */
  lemma {:induction false} NeverCaughtUp(q: Queue, ids: seq<int>, id: int, now: int)
    requires id in q && q[id].expiration <= now && q[id].period <= 0
    ensures id in ServedAll(q, ids) && ServedAll(q, ids)[id].expiration <= now
    decreases |ids|
  {
    if ids != [] {
      NeverCaughtUp(if ids[0] in q then q[ids[0] := Rescheduled(q[ids[0]])] else q, ids[1..], id, now);
    }
  }

  /** What the loop keeps of the queue and the trace it started with. */
  ghost predicate CatchingUp(q0: Queue, trace0: seq<Run>, q: Queue, trace: seq<Run>, now: int) {
    && SameCallbacks(q0, q) && DuePositive(q, now) && trace0 <= trace
    && (ServedBy(trace0, now) ==> ServedBy(trace, now))
    && (InOrder(q0, trace0) ==> InOrder(q, trace))
  }

  lemma CatchUpStep(q0: Queue, trace0: seq<Run>, q: Queue, trace: seq<Run>, now: int, id: int)
    requires CatchingUp(q0, trace0, q, trace, now) && AllScheduled(q, trace) && IsTop(q, id) && q[id].expiration <= now
    ensures CatchingUp(q0, trace0, q[id := Rescheduled(q[id])], trace + [Run(id, q[id].expiration)], now)
  {
    ServeTop(q, id, trace);
  }

  // ---------------------------------------------------------------- the class

  /** How the notifier ends a wait: at or some time after the alarm, or because it was stopped. */
  datatype Wake = Fired(lateness: nat) | Stopped

  /** The k-th deadline a callback was added with. */
  function Nth(c: Callback, k: nat): int {
    c.first + k * c.period
  }

  /** The earliest deadline of all callbacks, or the earliest one behind a time up to which they are caught up. */
  ghost predicate NextDeadline(q: Queue, after: Option<nat>, a: int) {
    && (exists id, k: nat | id in q :: a == Nth(q[id], k))
    && (after.Some? ==> after.value < a)
    && forall id, k: nat | id in q && (after.Some? ==> after.value < Nth(q[id], k)) :: a <= Nth(q[id], k)
  }

  /** The time of the wake before the i-th. */
  function Previous(times: seq<nat>, i: nat): (t: Option<nat>)
    requires i <= |times|
  {
    if i == 0 then None else Some(times[i - 1])
  }

  lemma LaterDeadline(c: Callback, n: nat, k: nat)
    requires n <= k && c.period > 0
    ensures c.first + n * c.period <= c.first + k * c.period
  {
    assert (k - n) * c.period >= 0;
  }

  lemma DeadlineKept(q0: Queue, q: Queue, trace: seq<Run>, now: nat, id: int, k: nat)
    requires SameCallbacks(q0, q) && id in q && CaughtUp(id, q[id], trace, now) && q[id].period > 0
    ensures now < Nth(q0[id], k) ==> q[id].expiration <= Nth(q0[id], k)
  {
    var n: nat :| OnSchedule(id, q[id], trace, n) && forall k: nat :: k < n <==> q[id].first + k * q[id].period <= now;
    if now < Nth(q0[id], k) {
      LaterDeadline(q[id], n, k);
    }
  }

  /** Caught up to `now`, the top of the queue has the earliest deadline behind it. */
  lemma TopIsNextDeadline(q0: Queue, q: Queue, trace: seq<Run>, now: nat, id: int)
    requires SameCallbacks(q0, q) && AllScheduled(q, trace) && AllPositive(q) && ServedBy(trace, now)
    requires NothingDue(q, now) && IsTop(q, id)
    ensures NextDeadline(q0, Some(now), q[id].expiration)
  {
    AllCaughtUp(q, trace, now);
    var n: nat :| OnSchedule(id, q[id], trace, n);
    assert q[id].expiration == Nth(q0[id], n);
    forall j, k: nat | j in q0 && now < Nth(q0[j], k)
      ensures q[id].expiration <= Nth(q0[j], k)
    {
      DeadlineKept(q0, q, trace, now, j, k);
    }
  }

  lemma NothingServed(c: Callback, n: nat, id: int)
    requires OnSchedule(id, c, [], n)
    ensures c.expiration == c.first
  {
  }

  /** Before anything has run, it has the earliest deadline of all. */
  lemma TopIsFirstDeadline(q: Queue, id: int)
    requires AllScheduled(q, []) && AllPositive(q) && IsTop(q, id)
    ensures NextDeadline(q, None, q[id].expiration)
  {
    forall j | j in q
      ensures q[j].expiration == q[j].first
    {
      var n: nat :| OnSchedule(j, q[j], [], n);
      NothingServed(q[j], n, j);
    }
    assert q[id].expiration == Nth(q[id], 0);
    forall j, k: nat | j in q
      ensures q[id].expiration <= Nth(q[j], k)
    {
      LaterDeadline(q[j], 0, k);
    }
  }

  /** A wake fires at t: as late as it does behind the earliest deadline, or behind the wake before if that has taken
      longer. */
  ghost predicate FiresAt(q: Queue, last: Option<nat>, wake: Wake, t: int) {
    && wake.Fired?
    && exists a ::
         && NextDeadline(q, last, a)
         && (if last.Some? then last.value else 0) + wake.lateness <= t && a + wake.lateness <= t
         && (t == (if last.Some? then last.value else 0) + wake.lateness || t == a + wake.lateness)
  }

  ghost predicate AllFire(q: Queue, wakes: seq<Wake>, times: seq<nat>) {
    && |times| <= |wakes|
    && forall i | 0 <= i < |times| :: FiresAt(q, Previous(times, i), wakes[i], times[i])
  }

  /** The next wake is a stop, or one at time 0, which is taken for one. */
  ghost predicate Halts(q: Queue, wakes: seq<Wake>, times: seq<nat>) {
    && |times| < |wakes|
    && (wakes[|times|].Stopped? || FiresAt(q, Previous(times, |times|), wakes[|times|], 0))
  }

  lemma PreviousKept(times: seq<nat>, t: nat, i: nat)
    requires i <= |times|
    ensures Previous(times + [t], i) == Previous(times, i)
  {
  }

  lemma FiresOnceMore(q: Queue, wakes: seq<Wake>, times: seq<nat>, t: nat)
    requires |times| < |wakes|
    ensures AllFire(q, wakes, times) && FiresAt(q, Previous(times, |times|), wakes[|times|], t) ==>
              AllFire(q, wakes, times + [t])
  {
    var more := times + [t];
    if AllFire(q, wakes, times) && FiresAt(q, Previous(times, |times|), wakes[|times|], t) {
      forall i | 0 <= i < |more|
        ensures FiresAt(q, Previous(more, i), wakes[i], more[i])
      {
        PreviousKept(times, t, i);
        if i < |times| {
          assert FiresAt(q, Previous(times, i), wakes[i], times[i]);
          assert more[i] == times[i];
        }
      }
    }
  }

  lemma AllFired(q: Queue, wakes: seq<Wake>, times: seq<nat>)
    requires AllFire(q, wakes, times) && |times| == |wakes|
    ensures Stopped !in wakes
  {
    forall i | 0 <= i < |wakes|
      ensures wakes[i].Fired?
    {
      assert FiresAt(q, Previous(times, i), wakes[i], times[i]);
    }
  }

  /** With all first deadlines positive no wake is at time 0, so only a stop ends the loop. */
  lemma WakesArePositive(q: Queue, last: Option<nat>, wake: Wake, t: int)
    requires AllPositive(q) && (forall id | id in q :: q[id].first > 0) && FiresAt(q, last, wake, t)
    ensures t > 0
  {
    var a :| NextDeadline(q, last, a) && a + wake.lateness <= t;
    var id, k: nat :| id in q && a == Nth(q[id], k);
    LaterDeadline(q[id], 0, k);
  }

  lemma OnlyAStopHalts(q: Queue, wakes: seq<Wake>, times: seq<nat>)
    requires AllPositive(q) && Halts(q, wakes, times)
    ensures (forall id | id in q :: q[id].first > 0) ==> Stopped in wakes
  {
    if wakes[|times|].Fired? && forall id | id in q :: q[id].first > 0 {
      WakesArePositive(q, Previous(times, |times|), wakes[|times|], 0);
    }
    assert wakes[|times|].Stopped? ==> wakes[|times|] == Stopped;
  }

  class TimedRobot {
    var callbacks: Queue
    var nextId: int
    ghost var trace: seq<Run>

    ghost predicate Valid()
      reads this
    {
      && AllScheduled(callbacks, trace)
      && (forall id | id in callbacks :: id < nextId)
      && (forall i | 0 <= i < |trace| :: trace[i].id < nextId)
    }

    /** The constructor queues the robot's own loop function. */
    constructor (start: int, period: int)
      ensures Valid() && callbacks == map[0 := Callback(start, period, start)] && trace == []
    {
      callbacks, nextId := map[0 := Callback(start, period, start)], 1;
      trace := [];
      new;
      assert OnSchedule(0, callbacks[0], trace, 0);
    }

    /** A callback may be added at any time; the order of the deadlines is kept if its first one is not already past. */
    method AddPeriodic(first: int, period: int) returns (id: int)
      requires Valid()
      modifies this
      ensures Valid() && trace == old(trace)
      ensures id !in old(callbacks) && callbacks == old(callbacks)[id := Callback(first, period, first)]
      ensures InOrder(callbacks, trace) <==> InOrder(old(callbacks), trace) && ServedBy(trace, first)
      ensures AllPositive(callbacks) <==> AllPositive(old(callbacks)) && period > 0
    {
      id := nextId;
      callbacks := callbacks[id := Callback(first, period, first)];
      nextId := nextId + 1;
      NeverRun(trace, id);
      assert OnSchedule(id, callbacks[id], trace, 0);
      assert callbacks[id].expiration == first;
      assert forall j | j in old(callbacks) :: callbacks[j] == old(callbacks)[j];
    }

    method Top() returns (id: int)
      requires callbacks != map[]
      ensures IsTop(callbacks, id)
    {
      TopExists(callbacks);
      id :| IsTop(callbacks, id);
    }

    /** Calls the function of a popped callback and pushes the callback back for its next deadline. */
    method Serve(id: int)
      requires Valid() && IsTop(callbacks, id)
      modifies this
      ensures Valid() && SameCallbacks(old(callbacks), callbacks)
      ensures callbacks == old(callbacks)[id := Rescheduled(old(callbacks)[id])]
      ensures trace == old(trace) + [Run(id, old(callbacks)[id].expiration)]
      ensures InOrder(old(callbacks), old(trace)) && callbacks[id].period > 0 ==> InOrder(callbacks, trace)
      ensures nextId == old(nextId)
    {
      ServeTop(callbacks, id, trace);
      trace := trace + [Run(id, callbacks[id].expiration)];
      callbacks := callbacks[id := Rescheduled(callbacks[id])];
    }

    /** Processes all other callbacks that are ready to run. */
    method CatchUp(curTime: nat)
      requires Valid() && callbacks != map[] && DuePositive(callbacks, curTime)
      modifies this
      ensures Valid() && SameCallbacks(old(callbacks), callbacks)
      ensures NothingDue(callbacks, curTime)
      ensures old(trace) <= trace && nextId == old(nextId)
      ensures ServedBy(old(trace), curTime) ==> ServedBy(trace, curTime)
      ensures InOrder(old(callbacks), old(trace)) ==> InOrder(callbacks, trace)
    {
      var id := Top();
      while callbacks[id].expiration <= curTime
        invariant Valid() && IsTop(callbacks, id) && nextId == old(nextId)
        invariant CatchingUp(old(callbacks), old(trace), callbacks, trace, curTime)
        decreases TotalBacklog(callbacks, curTime)
      {
        ServingShrinksBacklog(callbacks, curTime, id);
        CatchUpStep(old(callbacks), old(trace), callbacks, trace, curTime, id);
        Serve(id);
        id := Top();
      }
    }

    /** The loop is between two rounds: everything up to `now` has been served, in order. */
    ghost predicate Waiting(now: int)
      reads this
    {
      Valid() && callbacks != map[] && AllPositive(callbacks) && InOrder(callbacks, trace) && ServedBy(trace, now)
    }

    /** One round: wait for the earliest deadline, serve it and catch up. Time goes on to that deadline if it is not yet
        past, and by the lateness; the round stops exactly for a stop or at time 0, and that loses the callback that was
        being waited for, and nothing else. */
    method Round(wake: Wake, before: nat) returns (stopped: bool, now: nat)
      requires Waiting(before)
      modifies this
      ensures stopped <==> wake.Stopped? || now == 0
      ensures wake.Fired? ==>
                exists id | IsTop(old(callbacks), id) ::
                  && before + wake.lateness <= now && old(callbacks)[id].expiration + wake.lateness <= now
                  && (now == before + wake.lateness || now == old(callbacks)[id].expiration + wake.lateness)
      ensures !stopped ==> Waiting(now) && SameCallbacks(old(callbacks), callbacks) && NothingDue(callbacks, now)
      ensures stopped ==> Valid() && trace == old(trace)
                          && exists id | IsTop(old(callbacks), id) :: callbacks == old(callbacks) - {id}
    {
      now := before;
      var id := Top();
      var alarm := callbacks[id].expiration;
      if wake.Fired? {
        now := (if alarm > now then alarm else now) + wake.lateness;
      }
      stopped := now == 0 || wake.Stopped?;
      if stopped {
        callbacks := callbacks - {id};
      } else {
        Serve(id);
        CatchUp(now);
      }
    }

    /** The loop, which started with the callbacks q0, has answered the wakes of `times` without stopping. */
    ghost predicate Underway(q0: Queue, wakes: seq<Wake>, times: seq<nat>, stopped: bool)
      reads this
    {
      && AllFire(q0, wakes, times)
      && (if stopped then Valid() && Chronological(trace) && LostOne(q0, callbacks) && Halts(q0, wakes, times)
          else
            && SameCallbacks(q0, callbacks) && Waiting(if times == [] then 0 else times[|times| - 1])
            && (if times == [] then trace == [] && callbacks == q0 else NothingDue(callbacks, times[|times| - 1])))
    }

    lemma AlarmIsNextDeadline(q0: Queue, wakes: seq<Wake>, times: seq<nat>, id: int)
      requires Underway(q0, wakes, times, false) && IsTop(callbacks, id)
      ensures NextDeadline(q0, Previous(times, |times|), callbacks[id].expiration)
    {
      if times == [] {
        TopIsFirstDeadline(q0, id);
      } else {
        TopIsNextDeadline(q0, callbacks, trace, times[|times| - 1], id);
      }
    }

    method Answer(wakes: seq<Wake>, i: nat, before: nat, ghost times: seq<nat>, ghost q0: Queue)
      returns (stopped: bool, now: nat, ghost times': seq<nat>)
      requires i == |times| < |wakes| && Underway(q0, wakes, times, false)
      requires before == if times == [] then 0 else times[|times| - 1]
      modifies this
      ensures Underway(q0, wakes, times', stopped)
      ensures times' == if stopped then times else times + [now]
    {
      ghost var q := callbacks;
      forall id | IsTop(q, id)
        ensures NextDeadline(q0, Previous(times, i), q[id].expiration)
      {
        AlarmIsNextDeadline(q0, wakes, times, id);
      }
      stopped, now := Round(wakes[i], before);
      assert wakes[i].Fired? ==> FiresAt(q0, Previous(times, i), wakes[i], now);
      times' := times;
      if stopped {
        ghost var id :| IsTop(q, id) && callbacks == q - {id};
        LostFromTheSame(q0, q, callbacks, id);
      } else {
        FiresOnceMore(q0, wakes, times, now);
        SameAsTheSame(q0, q, callbacks);
        times' := times + [now];
      }
    }

    /** The competition loop over the notifier's answers. It goes on exactly until a stop, or a wake at time 0. Each
        wake comes as late as it does behind the earliest deadline of all callbacks. After each round every callback
        has run exactly once for each of its deadlines up to the time of the wake, all of them in the order of their
        deadlines. */
    method StartCompetition(wakes: seq<Wake>) returns (stopped: bool, now: nat, ghost times: seq<nat>)
      requires Valid() && callbacks != map[] && AllPositive(callbacks) && trace == []
      modifies this
      ensures Valid() && Chronological(trace)
      ensures AllFire(old(callbacks), wakes, times)
      ensures if stopped then Halts(old(callbacks), wakes, times) && LostOne(old(callbacks), callbacks)
              else |times| == |wakes| && SameCallbacks(old(callbacks), callbacks)
      ensures !stopped && wakes != [] ==>
                && now == times[|times| - 1]
                && forall id | id in callbacks :: CaughtUp(id, callbacks[id], trace, now)
      ensures Stopped in wakes ==> stopped
      ensures Stopped !in wakes && (forall id | id in old(callbacks) :: old(callbacks)[id].first > 0) ==> !stopped
    {
      stopped, now, times := false, 0, [];
      var i := 0;
      while i < |wakes| && !stopped
        invariant i <= |wakes| && Underway(old(callbacks), wakes, times, stopped)
        invariant !stopped ==> i == |times| && now == if times == [] then 0 else times[|times| - 1]
        decreases |wakes| - i
      {
        stopped, now, times := Answer(wakes, i, now, times, old(callbacks));
        i := i + 1;
      }
      if stopped {
        OnlyAStopHalts(old(callbacks), wakes, times);
      } else {
        AllFired(old(callbacks), wakes, times);
        if wakes != [] {
          AllCaughtUp(callbacks, trace, now);
        }
      }
    }
  }
}
