/**
 The scheduler thread: a pass over the task list runs every due task once and computes the next
 wake time. A task that throws ends the pass before its own deadline is advanced. Times are in
 microseconds since boot; the period is a 32-bit product.
 */
module TaskScheduling {
  import opened Common

  type Rate = r: int | 0 <= r <= UINT32_MAX

  /** `mTaskRateMs * 1000` in uint32_t arithmetic. */
  function PeriodUs(rateMs: Rate): nat {
    rateMs * 1000 % (UINT32_MAX + 1)
  }

  /** One task: whether it has a rate, its period and deadline fields, and the number of runs it has completed. */
  datatype Slot = Slot(active: bool, period: nat, next: nat, last: nat, runs: nat)

  predicate Due(s: Slot, now: nat) {
    s.active && (s.next < now || s.next == 0)
  }

  function Advanced(s: Slot): Slot {
    s.(last := s.next, next := s.next + s.period, runs := s.runs + 1)
  }

  /** The first task of the pass that is due and throws, or the length of the list. */
  function FirstThrow(slots: seq<Slot>, now: nat, throws: set<nat>, from: nat): (i: nat)
    requires from <= |slots|
    ensures from <= i <= |slots|
    ensures forall j | from <= j < i :: !(Due(slots[j], now) && j in throws)
    ensures i < |slots| ==> Due(slots[i], now) && i in throws
    decreases |slots| - from
  {
    if from == |slots| || (Due(slots[from], now) && from in throws) then from
    else FirstThrow(slots, now, throws, from + 1)
  }

  function PassUpTo(slots: seq<Slot>, now: nat, bound: nat): (slots': seq<Slot>)
    ensures |slots'| == |slots|
    ensures forall i | 0 <= i < |slots| ::
              slots'[i] == if i < bound && Due(slots[i], now) then Advanced(slots[i]) else slots[i]
  {
    seq(|slots|, i requires 0 <= i < |slots| =>
      if i < bound && Due(slots[i], now) then Advanced(slots[i]) else slots[i])
  }

  function Pass(slots: seq<Slot>, now: nat, throws: set<nat>): seq<Slot> {
    PassUpTo(slots, now, FirstThrow(slots, now, throws, 0))
  }

  /** The smallest next deadline of the tasks with a rate among the first n. */
  function NextWake(slots: seq<Slot>, n: nat): (wake: nat)
    requires n <= |slots|
    ensures wake <= UINT64_MAX
    ensures forall i | 0 <= i < n && slots[i].active :: wake <= slots[i].next
    ensures wake == UINT64_MAX || exists i | 0 <= i < n :: slots[i].active && slots[i].next == wake
  {
    if n == 0 then UINT64_MAX
    else
      var rest, s := NextWake(slots, n - 1), slots[n - 1];
      if s.active && s.next < rest then s.next else rest
  }

  // ---------------------------------------------------------------- the rounds of a pass

  lemma PassStep(slots: seq<Slot>, now: nat, i: nat)
    requires i < |slots|
    ensures PassUpTo(slots, now, i + 1) ==
            if Due(slots[i], now) then PassUpTo(slots, now, i)[i := Advanced(slots[i])] else PassUpTo(slots, now, i)
    ensures PassUpTo(slots, now, i)[i] == slots[i]
    ensures NextWake(PassUpTo(slots, now, i + 1), i) == NextWake(PassUpTo(slots, now, i), i)
  {
  }

  /** i rounds of a pass have been made, all of them without a throw, or the i-th ended the pass. */
  ghost predicate InPass(before: seq<Slot>, slots: seq<Slot>, now: nat, throws: set<nat>, i: nat, wake: nat,
                         completed: bool)
    requires i <= |before|
  {
    if completed then
      && slots == PassUpTo(before, now, i) && wake == NextWake(slots, i)
      && FirstThrow(before, now, throws, 0) == FirstThrow(before, now, throws, i)
    else slots == Pass(before, now, throws) && FirstThrow(before, now, throws, 0) < |before|
  }

  /** The i-th round of a pass: the task runs if it is due, and its deadline counts for the next wake time. */
  ghost predicate Visited(slots: seq<Slot>, slots': seq<Slot>, now: nat, throws: set<nat>, i: nat, wake: nat,
                          wake': nat, threw: bool)
    requires i < |slots|
  {
    && threw == (Due(slots[i], now) && i in throws)
    && slots' == (if Due(slots[i], now) && !threw then slots[i := Advanced(slots[i])] else slots)
    && (!threw ==> wake' == if slots'[i].active && slots'[i].next < wake then slots'[i].next else wake)
  }

  lemma PassStarts(before: seq<Slot>, now: nat, throws: set<nat>)
    ensures InPass(before, before, now, throws, 0, UINT64_MAX, true)
  {
    assert PassUpTo(before, now, 0) == before;
  }

  lemma PassRound(before: seq<Slot>, slots: seq<Slot>, slots': seq<Slot>, now: nat, throws: set<nat>, i: nat,
                  wake: nat, wake': nat, threw: bool)
    requires i < |before| == |slots| && InPass(before, slots, now, throws, i, wake, true)
    requires Visited(slots, slots', now, throws, i, wake, wake', threw)
    ensures InPass(before, slots', now, throws, i + 1, wake', !threw)
  {
    PassStep(before, now, i);
  }

  lemma PassEnds(before: seq<Slot>, slots: seq<Slot>, now: nat, throws: set<nat>, i: nat, wake: nat, completed: bool)
    requires i <= |before| && InPass(before, slots, now, throws, i, wake, completed) && (completed ==> i == |before|)
    ensures slots == Pass(before, now, throws)
    ensures completed == (FirstThrow(before, now, throws, 0) == |before|)
    ensures completed ==> wake == NextWake(slots, |before|)
  {
  }

  // ---------------------------------------------------------------- the class

  class Task {
    var rateMs: Rate
    var timeNextUpdateUs: nat
    var timeLastUpdateUs: nat
    ghost var runs: nat

    ghost function View(): Slot
      reads this
    {
      Slot(rateMs > 0, PeriodUs(rateMs), timeNextUpdateUs, timeLastUpdateUs, runs)
    }

    constructor (rateMs: Rate)
      ensures View() == Slot(rateMs > 0, PeriodUs(rateMs), 0, 0, 0)
    {
      this.rateMs := rateMs;
      timeNextUpdateUs, timeLastUpdateUs, runs := 0, 0, 0;
    }
  }

  class TaskScheduler {
    var taskList: seq<Task>

    ghost predicate Valid()
      reads this
    {
      forall i, j | 0 <= i < j < |taskList| :: taskList[i] != taskList[j]
    }

    ghost function View(): (slots: seq<Slot>)
      reads this, taskList
      ensures |slots| == |taskList|
      ensures forall i | 0 <= i < |taskList| :: slots[i] == taskList[i].View()
    {
      seq(|taskList|, i requires 0 <= i < |taskList| reads this, taskList => taskList[i].View())
    }

    constructor ()
      ensures Valid() && taskList == []
    {
      taskList := [];
    }

    /** A task that is scheduled again would be in the list twice. */
    method ScheduleTask(t: Task, rateMs: Rate)
      modifies this, t`rateMs
      ensures taskList == old(taskList) + [t] && t.rateMs == rateMs
      ensures Valid() <==> old(Valid()) && t !in old(taskList)
      ensures t !in old(taskList) ==>
                View() == old(View()) + [old(t.View()).(active := rateMs > 0, period := PeriodUs(rateMs))]
    {
      t.rateMs := rateMs;
      taskList := taskList + [t];
      if t in old(taskList) {
        var i :| 0 <= i < |old(taskList)| && old(taskList)[i] == t;
        assert taskList[i] == taskList[|taskList| - 1];
      }
      if !old(Valid()) {
        var i, j :| 0 <= i < j < |old(taskList)| && old(taskList)[i] == old(taskList)[j];
        assert taskList[i] == taskList[j];
      }
    }

    method Advance(i: nat)
      requires Valid() && i < |taskList|
      modifies taskList[i]
      ensures View() == old(View())[i := Advanced(old(View())[i])]
    {
      var t := taskList[i];
      ghost var before := View();
      t.timeLastUpdateUs := t.timeNextUpdateUs;
      t.timeNextUpdateUs := t.timeLastUpdateUs + PeriodUs(t.rateMs);
      t.runs := t.runs + 1;
      assert View() == before[i := Advanced(before[i])];
    }

    method Visit(i: nat, now: nat, throws: set<nat>, wake: nat) returns (threw: bool, wake': nat)
      requires Valid() && i < |taskList|
      modifies taskList[i]
      ensures Visited(old(View()), View(), now, throws, i, wake, wake', threw)
    {
      threw, wake' := false, wake;
      if taskList[i].rateMs > 0 {
        if taskList[i].timeNextUpdateUs < now || taskList[i].timeNextUpdateUs == 0 {
          if i in throws {
            threw := true;
          } else {
            Advance(i);
          }
        }
        if !threw {
          wake' := if taskList[i].timeNextUpdateUs < wake then taskList[i].timeNextUpdateUs else wake;
        }
      }
    }

    /** One round of a pass that started with the slots `before`. */
    method Proceed(ghost before: seq<Slot>, i: nat, now: nat, throws: set<nat>, wake: nat)
      returns (completed: bool, wake': nat)
      requires Valid() && i < |taskList| == |before| && InPass(before, View(), now, throws, i, wake, true)
      modifies taskList[i]
      ensures taskList == old(taskList) && InPass(before, View(), now, throws, i + 1, wake', completed)
    {
      ghost var slots := View();
      var threw;
      threw, wake' := Visit(i, now, throws, wake);
      PassRound(before, slots, View(), now, throws, i, wake, wake', threw);
      completed := !threw;
    }

    /** One pass at time `now`; `throws` are the positions whose task would throw when run. Without a throw the
        next wake time is the smallest deadline of all tasks with a rate. */
    method RunPass(now: nat, throws: set<nat>) returns (completed: bool, nextWakeTime: nat)
      requires Valid()
      modifies taskList
      ensures View() == Pass(old(View()), now, throws)
      ensures completed == (FirstThrow(old(View()), now, throws, 0) == |taskList|)
      ensures completed ==> nextWakeTime == NextWake(View(), |taskList|)
    {
      ghost var before := View();
      nextWakeTime := UINT64_MAX;
      completed := true;
      PassStarts(before, now, throws);
      var i := 0;
      while i < |taskList| && completed
        invariant taskList == old(taskList) && i <= |taskList|
        invariant InPass(before, View(), now, throws, i, nextWakeTime, completed)
        decreases |taskList| - i
      {
        completed, nextWakeTime := Proceed(before, i, now, throws, nextWakeTime);
        i := i + 1;
      }
      PassEnds(before, View(), now, throws, i, nextWakeTime, completed);
    }
  }

  // ---------------------------------------------------------------- over whole runs

  /** A pass of the thread's loop, at a time and with the tasks that throw in it. */
  datatype PassEvent = PassEvent(now: nat, throws: set<nat>)

  ghost function AfterPasses(slots: seq<Slot>, passes: seq<PassEvent>): (slots': seq<Slot>)
    ensures |slots'| == |slots|
  {
    if passes == [] then slots
    else
      var last := passes[|passes| - 1];
      Pass(AfterPasses(slots, passes[..|passes| - 1]), last.now, last.throws)
  }

  ghost predicate Unstarted(slots: seq<Slot>) {
    forall i | 0 <= i < |slots| :: slots[i].next == slots[i].last == slots[i].runs == 0
  }

  ghost predicate ClockAdvances(passes: seq<PassEvent>) {
    forall i, j | 0 <= i < j < |passes| :: passes[i].now <= passes[j].now
  }

  ghost predicate NoDrift(s: Slot) {
    && s.next == s.runs * s.period
    && s.last == if s.runs == 0 then 0 else (s.runs - 1) * s.period
  }

  lemma AdvancedNoDrift(s: Slot)
    requires NoDrift(s)
    ensures NoDrift(Advanced(s))
  {
  }

  /** Deadlines never drift: after n completed runs the next deadline is n periods after boot, whatever the wake
      times, the throws of this task and the throws of others. */
  lemma {:induction false} DeadlinesDoNotDrift(slots: seq<Slot>, passes: seq<PassEvent>, i: nat)
    requires Unstarted(slots) && i < |slots|
    ensures var s := AfterPasses(slots, passes)[i];
            NoDrift(s) && s.active == slots[i].active && s.period == slots[i].period
  {
    if passes != [] {
      DeadlinesDoNotDrift(slots, passes[..|passes| - 1], i);
      AdvancedNoDrift(AfterPasses(slots, passes[..|passes| - 1])[i]);
    }
  }

  /** A task with a rate runs in the first pass that gets to it, even at time 0. */
  lemma FirstRunIsImmediate(slots: seq<Slot>, now: nat, i: nat)
    requires Unstarted(slots) && i < |slots| && slots[i].active
    ensures Pass(slots, now, {})[i].runs == 1
  {
  }

  /** A task without a rate never runs. */
  lemma {:induction false} NoRateNoRun(slots: seq<Slot>, passes: seq<PassEvent>, i: nat)
    requires i < |slots| && !slots[i].active
    ensures AfterPasses(slots, passes)[i] == slots[i]
  {
    if passes != [] {
      NoRateNoRun(slots, passes[..|passes| - 1], i);
    }
  }

  ghost predicate NotAhead(s: Slot, now: nat) {
    s.runs <= 1 || (s.runs - 1) * s.period < now
  }

  lemma AdvancedNotAhead(s: Slot, now: nat)
    requires NoDrift(s) && Due(s, now) && s.period > 0
    ensures NotAhead(Advanced(s), now)
  {
  }

  /** No task runs ahead of the clock: its n-th run is after n - 1 whole periods, so there are at most
      max(1, ceil(now / P)) runs by time `now`. */
  lemma {:induction false} RunsAreBounded(slots: seq<Slot>, passes: seq<PassEvent>, i: nat)
    requires Unstarted(slots) && i < |slots| && passes != [] && ClockAdvances(passes) && slots[i].period > 0
    ensures NotAhead(AfterPasses(slots, passes)[i], passes[|passes| - 1].now)
  {
    var before, now := passes[..|passes| - 1], passes[|passes| - 1].now;
    DeadlinesDoNotDrift(slots, before, i);
    var s := AfterPasses(slots, before)[i];
    if before != [] {
      RunsAreBounded(slots, before, i);
      assert before[|before| - 1].now <= now;
    }
    if Due(s, now) {
      AdvancedNotAhead(s, now);
    }
  }

  /** t has run k more times than s, each time for a deadline before `now`. */
  ghost predicate WorkedOff(s: Slot, t: Slot, k: nat, now: nat) {
    && t.runs == s.runs + k && t.next == s.next + k * s.period && t.active == s.active && t.period == s.period
    && (k > 0 ==> s.next + (k - 1) * s.period < now)
  }

  lemma WorkOffOneMore(s: Slot, t: Slot, k: nat, now: nat)
    requires WorkedOff(s, t, k, now) && t.next < now
    ensures WorkedOff(s, Advanced(t), k + 1, now)
  {
  }

  /** When `rest` passes were left, k - rest runs had left no deadline before `now`. */
  ghost predicate CaughtUpEarlier(s: Slot, k: nat, rest: int, now: nat) {
    0 <= rest <= k && now <= s.next + (k - rest) * s.period
  }

  /** k passes have run the task: all of them, or all since one at which it had nothing left to do. */
  ghost predicate NeverIdle(s: Slot, k: nat, passes: seq<PassEvent>) {
    || k == |passes|
    || exists j :: 0 <= j < |passes| && CaughtUpEarlier(s, k, |passes| - 1 - j, passes[j].now)
  }

  function LastTime(passes: seq<PassEvent>): nat {
    if passes == [] then 0 else passes[|passes| - 1].now
  }

  ghost predicate Drained(s: Slot, t: Slot, passes: seq<PassEvent>) {
    exists k: nat :: k <= |passes| && WorkedOff(s, t, k, LastTime(passes)) && NeverIdle(s, k, passes)
  }

  lemma NeverIdleNext(s: Slot, k: nat, passes: seq<PassEvent>, e: PassEvent)
    requires k <= |passes| && NeverIdle(s, k, passes)
    ensures NeverIdle(s, k + 1, passes + [e])
    ensures e.now <= s.next + k * s.period ==> NeverIdle(s, k, passes + [e])
  {
    var all := passes + [e];
    if k != |passes| {
      var j :| 0 <= j < |passes| && CaughtUpEarlier(s, k, |passes| - 1 - j, passes[j].now);
      assert CaughtUpEarlier(s, k + 1, |all| - 1 - j, all[j].now);
    }
    if e.now <= s.next + k * s.period {
      assert CaughtUpEarlier(s, k, |all| - 1 - |passes|, all[|passes|].now);
    }
  }

  lemma DrainOneMore(s: Slot, t: Slot, passes: seq<PassEvent>, e: PassEvent)
    requires Drained(s, t, passes) && LastTime(passes) <= e.now
    ensures Drained(s, if t.next < e.now then Advanced(t) else t, passes + [e])
  {
    var k: nat :| k <= |passes| && WorkedOff(s, t, k, LastTime(passes)) && NeverIdle(s, k, passes);
    NeverIdleNext(s, k, passes, e);
    if t.next < e.now {
      assert WorkedOff(s, t, k, e.now);
      WorkOffOneMore(s, t, k, e.now);
    }
  }

  lemma {:induction false} NextStaysPositive(slots: seq<Slot>, passes: seq<PassEvent>, i: nat)
    requires i < |slots| && slots[i].next > 0
    ensures AfterPasses(slots, passes)[i].next > 0 && AfterPasses(slots, passes)[i].active == slots[i].active
  {
    if passes != [] {
      NextStaysPositive(slots, passes[..|passes| - 1], i);
    }
  }

  /** A backlog is worked off one deadline per pass, at whatever times the passes are made and whatever is thrown behind
      the task: the task has run for its oldest deadlines in turn, all of them past, and a pass only left it out when it
      had nothing overdue. */
  lemma {:induction false} BacklogDrains(slots: seq<Slot>, passes: seq<PassEvent>, i: nat)
    requires i < |slots| && slots[i].active && slots[i].next > 0 && ClockAdvances(passes)
    requires forall k, j | 0 <= k < |passes| && j in passes[k].throws :: i < j
    ensures Drained(slots[i], AfterPasses(slots, passes)[i], passes)
  {
    if passes == [] {
      assert WorkedOff(slots[i], slots[i], 0, 0) && NeverIdle(slots[i], 0, passes);
    } else {
      var before, e := passes[..|passes| - 1], passes[|passes| - 1];
      BacklogDrains(slots, before, i);
      NextStaysPositive(slots, before, i);
      assert before + [e] == passes;
      assert FirstThrow(AfterPasses(slots, before), e.now, e.throws, 0) > i;
      DrainOneMore(slots[i], AfterPasses(slots, before)[i], before, e);
    }
  }

  /** A due task that throws in every pass keeps its deadline and starves every task behind it in the list, forever. */
  lemma {:induction false} ThrowingTaskStarvesTheRest(slots: seq<Slot>, passes: seq<PassEvent>, j: nat, i: nat)
    requires j <= i < |slots| && ClockAdvances(passes)
    requires forall k | 0 <= k < |passes| :: j in passes[k].throws
    requires passes != [] ==> Due(slots[j], passes[0].now)
    ensures AfterPasses(slots, passes)[i] == slots[i]
  {
    if passes != [] {
      var before, last := passes[..|passes| - 1], passes[|passes| - 1];
      ThrowingTaskStarvesTheRest(slots, before, j, i);
      ThrowingTaskStarvesTheRest(slots, before, j, j);
      assert passes[0].now <= last.now;
      assert Due(AfterPasses(slots, before)[j], last.now);
    }
  }

  // ---------------------------------------------------------------- the 32-bit period

  /** The period is the rate in microseconds exactly for rates up to 4294967 ms. */
  lemma PeriodIsExactIff(rateMs: Rate)
    ensures PeriodUs(rateMs) == rateMs * 1000 <==> rateMs <= 4294967
  {
  }

  /** The wrapped period is zero exactly for multiples of 2^29. */
  lemma PeriodVanishesIff(rateMs: Rate)
    ensures PeriodUs(rateMs) == 0 <==> rateMs % 0x2000_0000 == 0
  {
    if PeriodUs(rateMs) == 0 {
      var k := rateMs * 1000 / 0x1_0000_0000;
      // 125 is invertible modulo 2^29: 125 * 115964117 == 1 + 27 * 2^29
      assert 125 * rateMs == k * 0x2000_0000;
      assert rateMs == 0x2000_0000 * (115964117 * k - 27 * rateMs);
    }
  }

  /** With a vanished period the deadline stands still at 0 and the task runs in every pass. */
  lemma {:induction false} VanishedPeriodRunsEveryPass(slots: seq<Slot>, passes: seq<PassEvent>, i: nat)
    requires Unstarted(slots) && i < |slots| && slots[i].active && slots[i].period == 0
    requires forall k | 0 <= k < |passes| :: passes[k].throws == {}
    ensures AfterPasses(slots, passes)[i].runs == |passes| && AfterPasses(slots, passes)[i].next == 0
  {
    if passes != [] {
      VanishedPeriodRunsEveryPass(slots, passes[..|passes| - 1], i);
      DeadlinesDoNotDrift(slots, passes[..|passes| - 1], i);
    }
  }
}
