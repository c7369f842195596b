/** What holds in every state of every run of the machine from boot. */
module Runs {
  import opened Words
  import opened Sched
  import opened Blocking

  /** A sequence of states in which each follows from the one before by an enabled step. */
  predicate Run(trace: seq<State>, steps: seq<Step>) {
    && |trace| == |steps| + 1
    && forall k :: 0 <= k < |steps| ==> Enabled(trace[k], steps[k]) && trace[k + 1] == Do(trace[k], steps[k])
  }

  /** The machine as main.c leaves it: init running in slot 0, nothing queued, every lock fresh. */
  predicate Booted(s: State) {
    && Sized(s) && s.current == 0 && s.nextPid == 2 && s.uptime < TWO64
    && (forall c :: 0 <= c < CLASSES ==> s.queues[c] == [])
    && (forall i :: 0 <= i < SLOTS ==> var p := s.procs[i];
          && p.pid == (if i == 0 then 1 else 0) && p.status == (if i == 0 then Running else Unused)
          && p.blockedOn == 0 && p.wakeTick == 0 && !p.waiting && p.inbox == [] && p.at == User)
    && (forall m :: 0 <= m < |s.mutexes| ==> s.mutexes[m] == Mutex(false, 0, []))
    && (forall k :: 0 <= k < |s.sems| ==> s.sems[k] == Semaphore(s.sems[k].initial, [], s.sems[k].initial, 0, 0))
  }

  lemma RunLength(trace: seq<State>, steps: seq<Step>)
    requires Run(trace, steps)
    ensures |trace| == |steps| + 1
  {
  }

  lemma BootedInv(s: State)
    requires Booted(s)
    ensures Inv(s)
  {
    hide Lives;
  }

  lemma {:induction false} RunKeeps(trace: seq<State>, steps: seq<Step>, k: nat)
    requires Run(trace, steps) && Booted(trace[0]) && k < |trace|
    ensures Inv(trace[k])
  {
    hide Inv, Enabled, Do, Booted;
    if k == 0 {
      BootedInv(trace[0]);
    } else {
      var j := k - 1;
      RunKeeps(trace, steps, j);
      assert Enabled(trace[j], steps[j]) && trace[j + 1] == Do(trace[j], steps[j]);
      StepKeeps(trace[j], steps[j]);
    }
  }

  /** In every state of every run a process is READY exactly when it is in the queue of its class,
      in one place there and in no other queue, and only the current process is RUNNING. */
  lemma QueuesInEveryState(trace: seq<State>, steps: seq<Step>, k: nat, i: nat)
    requires Run(trace, steps) && Booted(trace[0]) && k < |trace| && i < SLOTS
    ensures var s := trace[k];
            && Sized(s) && (s.procs[i].status == Ready <==> i in s.queues[s.procs[i].intent])
            && (forall c :: 0 <= c < CLASSES && i in s.queues[c] ==> c == s.procs[i].intent)
            && (forall c, a, b :: 0 <= c < CLASSES && 0 <= a < b < |s.queues[c]| ==> s.queues[c][a] != s.queues[c][b])
            && (s.procs[i].status == Running ==> s.current == i)
  {
    hide Run, Booted, SyncOk, Named, Flags, Cause;
    RunKeeps(trace, steps, k);
    var s := trace[k];
    forall c | 0 <= c < CLASSES && i in s.queues[c] ensures c == s.procs[i].intent && s.procs[i].status == Ready {
      var a :| 0 <= a < |s.queues[c]| && s.queues[c][a] == i;
      assert Member(s, c, s.queues[c][a]);
    }
  }

  /** In every state of every run an unlocked mutex and a positive semaphore have no waiter, every
      registered waiter is a blocked process, and a semaphore's count is accounted for. */
  lemma WaitersInEveryState(trace: seq<State>, steps: seq<Step>, k: nat)
    requires Run(trace, steps) && Booted(trace[0]) && k < |trace|
    ensures var s := trace[k];
            && (forall m :: 0 <= m < |s.mutexes| ==> MutexOk(s, m))
            && (forall j :: 0 <= j < |s.sems| ==> SemOk(s, j))
  {
    hide Run, Booted, MutexOk, SemOk, Named, Flags, Cause;
    RunKeeps(trace, steps, k);
  }

  // ----- sleepers and zombies ----------------------------------------------------------------------

  /** What a sleeper or a zombie must keep until it is woken or reaped. */
  datatype Mark = Asleep(due: nat) | Corpse(pid: nat, code: int) | Other

  function MarkOf(p: Proc): Mark {
    if p.status == Blocked && p.at.Sleep? then Asleep(p.at.due)
    else if p.status == Zombie then Corpse(p.pid, p.code)
    else Other
  }

  /** The step is a sweep for which a wake tick is due. */
  predicate Rings(s: State, step: Step, tick: nat) {
    tick != 0 && (if step.Tick? then (s.uptime + 1) % TWO64 >= tick else step.Idle? && s.uptime >= tick)
  }

  /** The step gives up the slot of a child. */
  predicate Reaps(s: State, step: Step, i: nat) {
    && step.ReapChild? && OnCpu(s) && s.procs[s.current].at.Reap?
    && Find(s.procs, s.procs[s.current].at.child) == i
  }

  function MarkAfter(s: State, step: Step, i: nat): Mark
    requires i < |s.procs|
  {
    var p := s.procs[i];
    if step.Nap? && s.current == i && step.ticks != 0 then Asleep(s.uptime + step.ticks)
    else if step.Exit? && s.current == i then Corpse(p.pid, step.code)
    else if step == Abort(i) then Corpse(p.pid, -1)
    else if Reaps(s, step, i) || Rings(s, step, p.wakeTick) then Other
    else MarkOf(p)
  }

  predicate Up(s: State, i: nat)
    requires i < |s.procs|
  {
    s.procs[i].status == Ready || (s.procs[i].status == Running && s.current == i)
  }

  /** The clock, the mark of slot i and a woken sleeper after a step. */
  predicate Follows(s: State, t: State, step: Step, i: nat) {
    && i < |s.procs| == |t.procs|
    && t.uptime == (if step.Tick? then (s.uptime + 1) % TWO64 else s.uptime)
    && MarkOf(t.procs[i]) == MarkAfter(s, step, i)
    && (Rings(s, step, s.procs[i].wakeTick) ==> Up(t, i))
  }

  lemma SweepMarks(s: State, scan: Scan, i: nat, n: nat)
    requires Queued(s) && !scan.ExitOf? && i < SLOTS && Flags(s.procs[i], n)
    ensures var t := Sweep(s, scan, 0); var p, q := s.procs[i], t.procs[i];
            && Queued(t) && t.uptime == s.uptime && Flags(q, n) && (p.status == Ready ==> q == p)
            && if scan.Sleepers? && p.wakeTick != 0 && s.uptime >= p.wakeTick then q.status == Ready
               else MarkOf(q) == MarkOf(p)
  {
    hide Queued, Sweep, Gone;
    SweepEffect(s, scan, 0);
    QueuedSized(s); QueuedSized(Sweep(s, scan, 0));
  }

  lemma ResumeMarks(s: State, i: nat)
    requires Queued(s) && i < SLOTS
    ensures var t := Resume(s); i < |t.procs| && t.uptime == s.uptime && MarkOf(t.procs[i]) == MarkOf(s.procs[i])
    ensures s.procs[i].status == Ready ==> Up(Resume(s), i)
  {
    var c := Pick(s.queues);
    if c < CLASSES { assert Member(s, c, s.queues[c][0]); }
  }

  lemma ReleaseMarks(s: State, i: nat, n: nat)
    requires Queued(s) && 0 <= s.current < SLOTS && i < SLOTS && Flags(s.procs[i], n)
    ensures var t := Release(s); |t.procs| == SLOTS && t.uptime == s.uptime
    ensures MarkOf(Release(s).procs[i]) == MarkOf(s.procs[i]) && Flags(Release(s).procs[i], n)
  {
    QueuedSized(s);
    hide Queued;
  }

  lemma FlagsAt(s: State, i: nat)
    requires Inv(s) && i < SLOTS
    ensures Sized(s) && Flags(s.procs[i], s.nextPid)
  {
  }

  lemma ScansMark(s: State, step: Step, i: nat)
    requires Inv(s) && Enabled(s, step) && (step.Tick? || step.Yield? || step.Idle?) && i < SLOTS
    ensures Follows(s, Do(s, step), step, i)
  {
    hide Inv, Sweep, Queued, Resume, Release, MarkOf, Flags;
    FlagsAt(s, i);
    var n := s.nextPid;
    if step.Tick? {
      var u := s.(uptime := (s.uptime + 1) % TWO64);
      QueuedKeep(s, u);
      SweepMarks(u, Sleepers, i, n);
      var v := Sweep(u, Sleepers, 0);
      SweepMarks(v, Waiters, i, n);
      UpIsOther(v.procs[i]);
      QueuedSized(Sweep(v, Waiters, 0));
    } else if step.Yield? {
      var r := Release(s);
      ReleaseMarks(s, i, n);
      QueuedSized(r);
      SweepMarks(r, Waiters, i, n);
      ResumeMarks(Sweep(r, Waiters, 0), i);
      ResumeSized(Sweep(r, Waiters, 0));
    } else {
      SweepMarks(s, Sleepers, i, n);
      var v := Sweep(s, Sleepers, 0);
      SweepMarks(v, Waiters, i, n);
      UpIsOther(v.procs[i]);
      ResumeMarks(Sweep(v, Waiters, 0), i);
      ResumeSized(Sweep(v, Waiters, 0));
    }
  }

  lemma UpIsOther(p: Proc)
    ensures p.status == Ready ==> MarkOf(p) == Other
  {
  }

  lemma ResumeSized(s: State)
    requires Queued(s)
    ensures |Resume(s).procs| == |s.procs| == SLOTS
  {
  }

  lemma DieMarks(s: State, step: Step, d: nat, code: int, i: nat)
    requires Inv(s) && MayDie(s, d) && i < SLOTS
    requires (step == Abort(d) && code == -1 && s.procs[d].status == Blocked) || (step == Exit(code) && s.current == d)
    ensures Follows(s, Die(s, d, code), step, i)
  {
    hide Inv, Die, Queued;
    FlagsAt(s, i);
    FlagsAt(s, d);
    DieEffect(s, d, code);
    QueuedSized(Die(s, d, code));
  }

  lemma WakesMark(s: State, step: Step, i: nat)
    requires Inv(s) && Enabled(s, step) && (step.MutexUnlock? || step.SemPost? || step.Abort? || step.Exit?)
    requires i < SLOTS
    ensures Follows(s, Do(s, step), step, i)
  {
    hide Inv, WakeAll, Die, Queued;
    match step
    case SemPost(k) => PostWakes(s, k);
    case MutexUnlock(m) => UnlockWakes(s, m);
    case Abort(slot) => DieMarks(s, step, slot, -1, i);
    case Exit(code) => DieMarks(s, step, s.current, code, i);
  }

  lemma LocksMark(s: State, step: Step, i: nat)
    requires Inv(s) && Enabled(s, step) && i < SLOTS && (step.MutexLock? || step.MutexTryLock? || step.SemWait?)
    ensures Follows(s, Do(s, step), step, i)
  {
    hide Inv, Queued, Flags;
    FlagsAt(s, i);
  }

  lemma MessagesMark(s: State, step: Step, i: nat)
    requires Inv(s) && Enabled(s, step) && i < SLOTS && (step.Send? || step.Receive? || step.ReceiveNow?)
    ensures Follows(s, Do(s, step), step, i)
  {
    hide Inv, Queued, Find;
    FlagsAt(s, i);
  }

  lemma CallsMark(s: State, step: Step, i: nat)
    requires Inv(s) && Enabled(s, step) && i < SLOTS && (step.Waitpid? || step.Nap? || step.WakeUp?)
    ensures Follows(s, Do(s, step), step, i)
  {
    hide Inv, Queued, Find;
    FlagsAt(s, i);
  }

  lemma BirthsMark(s: State, step: Step, i: nat)
    requires Inv(s) && Enabled(s, step) && i < SLOTS && (step.Create? || step.Start?)
    ensures Follows(s, Do(s, step), step, i)
  {
    hide Inv, Queued, Free;
    FlagsAt(s, i);
  }

  lemma ReapMark(s: State, i: nat)
    requires Inv(s) && Enabled(s, ReapChild) && i < SLOTS
    ensures Follows(s, Do(s, ReapChild), ReapChild, i)
  {
    hide Inv, Queued, Find;
    FlagsAt(s, i);
    ReapsOnlyZombies(s);
  }

  lemma StepMark(s: State, step: Step, i: nat)
    requires Inv(s) && Enabled(s, step) && i < SLOTS
    ensures Follows(s, Do(s, step), step, i)
  {
    hide Do, Inv, Enabled, Follows;
    if step.Tick? || step.Yield? || step.Idle? {
      ScansMark(s, step, i);
    } else if step.MutexUnlock? || step.SemPost? || step.Abort? || step.Exit? {
      WakesMark(s, step, i);
    } else if step.MutexLock? || step.MutexTryLock? || step.SemWait? {
      LocksMark(s, step, i);
    } else if step.Send? || step.Receive? || step.ReceiveNow? {
      MessagesMark(s, step, i);
    } else if step.Create? || step.Start? {
      BirthsMark(s, step, i);
    } else if step.ReapChild? {
      ReapMark(s, i);
    } else {
      CallsMark(s, step, i);
    }
  }

  lemma RunMark(trace: seq<State>, steps: seq<Step>, k: nat, i: nat)
    requires Run(trace, steps) && Booted(trace[0]) && k < |steps| && i < SLOTS
    ensures Follows(trace[k], trace[k + 1], steps[k], i) && Flags(trace[k].procs[i], trace[k].nextPid)
  {
    hide Inv, Enabled, Do, Booted, Follows, Flags;
    RunKeeps(trace, steps, k);
    assert Enabled(trace[k], steps[k]) && trace[k + 1] == Do(trace[k], steps[k]);
    StepMark(trace[k], steps[k], i);
    FlagsAt(trace[k], i);
  }

  /** No sleeper whose sum did not wrap has outlived its tick. */
  predicate Timely(s: State) {
    && s.uptime < TWO64
    && forall i :: 0 <= i < |s.procs| && MarkOf(s.procs[i]).Asleep? ==> Early(s, MarkOf(s.procs[i]).due)
  }

  predicate Early(s: State, due: nat) {
    due < TWO64 ==> s.uptime < due
  }

  lemma EarlyStays(s: State, t: State, step: Step, i: nat, n: nat)
    requires Follows(s, t, step, i) && Flags(s.procs[i], n) && MarkOf(t.procs[i]).Asleep?
    requires s.uptime < TWO64 && (MarkOf(s.procs[i]).Asleep? ==> Early(s, MarkOf(s.procs[i]).due))
    ensures Early(t, MarkOf(t.procs[i]).due)
  {
  }

  lemma {:induction false} TimelyInEveryState(trace: seq<State>, steps: seq<Step>, k: nat)
    requires Run(trace, steps) && Booted(trace[0]) && k < |trace|
    ensures Timely(trace[k])
  {
    hide Enabled, Do, Follows, Flags, Early, Run;
    RunSized(trace, steps, k);
    if k == 0 {
    } else {
      hide Booted;
      var s, t := trace[k - 1], trace[k];
      TimelyInEveryState(trace, steps, k - 1);
      RunSized(trace, steps, k - 1);
      ClockRuns(trace, steps, k - 1);
      forall i | 0 <= i < |t.procs| && MarkOf(t.procs[i]).Asleep? ensures Early(t, MarkOf(t.procs[i]).due) {
        RunMark(trace, steps, k - 1, i);
        EarlyStays(s, t, steps[k - 1], i, s.nextPid);
      }
    }
  }

  lemma RunSized(trace: seq<State>, steps: seq<Step>, k: nat)
    requires Run(trace, steps) && Booted(trace[0]) && k < |trace|
    ensures |trace| == |steps| + 1 && |trace[k].procs| == SLOTS
  {
    hide Booted, SyncOk, ProcsOk, Named;
    RunKeeps(trace, steps, k);
  }

  /** Only the timer moves the clock, by one tick modulo 2^64. */
  lemma ClockRuns(trace: seq<State>, steps: seq<Step>, k: nat)
    requires Run(trace, steps) && Booted(trace[0]) && k < |steps|
    ensures trace[k + 1].uptime == if steps[k].Tick? then (trace[k].uptime + 1) % TWO64 else trace[k].uptime
  {
    hide Run, Booted, MarkAfter, Rings;
    RunLength(trace, steps);
    RunSized(trace, steps, k);
    RunMark(trace, steps, k, 0);
  }

  /** What a blocked process waits for has not happened, and is registered where it will be seen. */
  predicate Stands(s: State, p: Proc) {
    match p.at
    case User => false
    case Lock(m) => m < |s.mutexes| && s.mutexes[m].locked && p.pid in s.mutexes[m].waiters
    case Wait(j) => j < |s.sems| && s.sems[j].count <= 0 && p.pid in s.sems[j].waiters
    case Recv => p.waiting && p.inbox == []
    case Reap(child) => p.blockedOn == child && Lives(s.procs, child)
    case Sleep(due) => p.wakeTick == due % TWO64 && (due < TWO64 ==> s.uptime < due)
    case Fresh => true
  }

  /** In every state of every run no wakeup is outstanding. */
  lemma NoLostWakeup(trace: seq<State>, steps: seq<Step>, k: nat, i: nat)
    requires Run(trace, steps) && Booted(trace[0]) && k < |trace| && i < SLOTS
    ensures var s := trace[k]; Sized(s) && (s.procs[i].status == Blocked ==> Stands(s, s.procs[i]))
  {
    hide Run, Booted, SyncOk, Named, Lives;
    RunKeeps(trace, steps, k);
    TimelyInEveryState(trace, steps, k);
    assert Flags(trace[k].procs[i], trace[k].nextPid) && Cause(trace[k], trace[k].procs[i]);
  }

  /** A process asleep in state j sleeps on through every step that is no sweep due for it, and the
      first sweep that is due makes it READY (the idle loop may run it at once). */
  lemma {:induction false} SleepsUntilDue(trace: seq<State>, steps: seq<Step>, i: nat, j: nat, k: nat)
    requires Run(trace, steps) && Booted(trace[0]) && j <= k < |trace| && i < SLOTS
    requires i < |trace[j].procs| && MarkOf(trace[j].procs[i]).Asleep?
    requires forall n :: j <= n < k ==> !Rings(trace[n], steps[n], trace[j].procs[i].wakeTick)
    ensures i < |trace[k].procs| && MarkOf(trace[k].procs[i]) == MarkOf(trace[j].procs[i])
    ensures trace[k].procs[i].wakeTick == trace[j].procs[i].wakeTick
    ensures k < |steps| && Rings(trace[k], steps[k], trace[j].procs[i].wakeTick) ==>
        i < |trace[k + 1].procs| && Up(trace[k + 1], i)
    decreases k
  {
    hide Run, Booted, Flags, Rings, Up;
    RunSized(trace, steps, k);
    if j >= k {
    } else {
      SleepsUntilDue(trace, steps, i, j, k - 1);
      RunMark(trace, steps, k - 1, i);
      NoCall(trace, steps, i, k - 1);
      assert !Rings(trace[k - 1], steps[k - 1], trace[j].procs[i].wakeTick);
    }
    WakeTicks(trace, steps, i, j);
    WakeTicks(trace, steps, i, k);
    if k < |steps| { RunMark(trace, steps, k, i); }
  }

  lemma WakeTicks(trace: seq<State>, steps: seq<Step>, i: nat, k: nat)
    requires Run(trace, steps) && Booted(trace[0]) && k < |trace| && i < SLOTS
    ensures |trace[k].procs| == SLOTS
    ensures trace[k].procs[i].wakeTick == match MarkOf(trace[k].procs[i]) case Asleep(due) => due % TWO64 case _ => 0
  {
    hide Run, Booted, SyncOk, Named, Cause;
    RunKeeps(trace, steps, k);
    assert Flags(trace[k].procs[i], trace[k].nextPid);
  }

  /** A process that is asleep makes no call and is not reaped. */
  lemma NoCall(trace: seq<State>, steps: seq<Step>, i: nat, k: nat)
    requires Run(trace, steps) && Booted(trace[0]) && k < |steps| && i < |trace[k].procs|
    requires MarkOf(trace[k].procs[i]).Asleep?
    ensures !(steps[k].Nap? && trace[k].current == i) && !(steps[k].Exit? && trace[k].current == i)
    ensures steps[k] != Abort(i) && !Reaps(trace[k], steps[k], i)
  {
    hide Booted, SyncOk, Named, Flags, Cause, Do;
    RunKeeps(trace, steps, k);
    assert Enabled(trace[k], steps[k]);
    if steps[k].ReapChild? { ReapsOnlyZombies(trace[k]); }
  }

  /** Timer interrupts in steps j up to k. */
  function Ticks(steps: seq<Step>, j: nat, k: nat): (n: nat)
    requires j <= k <= |steps|
    ensures n <= k - j
  {
    if j == k then 0 else Ticks(steps, j, k - 1) + (if steps[k - 1].Tick? then 1 else 0)
  }

  lemma {:induction false} ClockCounts(trace: seq<State>, steps: seq<Step>, j: nat, k: nat)
    requires Run(trace, steps) && Booted(trace[0]) && j <= k < |trace|
    ensures k <= |steps| && trace[k].uptime == (trace[j].uptime + Ticks(steps, j, k)) % TWO64
    decreases k
  {
    hide Booted, Do, Enabled, Early;
    if j == k {
      TimelyInEveryState(trace, steps, j);
    } else {
      ClockCounts(trace, steps, j, k - 1);
      ClockRuns(trace, steps, k - 1);
      NextTick(trace[j].uptime, Ticks(steps, j, k - 1));
    }
  }

  lemma NextTick(u: nat, n: nat)
    ensures ((u + n) % TWO64 + 1) % TWO64 == (u + (n + 1)) % TWO64
  {
    var x := u + n;
    if x % TWO64 + 1 < TWO64 {
      ModUnique(x + 1, TWO64, x / TWO64, x % TWO64 + 1);
    } else {
      ModUnique(x + 1, TWO64, x / TWO64 + 1, 0);
    }
  }

  /** The process in slot i starts a sleep of n ticks in step j. */
  predicate Naps(trace: seq<State>, steps: seq<Step>, i: nat, j: nat, n: nat)
    requires j < |steps| && j < |trace|
  {
    steps[j] == Nap(n) && n != 0 && trace[j].current == i
  }

  lemma NapSleeps(trace: seq<State>, steps: seq<Step>, i: nat, j: nat, n: nat)
    requires Run(trace, steps) && Booted(trace[0]) && j < |steps| && i < SLOTS && Naps(trace, steps, i, j, n)
    ensures i < |trace[j + 1].procs| && MarkOf(trace[j + 1].procs[i]) == Asleep(trace[j].uptime + n)
    ensures trace[j + 1].procs[i].wakeTick == (trace[j].uptime + n) % TWO64 && trace[j + 1].uptime == trace[j].uptime
    ensures trace[j].uptime < TWO64 && n < TWO64
  {
    hide Booted, Do, Queued, Flags;
    RunMark(trace, steps, j, i);
    TimelyInEveryState(trace, steps, j);
    WakeTicks(trace, steps, i, j + 1);
    assert Enabled(trace[j], steps[j]);
  }

  lemma RingsAt(s: State, step: Step, u: nat, t: nat, n: nat)
    requires s.uptime == (u + t) % TWO64 && u + n < TWO64 && t < n
    ensures Rings(s, step, (u + n) % TWO64) <==> step.Tick? && t + 1 == n
  {
  }

  /** A sleep whose sum does not wrap lasts exactly its ticks, whatever else happens: it is not over
      before the n-th tick, and that tick ends it. */
  lemma {:induction false} SleepLasts(trace: seq<State>, steps: seq<Step>, i: nat, j: nat, n: nat, k: nat)
    requires Run(trace, steps) && Booted(trace[0]) && i < SLOTS && j < k < |trace| && Naps(trace, steps, i, j, n)
    requires trace[j].uptime + n < TWO64 && Ticks(steps, j + 1, k) < n
    ensures i < |trace[k].procs| && MarkOf(trace[k].procs[i]) == Asleep(trace[j].uptime + n)
    ensures k < |steps| && steps[k].Tick? && Ticks(steps, j + 1, k) + 1 == n ==>
        i < |trace[k + 1].procs| && Up(trace[k + 1], i)
  {
    hide Run, Booted, MarkOf, Up, Ticks, Rings;
    RunLength(trace, steps);
    NapSleeps(trace, steps, i, j, n);
    var u := trace[j].uptime;
    forall m | j + 1 <= m < k ensures !Rings(trace[m], steps[m], trace[j + 1].procs[i].wakeTick) {
      TicksGrow(steps, j + 1, m, k);
      ClockCounts(trace, steps, j + 1, m);
      RingsAt(trace[m], steps[m], u, Ticks(steps, j + 1, m), n);
    }
    ClockCounts(trace, steps, j + 1, k);
    if k < |steps| { RingsAt(trace[k], steps[k], u, Ticks(steps, j + 1, k), n); }
    SleepsUntilDue(trace, steps, i, j + 1, k);
  }

  lemma {:induction false} TicksGrow(steps: seq<Step>, j: nat, m: nat, k: nat)
    requires j <= m < k <= |steps|
    ensures Ticks(steps, j, m) + (if steps[m].Tick? then 1 else 0) <= Ticks(steps, j, k)
    decreases k
  {
    if m >= k - 1 {
    } else {
      TicksGrow(steps, j, m, k - 1);
    }
  }

  /** A sleeper with no wake tick is in every later state where it was. */
  lemma NeverDue(trace: seq<State>, steps: seq<Step>, i: nat, j: nat, k: nat)
    requires Run(trace, steps) && Booted(trace[0]) && i < SLOTS && j <= k < |trace|
    requires i < |trace[j].procs| && MarkOf(trace[j].procs[i]).Asleep? && trace[j].procs[i].wakeTick == 0
    ensures i < |trace[k].procs| && MarkOf(trace[k].procs[i]) == MarkOf(trace[j].procs[i])
    ensures trace[k].procs[i].status == Blocked && trace[k].procs[i].wakeTick == 0
  {
    hide Run, Booted;
    SleepsUntilDue(trace, steps, i, j, k);
  }

  /** A sleep whose sum is 2^64 never ends. */
  lemma SleepForever(trace: seq<State>, steps: seq<Step>, i: nat, j: nat, n: nat, k: nat)
    requires Run(trace, steps) && Booted(trace[0]) && i < SLOTS && j < k < |trace| && Naps(trace, steps, i, j, n)
    requires trace[j].uptime + n == TWO64
    ensures i < |trace[k].procs| && trace[k].procs[i].status == Blocked && trace[k].procs[i].at == Sleep(TWO64)
  {
    hide Run, Booted;
    RunLength(trace, steps);
    NapSleeps(trace, steps, i, j, n);
    NeverDue(trace, steps, i, j + 1, k);
  }

  /** A sleep whose sum passes 2^64 is over at the first idle round, and at the first tick unless the
      clock wraps at it; it had at least two ticks to go. */
  lemma SleepCutShort(trace: seq<State>, steps: seq<Step>, i: nat, j: nat, n: nat, k: nat)
    requires Run(trace, steps) && Booted(trace[0]) && i < SLOTS && j < k < |steps| && Naps(trace, steps, i, j, n)
    requires trace[j].uptime + n > TWO64 && forall m :: j < m < k ==> !steps[m].Tick? && !steps[m].Idle?
    requires steps[k].Idle? || (steps[k].Tick? && trace[j].uptime + 1 < TWO64)
    ensures k + 1 < |trace| && i < |trace[k + 1].procs| && Up(trace[k + 1], i) && n >= 2
  {
    hide Run, Booted, MarkOf, Up;
    RunLength(trace, steps);
    NapSleeps(trace, steps, i, j, n);
    NoTicks(steps, j + 1, k);
    ClockCounts(trace, steps, j + 1, k);
    SleepsUntilDue(trace, steps, i, j + 1, k);
  }

  lemma {:induction false} NoTicks(steps: seq<Step>, j: nat, k: nat)
    requires j <= k <= |steps| && forall m :: j <= m < k ==> !steps[m].Tick?
    ensures Ticks(steps, j, k) == 0
    decreases k
  {
    if j == k {
    } else {
      NoTicks(steps, j, k - 1);
    }
  }

  /** A zombie stays, with its exit code, until a waitpid that names it, and that call returns the code. */
  lemma {:induction false} ExitCodeKept(trace: seq<State>, steps: seq<Step>, i: nat, j: nat, k: nat)
    requires Run(trace, steps) && Booted(trace[0]) && i < SLOTS && j <= k < |trace|
    requires i < |trace[j].procs| && MarkOf(trace[j].procs[i]).Corpse?
    requires forall n :: j <= n < k ==> !Reaps(trace[n], steps[n], i)
    ensures i < |trace[k].procs| && MarkOf(trace[k].procs[i]) == MarkOf(trace[j].procs[i])
    ensures k < |steps| && Reaps(trace[k], steps[k], i) ==> ReapCode(trace[k]) == trace[j].procs[i].code
    decreases k
  {
    hide Run, Booted, Flags;
    RunSized(trace, steps, k);
    if j == k {
    } else {
      ExitCodeKept(trace, steps, i, j, k - 1);
      RunMark(trace, steps, k - 1, i);
      DeadCallsNothing(trace, steps, i, k - 1);
      WakeTicks(trace, steps, i, k - 1);
      assert !Reaps(trace[k - 1], steps[k - 1], i);
    }
  }

  lemma DeadCallsNothing(trace: seq<State>, steps: seq<Step>, i: nat, k: nat)
    requires Run(trace, steps) && k < |steps| && i < |trace[k].procs| && trace[k].procs[i].status == Zombie
    ensures !(steps[k].Nap? && trace[k].current == i) && !(steps[k].Exit? && trace[k].current == i)
    ensures steps[k] != Abort(i)
  {
    hide Do, Queued;
    assert Enabled(trace[k], steps[k]);
  }

  /** What waitpid returns is what the child passed to exit (or -1 for one that failed to start). */
  lemma WaitpidReturnsExitCode(trace: seq<State>, steps: seq<Step>, i: nat, j: nat, k: nat)
    requires Run(trace, steps) && Booted(trace[0]) && i < SLOTS && j < k < |steps|
    requires (steps[j].Exit? && trace[j].current == i) || steps[j] == Abort(i)
    requires Reaps(trace[k], steps[k], i) && forall n :: j < n < k ==> !Reaps(trace[n], steps[n], i)
    ensures ReapCode(trace[k]) == if steps[j].Exit? then steps[j].code else -1
  {
    hide Run, Booted, Flags, Reaps;
    RunLength(trace, steps);
    RunMark(trace, steps, j, i);
    ExitCodeKept(trace, steps, i, j + 1, k);
  }

  // ----- mutual exclusion --------------------------------------------------------------------------------------

  /** Step k of the run takes mutex m. */
  predicate Takes(trace: seq<State>, steps: seq<Step>, k: nat, m: nat)
    requires k < |steps| && k < |trace|
  {
    && (steps[k] == MutexLock(m) || steps[k] == MutexTryLock(m))
    && m < |trace[k].mutexes| && !trace[k].mutexes[m].locked
  }

  /** Steps that touch no mutex. */
  lemma SameMutexes(s: State, step: Step)
    requires Inv(s) && Enabled(s, step) && !step.MutexLock? && !step.MutexTryLock? && !step.MutexUnlock?
    ensures Do(s, step).mutexes == s.mutexes
  {
    hide SyncOk, Cause, Flags, Sweep, WakeAll;
    QueuedSized(s);
    match step
    case Tick =>
      var u := s.(uptime := (s.uptime + 1) % TWO64);
      QueuedKeep(s, u);
      SweepEffect(u, Sleepers, 0);
      SweepEffect(Sweep(u, Sleepers, 0), Waiters, 0);
    case Yield =>
      SweepEffect(Release(s), Waiters, 0);
    case Idle =>
      SweepEffect(s, Sleepers, 0);
      SweepEffect(Sweep(s, Sleepers, 0), Waiters, 0);
    case SemPost(k) =>
      WakeEffect(s, s.sems[k].waiters);
    case Abort(slot) =>
      DieEffect(s, slot, -1);
    case Exit(code) =>
      DieEffect(s, s.current, code);
    case SemWait(_) =>
    case Send(_, _) =>
    case Receive =>
    case ReceiveNow =>
    case Waitpid(_) =>
    case ReapChild =>
    case Nap(_) =>
    case WakeUp =>
    case Create(_, _) =>
    case Start(_) =>
  }

  /** A locked mutex stays locked until a step unlocks it. */
  lemma LockedStays(s: State, step: Step, m: nat)
    requires Inv(s) && Enabled(s, step) && m < |s.mutexes| && s.mutexes[m].locked && step != MutexUnlock(m)
    ensures m < |Do(s, step).mutexes| && Do(s, step).mutexes[m].locked
  {
    hide SyncOk, Cause, Flags, Sweep, WakeAll, Queued, Named;
    if step.MutexUnlock? {
      InvParts(s);
      WakeEffect(s, s.mutexes[step.m].waiters);
    } else if !step.MutexLock? && !step.MutexTryLock? {
      hide Do;
      SameMutexes(s, step);
    }
  }

  lemma InvParts(s: State)
    requires Inv(s)
    ensures Queued(s) && Named(s.procs)
  {
  }

  /** Taking a free mutex locks it. */
  lemma TakenIsLocked(s: State, step: Step, m: nat)
    requires Enabled(s, step) && m < |s.mutexes| && !s.mutexes[m].locked
    requires step == MutexLock(m) || step == MutexTryLock(m)
    ensures m < |Do(s, step).mutexes| && Do(s, step).mutexes[m].locked
  {
    hide Queued;
  }

  /** From a locked state to an unlocked one leads a step that unlocks. */
  lemma {:induction false} UnlockedBetween(trace: seq<State>, steps: seq<Step>, j: nat, k: nat, m: nat) returns (u: nat)
    requires Run(trace, steps) && Booted(trace[0]) && j <= k < |trace|
    requires m < |trace[j].mutexes| && trace[j].mutexes[m].locked && m < |trace[k].mutexes|
    requires !trace[k].mutexes[m].locked
    ensures j <= u < k && steps[u] == MutexUnlock(m)
    decreases k - j
  {
    hide Inv, Enabled, Do, Booted;
    RunKeeps(trace, steps, j);
    if steps[j] == MutexUnlock(m) {
      u := j;
    } else {
      assert Enabled(trace[j], steps[j]) && trace[j + 1] == Do(trace[j], steps[j]);
      LockedStays(trace[j], steps[j], m);
      u := UnlockedBetween(trace, steps, j + 1, k, m);
    }
  }

  /** Mutual exclusion: in every run, between two steps that take one mutex lies an unlock of it. */
  lemma MutualExclusion(trace: seq<State>, steps: seq<Step>, j: nat, k: nat, m: nat)
    requires Run(trace, steps) && Booted(trace[0]) && j < k < |steps|
    requires Takes(trace, steps, j, m) && Takes(trace, steps, k, m)
    ensures exists u :: j < u < k && steps[u] == MutexUnlock(m)
  {
    hide Inv, Enabled, Do, Booted;
    assert Enabled(trace[j], steps[j]) && trace[j + 1] == Do(trace[j], steps[j]);
    TakenIsLocked(trace[j], steps[j], m);
    var u := UnlockedBetween(trace, steps, j + 1, k, m);
  }

  // ----- messages --------------------------------------------------------------------------------------------------

  function InboxOf(s: State, i: nat): seq<Message> {
    if i < |s.procs| then s.procs[i].inbox else []
  }

  /** What a step puts in the inbox of slot i. */
  function Sent(s: State, step: Step, i: nat): seq<Message> {
    if step.Send? && Sized(s) && Accepts(s, step.dst) && Find(s.procs, step.dst) == i then [Kept(step.msg)] else []
  }

  /** What the process in slot i receives in a step. */
  function Got(s: State, step: Step, i: nat): seq<Message> {
    if (step.Receive? || step.ReceiveNow?) && s.current == i < |s.procs| && s.procs[i].mailbox && s.procs[i].inbox != []
    then [s.procs[i].inbox[0]] else []
  }

  /** The step neither ends the process in slot i nor puts a new one there. */
  predicate Spares(s: State, step: Step, i: nat) {
    !(step.Exit? && s.current == i) && step != Abort(i) && !(step.Create? && Free(s.procs) == i)
  }

  predicate SameInboxes(s: State, t: State) {
    |s.procs| == |t.procs| && forall i :: 0 <= i < |s.procs| ==> t.procs[i].inbox == s.procs[i].inbox
  }

  lemma SweepInboxes(s: State, scan: Scan)
    requires Queued(s)
    ensures Queued(Sweep(s, scan, 0)) && SameInboxes(s, Sweep(s, scan, 0))
  {
    hide Queued, Due, Sweep;
    SweepEffect(s, scan, 0);
    QueuedSized(s); QueuedSized(Sweep(s, scan, 0));
  }

  lemma ResumeInboxes(s: State)
    requires Queued(s)
    ensures SameInboxes(s, Resume(s))
  {
  }

  lemma ReleaseInboxes(s: State)
    requires Queued(s) && 0 <= s.current < SLOTS
    ensures SameInboxes(s, Release(s))
  {
    QueuedSized(s);
    hide Queued;
  }

  /** The timer, the switch and the idle loop leave every inbox alone. */
  lemma ScansSpare(s: State, step: Step)
    requires Enabled(s, step) && (step.Tick? || step.Yield? || step.Idle?)
    ensures SameInboxes(s, Do(s, step))
  {
    hide Sweep, Queued, Resume, Release;
    if step.Tick? {
      var u := s.(uptime := (s.uptime + 1) % TWO64);
      QueuedKeep(s, u);
      SweepInboxes(u, Sleepers);
      SweepInboxes(Sweep(u, Sleepers, 0), Waiters);
    } else if step.Yield? {
      var r := Release(s);
      ReleaseInboxes(s);
      QueuedSized(r);
      SweepInboxes(r, Waiters);
      ResumeInboxes(Sweep(r, Waiters, 0));
    } else {
      SweepInboxes(s, Sleepers);
      SweepInboxes(Sweep(s, Sleepers, 0), Waiters);
      ResumeInboxes(Sweep(Sweep(s, Sleepers, 0), Waiters, 0));
    }
  }

  lemma WakeInboxes(s: State, pids: seq<nat>)
    requires Queued(s) && Named(s.procs)
    ensures SameInboxes(s, WakeAll(s, pids))
  {
    hide Queued, Named, WakeAll;
    QueuedSized(s);
    WakeEffect(s, pids);
    QueuedSized(WakeAll(s, pids));
  }

  lemma DieInboxes(s: State, d: nat, code: int, i: nat)
    requires Inv(s) && MayDie(s, d) && i != d
    ensures InboxOf(Die(s, d, code), i) == InboxOf(s, i)
  {
    hide Inv, Die, Queued;
    InvParts(s);
    QueuedSized(s);
    DieEffect(s, d, code);
    QueuedSized(Die(s, d, code));
  }

  /** So do unlocking, posting and the end of another process. */
  lemma WakesSpare(s: State, step: Step, i: nat)
    requires Inv(s) && Enabled(s, step) && (step.MutexUnlock? || step.SemPost? || step.Abort? || step.Exit?)
    requires Spares(s, step, i)
    ensures InboxOf(Do(s, step), i) == InboxOf(s, i)
  {
    hide Inv, WakeAll, Die, Queued, Named;
    InvParts(s);
    match step
    case SemPost(k) => WakeInboxes(s, s.sems[k].waiters);
    case MutexUnlock(m) => WakeInboxes(s, s.mutexes[m].waiters);
    case Abort(slot) => DieInboxes(s, slot, -1, i);
    case Exit(code) => DieInboxes(s, s.current, code, i);
  }

  /** And every other step that is neither a send nor a receive. */
  lemma CallsSpare(s: State, step: Step, i: nat)
    requires Enabled(s, step) && Spares(s, step, i)
    requires !step.Tick? && !step.Yield? && !step.Idle?
    requires !step.MutexUnlock? && !step.SemPost? && !step.Abort? && !step.Exit?
    requires !step.Send? && !step.Receive? && !step.ReceiveNow?
    ensures InboxOf(Do(s, step), i) == InboxOf(s, i)
  {
    hide Queued, Find;
  }

  lemma SendAppends(s: State, step: Step, i: nat)
    requires Enabled(s, step) && step.Send?
    ensures InboxOf(Do(s, step), i) == InboxOf(s, i) + Sent(s, step, i)
  {
    hide Queued, Find;
  }

  lemma ReceiveTakes(s: State, step: Step, i: nat)
    requires Enabled(s, step) && (step.Receive? || step.ReceiveNow?)
    ensures Got(s, step, i) + InboxOf(Do(s, step), i) == InboxOf(s, i)
  {
    hide Queued, Sized;
  }

  /** No step but a send and a receive of its own touches an inbox. */
  lemma InboxStep(s: State, step: Step, i: nat)
    requires Inv(s) && Enabled(s, step) && Spares(s, step, i)
    ensures InboxOf(s, i) + Sent(s, step, i) == Got(s, step, i) + InboxOf(Do(s, step), i)
  {
    hide Do, Inv, Enabled, Spares;
    if step.Tick? || step.Yield? || step.Idle? {
      ScansSpare(s, step);
    } else if step.MutexUnlock? || step.SemPost? || step.Abort? || step.Exit? {
      WakesSpare(s, step, i);
    } else if step.Send? {
      SendAppends(s, step, i);
    } else if step.Receive? || step.ReceiveNow? {
      ReceiveTakes(s, step, i);
    } else {
      CallsSpare(s, step, i);
    }
  }

  /** Messages put in the inbox of slot i by steps j up to k, oldest first. */
  function AllSent(trace: seq<State>, steps: seq<Step>, i: nat, j: nat, k: nat): seq<Message>
    requires j <= k <= |steps| && k <= |trace|
  {
    if j == k then [] else AllSent(trace, steps, i, j, k - 1) + Sent(trace[k - 1], steps[k - 1], i)
  }

  /** Messages received by the process in slot i in steps j up to k, oldest first. */
  function AllGot(trace: seq<State>, steps: seq<Step>, i: nat, j: nat, k: nat): seq<Message>
    requires j <= k <= |steps| && k <= |trace|
  {
    if j == k then [] else AllGot(trace, steps, i, j, k - 1) + Got(trace[k - 1], steps[k - 1], i)
  }

  /** Over any stretch of any run in which the process lives, no message is lost, repeated or
      overtaken: what was in its inbox and what was accepted is what it received and what is left. */
  lemma {:induction false} MessagesInOrder(trace: seq<State>, steps: seq<Step>, i: nat, j: nat, k: nat)
    requires Run(trace, steps) && Booted(trace[0]) && j <= k < |trace|
    requires forall n :: j <= n < k ==> Spares(trace[n], steps[n], i)
    ensures InboxOf(trace[j], i) + AllSent(trace, steps, i, j, k) ==
        AllGot(trace, steps, i, j, k) + InboxOf(trace[k], i)
    decreases k
  {
    hide Inv, Enabled, Do, Booted, Sent, Got, Spares, InboxOf;
    if j >= k {
    } else {
      var l := k - 1;
      MessagesInOrder(trace, steps, i, j, l);
      RunKeeps(trace, steps, l);
      assert Enabled(trace[l], steps[l]) && trace[l + 1] == Do(trace[l], steps[l]);
      assert Spares(trace[l], steps[l], i);
      InboxStep(trace[l], steps[l], i);
      Shuffle(InboxOf(trace[j], i), AllSent(trace, steps, i, j, l), AllGot(trace, steps, i, j, l), InboxOf(trace[l], i),
              Sent(trace[l], steps[l], i), Got(trace[l], steps[l], i), InboxOf(trace[k], i));
    }
  }

  lemma Shuffle(a: seq<Message>, sent: seq<Message>, got: seq<Message>, b: seq<Message>, s: seq<Message>,
      g: seq<Message>, c: seq<Message>)
    requires a + sent == got + b && b + s == g + c
    ensures a + (sent + s) == (got + g) + c
  {
    assert a + (sent + s) == (a + sent) + s;
    assert (got + b) + s == got + (b + s);
    assert got + (g + c) == (got + g) + c;
  }
}
