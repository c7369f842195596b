/** Locks, semaphores, messages, waitpid, sleep and exit as steps of the scheduler's machine,
    and the invariant that no run of them breaks. */
module Blocking {
  import opened Words
  import opened Sched

  // ----- what holds of every process --------------------------------------------------------------

  predicate Lives(ps: seq<Proc>, pid: nat) {
    exists i :: 0 <= i < |ps| && ps[i].pid == pid && ps[i].status != Unused && ps[i].status != Zombie
  }

  predicate Parked(ps: seq<Proc>, pid: nat, at: Point) {
    exists i :: 0 <= i < |ps| && ps[i].pid == pid && ps[i].status == Blocked && ps[i].at == at
  }

  /** The fields of a process agree with what it is doing. */
  predicate Flags(p: Proc, nextPid: nat) {
    && (p.status == Unused <==> p.pid == 0) && p.pid < nextPid && p.intent < CLASSES
    && (p.status == Blocked ==> !p.at.User?)
    && (p.at.Fresh? ==> p.status == Blocked)
    && (p.status == Unused || p.status == Zombie ==> p.at.User?)
    && p.blockedOn == (if p.status == Blocked && p.at.Reap? then p.at.child else 0)
    && p.wakeTick == (if p.status == Blocked && p.at.Sleep? then p.at.due % TWO64 else 0)
    && (p.waiting <==> p.status == Blocked && p.at.Recv?)
    && (p.waiting ==> p.mailbox && p.inbox == [])
    && (p.at.Reap? ==> 0 < p.at.child < nextPid)
    && |p.inbox| <= DEPTH
  }

  /** A blocked process has a reason that still stands, and whoever ends the reason can find it. */
  predicate Cause(s: State, p: Proc) {
    && (p.at.Lock? ==> p.at.mutex < |s.mutexes|)
    && (p.at.Lock? && p.status == Blocked ==> s.mutexes[p.at.mutex].locked && p.pid in s.mutexes[p.at.mutex].waiters)
    && (p.at.Wait? ==> p.at.sem < |s.sems|)
    && (p.at.Wait? && p.status == Blocked ==> s.sems[p.at.sem].count <= 0 && p.pid in s.sems[p.at.sem].waiters)
    && (p.at.Reap? ==> (p.status == Blocked <==> Lives(s.procs, p.at.child)))
  }

  predicate Waiting(ps: seq<Proc>, waiters: seq<nat>, at: Point) {
    && |waiters| <= MAX_WAITERS
    && (forall i, j :: 0 <= i < j < |waiters| ==> waiters[i] != waiters[j])
    && (forall i :: 0 <= i < |waiters| ==> Parked(ps, waiters[i], at))
  }

  predicate MutexOk(s: State, m: nat)
    requires m < |s.mutexes|
  {
    Waiting(s.procs, s.mutexes[m].waiters, Lock(m)) && (!s.mutexes[m].locked ==> s.mutexes[m].waiters == [])
  }

  predicate SemOk(s: State, k: nat)
    requires k < |s.sems|
  {
    var x := s.sems[k];
    && Waiting(s.procs, x.waiters, Wait(k)) && (x.count > 0 ==> x.waiters == [])
    && x.count == x.initial + x.posts - x.waits && (x.initial >= 0 ==> x.count >= 0)
  }

  predicate SyncOk(s: State) {
    && (forall m :: 0 <= m < |s.mutexes| ==> MutexOk(s, m))
    && (forall k :: 0 <= k < |s.sems| ==> SemOk(s, k))
  }

  predicate ProcsOk(s: State)
    requires Sized(s)
  {
    forall i :: 0 <= i < SLOTS ==>
      Flags(s.procs[i], s.nextPid) && Cause(s, s.procs[i]) && (s.procs[i].status == Running ==> i == s.current)
  }

  predicate Inv(s: State) {
    && Queued(s) && Named(s.procs) && -1 <= s.current < SLOTS
    && (s.current >= 0 ==> s.procs[s.current].status != Unused)
    && ProcsOk(s) && SyncOk(s)
  }

  // ----- the steps --------------------------------------------------------------------------------

  datatype Step =
    | Tick | Yield | Idle
    | MutexLock(m: nat) | MutexTryLock(m: nat) | MutexUnlock(m: nat)
    | SemWait(k: nat) | SemPost(k: nat)
    | Send(dst: nat, msg: Message) | Receive | ReceiveNow
    | Waitpid(pid: nat) | ReapChild
    | Nap(ticks: nat) | WakeUp
    | Create(intent: nat, mailbox: bool) | Start(slot: nat) | Abort(slot: nat) | Exit(code: int)

  predicate OnCpu(s: State) {
    0 <= s.current < |s.procs| && s.procs[s.current].status == Running
  }

  predicate At(s: State, at: Point)
    requires OnCpu(s)
  {
    s.procs[s.current].at == at
  }

  /** A child that proc_create made and nobody has started. */
  predicate NotStarted(s: State, slot: nat) {
    slot < |s.procs| && s.procs[slot].status == Blocked && s.procs[slot].at == Fresh
  }

  /** What can happen next: interrupts at any time, the switch whenever a process is current, calls
      only by a running process at the point that makes them. */
  predicate Enabled(s: State, step: Step) {
    && Sized(s) && Queued(s)
    && match step
       case Tick | Send(_, _) => true
       case Yield => 0 <= s.current < SLOTS
       case Idle => s.current == -1
       case MutexLock(m) => m < |s.mutexes| && OnCpu(s) && (At(s, User) || At(s, Lock(m)))
       case MutexTryLock(m) => m < |s.mutexes| && OnCpu(s) && At(s, User)
       case MutexUnlock(m) => m < |s.mutexes| && OnCpu(s) && At(s, User)
       case SemWait(k) => k < |s.sems| && OnCpu(s) && (At(s, User) || At(s, Wait(k)))
       case SemPost(k) => k < |s.sems| && OnCpu(s) && At(s, User)
       case Receive => OnCpu(s) && (At(s, User) || At(s, Recv))
       case ReceiveNow => OnCpu(s) && At(s, User)
       case Waitpid(_) => OnCpu(s) && At(s, User)
       case ReapChild => OnCpu(s) && s.procs[s.current].at.Reap?
       case Nap(ticks) => OnCpu(s) && At(s, User) && ticks < TWO64
       case WakeUp => OnCpu(s) && s.procs[s.current].at.Sleep?
       case Create(intent, _) => intent < CLASSES && OnCpu(s) && At(s, User)
       case Start(slot) => NotStarted(s, slot) && OnCpu(s) && At(s, User)
       case Abort(slot) => NotStarted(s, slot) && OnCpu(s) && At(s, User)
       case Exit(_) => OnCpu(s) && At(s, User)
  }

  /** The current process becomes p. */
  function Cur(s: State, p: Proc): State
    requires 0 <= s.current < |s.procs|
  {
    s.(procs := s.procs[s.current := p])
  }

  function TickStep(s: State): State
    requires Sized(s)
  {
    Sweep(Sweep(s.(uptime := (s.uptime + 1) % TWO64), Sleepers, 0), Waiters, 0)
  }

  /** sched_yield up to the choice of the next process. */
  function Release(s: State): (t: State)
    requires Queued(s) && 0 <= s.current < SLOTS
    ensures Queued(t)
  {
    var p := s.procs[s.current];
    if p.status == Running then
      PutQueued(s, s.current, p.(status := Ready));
      Put(s, s.current, p.(status := Ready)).(current := -1)
    else s.(current := -1)
  }

  function YieldStep(s: State): State
    requires Queued(s) && 0 <= s.current < SLOTS
  {
    var t := Release(s);
    SweepEffect(t, Waiters, 0);
    Resume(Sweep(t, Waiters, 0))
  }

  /** One round of the idle loop. */
  function IdleStep(s: State): State
    requires Queued(s)
  {
    SweepEffect(s, Sleepers, 0);
    var t := Sweep(s, Sleepers, 0);
    SweepEffect(t, Waiters, 0);
    Resume(Sweep(t, Waiters, 0))
  }

  function LockStep(s: State, m: nat): State
    requires OnCpu(s) && m < |s.mutexes|
  {
    var p, x := s.procs[s.current], s.mutexes[m];
    if !x.locked then Cur(s, p.(at := User)).(mutexes := s.mutexes[m := x.(locked := true, owner := p.pid)])
    else if |x.waiters| < MAX_WAITERS then
      Cur(s, p.(status := Blocked, at := Lock(m))).(mutexes := s.mutexes[m := x.(waiters := x.waiters + [p.pid])])
    else Cur(s, p.(at := Lock(m)))
  }

  function TryLockStep(s: State, m: nat): State
    requires OnCpu(s) && m < |s.mutexes|
  {
    var x := s.mutexes[m];
    if x.locked then s else s.(mutexes := s.mutexes[m := x.(locked := true, owner := s.procs[s.current].pid)])
  }

  function UnlockStep(s: State, m: nat): State
    requires Sized(s) && m < |s.mutexes|
  {
    var x := s.mutexes[m];
    WakeAll(s, x.waiters).(mutexes := s.mutexes[m := Mutex(false, 0, [])])
  }

  function SemWaitStep(s: State, k: nat): State
    requires OnCpu(s) && k < |s.sems|
  {
    var p, x := s.procs[s.current], s.sems[k];
    if x.count > 0 then Cur(s, p.(at := User)).(sems := s.sems[k := x.(count := x.count - 1, waits := x.waits + 1)])
    else if |x.waiters| < MAX_WAITERS then
      Cur(s, p.(status := Blocked, at := Wait(k))).(sems := s.sems[k := x.(waiters := x.waiters + [p.pid])])
    else Cur(s, p.(at := Wait(k)))
  }

  function SemPostStep(s: State, k: nat): State
    requires Sized(s) && k < |s.sems|
  {
    var x := s.sems[k];
    WakeAll(s, x.waiters).(sems := s.sems[k := x.(count := x.count + 1, posts := x.posts + 1, waiters := [])])
  }

  /** ipc_send: a full or missing inbox takes nothing, and data past the slot's size is dropped. */
  function Accepts(s: State, dst: nat): bool
    requires Sized(s)
  {
    var i := Find(s.procs, dst);
    i < SLOTS && s.procs[i].status != Zombie && s.procs[i].mailbox && |s.procs[i].inbox| < DEPTH
  }

  function SendStep(s: State, dst: nat, msg: Message): State
    requires Sized(s)
  {
    if !Accepts(s, dst) then s
    else
      var i := Find(s.procs, dst);
      var p := s.procs[i].(inbox := s.procs[i].inbox + [Kept(msg)]);
      if p.waiting then Put(s, i, p.(waiting := false, status := Ready)) else s.(procs := s.procs[i := p])
  }

  function ReceiveStep(s: State, now: bool): State
    requires OnCpu(s)
  {
    var p := s.procs[s.current];
    if !p.mailbox then Cur(s, p.(at := User))
    else if p.inbox != [] then Cur(s, p.(inbox := p.inbox[1..], at := User))
    else if now then s
    else Cur(s, p.(waiting := true, status := Blocked, at := Recv))
  }

  /** sys_waitpid_impl up to the switch. */
  function WaitpidStep(s: State, pid: nat): State
    requires OnCpu(s)
  {
    var p := s.procs[s.current];
    var i := Find(s.procs, pid);
    if i == |s.procs| then s
    else if s.procs[i].status != Zombie then Cur(s, p.(blockedOn := pid, status := Blocked, at := Reap(pid)))
    else Cur(s, p.(at := Reap(pid)))
  }

  /** sys_waitpid_impl after the switch: the slot of the child is given up, whatever its state. */
  function ReapStep(s: State): State
    requires OnCpu(s) && s.procs[s.current].at.Reap?
  {
    var p := s.procs[s.current];
    var i := Find(s.procs, p.at.child);
    if i == |s.procs| then Cur(s, p.(at := User))
    else
      var u := Cur(s, p.(at := User));
      u.(procs := u.procs[i := u.procs[i].(status := Unused, pid := 0)])
  }

  /** The value sys_waitpid_impl returns then. */
  function ReapCode(s: State): int
    requires OnCpu(s) && s.procs[s.current].at.Reap?
  {
    var i := Find(s.procs, s.procs[s.current].at.child);
    if i == |s.procs| then -1 else s.procs[i].code
  }

  function NapStep(s: State, ticks: nat): State
    requires OnCpu(s)
  {
    if ticks == 0 then s
    else
      var due := s.uptime + ticks;
      Cur(s, s.procs[s.current].(wakeTick := due % TWO64, status := Blocked, at := Sleep(due)))
  }

  /** The first unused slot, or the table's length. */
  function Free(ps: seq<Proc>): (i: nat)
    ensures i <= |ps| && (i < |ps| ==> ps[i].status == Unused)
    ensures forall j :: 0 <= j < i ==> ps[j].status != Unused
  {
    if ps == [] then 0 else if ps[0].status == Unused then 0 else 1 + Free(ps[1..])
  }

  function CreateStep(s: State, intent: nat, mailbox: bool): State
    requires Sized(s)
  {
    var i := Free(s.procs);
    if i == SLOTS then s
    else s.(procs := s.procs[i := Proc(s.nextPid, Blocked, intent, 0, 0, false, mailbox, [], Fresh, 0)],
      nextPid := s.nextPid + 1)
  }

  /** proc_exit on slot i. */
  function Die(s: State, i: nat, code: int): State
    requires Sized(s) && i < SLOTS
  {
    var p := s.procs[i];
    var z := p.(status := Zombie, mailbox := false, inbox := [], at := User, code := code);
    Sweep(s.(procs := s.procs[i := z]), ExitOf(p.pid), 0)
  }

  function Do(s: State, step: Step): State
    requires Enabled(s, step)
  {
    match step
    case Tick => TickStep(s)
    case Yield => YieldStep(s)
    case Idle => IdleStep(s)
    case MutexLock(m) => LockStep(s, m)
    case MutexTryLock(m) => TryLockStep(s, m)
    case MutexUnlock(m) => UnlockStep(s, m)
    case SemWait(k) => SemWaitStep(s, k)
    case SemPost(k) => SemPostStep(s, k)
    case Send(dst, msg) => SendStep(s, dst, msg)
    case Receive => ReceiveStep(s, false)
    case ReceiveNow => ReceiveStep(s, true)
    case Waitpid(pid) => WaitpidStep(s, pid)
    case ReapChild => ReapStep(s)
    case Nap(ticks) => NapStep(s, ticks)
    case WakeUp => Cur(s, s.procs[s.current].(at := User))
    case Create(intent, mailbox) => CreateStep(s, intent, mailbox)
    case Start(slot) => Put(s, slot, s.procs[slot].(status := Ready, at := User))
    case Abort(slot) => Die(s, slot, -1)
    case Exit(code) => Die(s, s.current, code)
  }

  // ----- what a step may leave alone --------------------------------------------------------------

  predicate Dead(p: Proc) {
    p.status == Unused || p.status == Zombie
  }

  predicate SameLiving(ps: seq<Proc>, qs: seq<Proc>) {
    && |ps| == |qs|
    && forall i :: 0 <= i < |ps| ==> Dead(ps[i]) == Dead(qs[i]) && (!Dead(ps[i]) ==> ps[i].pid == qs[i].pid)
  }

  lemma LivesKeep(ps: seq<Proc>, qs: seq<Proc>, pid: nat)
    requires SameLiving(ps, qs)
    ensures Lives(ps, pid) == Lives(qs, pid)
  {
    if Lives(ps, pid) {
      var i :| 0 <= i < |ps| && ps[i].pid == pid && !Dead(ps[i]);
      assert qs[i].pid == pid && !Dead(qs[i]);
    }
    if Lives(qs, pid) {
      var i :| 0 <= i < |qs| && qs[i].pid == pid && !Dead(qs[i]);
      assert ps[i].pid == pid && !Dead(ps[i]);
    }
  }

  /** Processes parked on a mutex or a semaphore stay as they are. */
  predicate StillParked(ps: seq<Proc>, qs: seq<Proc>) {
    |ps| == |qs| && forall i :: 0 <= i < |ps| && ps[i].status == Blocked && (ps[i].at.Lock? || ps[i].at.Wait?) ==>
      qs[i].pid == ps[i].pid && qs[i].status == Blocked && qs[i].at == ps[i].at
  }

  lemma WaitingKeep(ps: seq<Proc>, qs: seq<Proc>, waiters: seq<nat>, at: Point)
    requires StillParked(ps, qs) && Waiting(ps, waiters, at) && (at.Lock? || at.Wait?)
    ensures Waiting(qs, waiters, at)
  {
    forall k | 0 <= k < |waiters| ensures Parked(qs, waiters[k], at) {
      assert Parked(ps, waiters[k], at);
      var i :| 0 <= i < |ps| && ps[i].pid == waiters[k] && ps[i].status == Blocked && ps[i].at == at;
      assert qs[i].pid == ps[i].pid;
    }
  }

  lemma SyncKeep(s: State, t: State)
    requires SyncOk(s) && StillParked(s.procs, t.procs) && t.mutexes == s.mutexes && t.sems == s.sems
    ensures SyncOk(t)
  {
    hide Waiting, StillParked;
    forall m | 0 <= m < |t.mutexes| ensures MutexOk(t, m) {
      assert MutexOk(s, m);
      WaitingKeep(s.procs, t.procs, s.mutexes[m].waiters, Lock(m));
    }
    forall k | 0 <= k < |t.sems| ensures SemOk(t, k) {
      assert SemOk(s, k);
      WaitingKeep(s.procs, t.procs, s.sems[k].waiters, Wait(k));
    }
  }

  lemma CauseKeep(s: State, t: State, p: Proc)
    requires Cause(s, p) && SameLiving(s.procs, t.procs) && t.mutexes == s.mutexes && t.sems == s.sems
    ensures Cause(t, p)
  {
    hide Lives;
    if p.at.Reap? { LivesKeep(s.procs, t.procs, p.at.child); }
  }

  lemma NamedKeep(ps: seq<Proc>, qs: seq<Proc>)
    requires Named(ps) && SameNames(ps, qs)
    ensures Named(qs)
  {
  }

  /** A step that touches no lock and lets nobody be born, die or be reaped. */
  lemma InvFrame(s: State, t: State)
    requires Inv(s) && Queued(t) && t.nextPid == s.nextPid && t.mutexes == s.mutexes && t.sems == s.sems
    requires SameNames(s.procs, t.procs) && SameLiving(s.procs, t.procs) && StillParked(s.procs, t.procs)
    requires -1 <= t.current < SLOTS && (t.current >= 0 ==> t.procs[t.current].status != Unused)
    requires forall i :: 0 <= i < SLOTS ==>
        t.procs[i] == s.procs[i] || (Flags(t.procs[i], t.nextPid) && Cause(t, t.procs[i]))
    requires forall i :: 0 <= i < SLOTS && t.procs[i].status == Running ==> i == t.current
    ensures Inv(t)
  {
    hide Queued, Cause, Flags, SyncOk, SameLiving, StillParked, Named, SameNames;
    QueuedSized(s); QueuedSized(t);
    NamedKeep(s.procs, t.procs);
    SyncKeep(s, t);
    forall i | 0 <= i < SLOTS ensures Flags(t.procs[i], t.nextPid) && Cause(t, t.procs[i]) {
      if t.procs[i] == s.procs[i] { CauseKeep(s, t, s.procs[i]); }
    }
  }

  // ----- timer and switches ----------------------------------------------------------------------------

  lemma {:induction false} NoneDue(s: State, scan: Scan, k: nat)
    requires Sized(s) && k <= SLOTS && forall i :: 0 <= i < SLOTS ==> !Due(s, scan, s.procs[i])
    ensures Sweep(s, scan, k) == s
    decreases SLOTS - k
  {
    if k == SLOTS {
    } else {
      NoneDue(s, scan, k + 1);
    }
  }

  lemma LivesGone(ps: seq<Proc>, pid: nat)
    requires Named(ps)
    ensures Lives(ps, pid) <==> !Gone(ps, pid)
  {
    if Lives(ps, pid) {
      var i :| 0 <= i < |ps| && ps[i].pid == pid && ps[i].status != Unused && ps[i].status != Zombie;
      FindNamed(ps, i);
    }
    if !Gone(ps, pid) {
      var i := Find(ps, pid);
      assert ps[i].pid == pid && ps[i].status != Unused && ps[i].status != Zombie;
    }
  }

  /** Because exit wakes its waiters at once, the scan for waiters never finds one. */
  lemma WaitersIdle(s: State)
    requires Inv(s)
    ensures Sweep(s, Waiters, 0) == s
  {
    hide Gone, Lives, Queued, SyncOk;
    QueuedSized(s);
    forall i | 0 <= i < SLOTS ensures !Due(s, Waiters, s.procs[i]) {
      assert Flags(s.procs[i], s.nextPid) && Cause(s, s.procs[i]);
      if s.procs[i].at.Reap? { LivesGone(s.procs, s.procs[i].at.child); }
    }
    NoneDue(s, Waiters, 0);
  }

  lemma Sleeper(s: State, p: Proc)
    requires Flags(p, s.nextPid) && Due(s, Sleepers, p)
    ensures var q := Roused(Sleepers, p);
            Flags(q, s.nextPid) && Cause(s, q) && q.pid == p.pid && !Dead(p) && !Dead(q) && p.at.Sleep? &&
              q.at.Sleep? && q.status != Running
  {
  }

  /** Waking sleepers keeps the invariant and leaves no sleeper overdue. */
  lemma SleepersKeep(s: State)
    requires Inv(s)
    ensures var t := Sweep(s, Sleepers, 0); Inv(t) && t.current == s.current && Overdue(t) == {}
  {
    hide Queued, SyncOk, Named, Cause, Flags, Sweep, Due, Roused;
    QueuedSized(s);
    SweepEffect(s, Sleepers, 0);
    var t := Sweep(s, Sleepers, 0);
    QueuedSized(t);
    forall i | 0 <= i < SLOTS && t.procs[i] != s.procs[i]
      ensures Flags(t.procs[i], t.nextPid) && Cause(t, t.procs[i]) && t.procs[i].pid == s.procs[i].pid
      ensures !Dead(s.procs[i]) && !Dead(t.procs[i]) && s.procs[i].at.Sleep? && t.procs[i].status != Running
    {
      assert Flags(s.procs[i], s.nextPid);
      Sleeper(s, s.procs[i]);
      CauseSleep(t, t.procs[i]);
    }
    InvFrame(s, t);
    NoneOverdue(s, t);
  }

  lemma CauseSleep(s: State, p: Proc)
    requires p.at.Sleep?
    ensures Cause(s, p)
  {
  }

  lemma NoneOverdue(s: State, t: State)
    requires |s.procs| == |t.procs| == SLOTS && s.uptime == t.uptime
    requires forall i :: 0 <= i < SLOTS ==>
      t.procs[i] == if Due(s, Sleepers, s.procs[i]) then Roused(Sleepers, s.procs[i]) else s.procs[i]
    ensures Overdue(t) == {}
  {
  }

  /** Sleepers whose time has come. */
  function Overdue(s: State): set<nat> {
    set i: nat | i < |s.procs| && s.procs[i].status == Blocked && s.procs[i].wakeTick != 0 &&
      s.uptime >= s.procs[i].wakeTick
  }

  /** A tick keeps the invariant and leaves no sleeper overdue. */
  lemma TickKeeps(s: State)
    requires Inv(s)
    ensures Inv(TickStep(s)) && Overdue(TickStep(s)) == {}
  {
    hide Queued, SyncOk, Named, Cause, Sweep, Flags;
    QueuedSized(s);
    var u := s.(uptime := (s.uptime + 1) % TWO64);
    UptimeKeeps(s, u.uptime);
    SleepersKeep(u);
    WaitersIdle(Sweep(u, Sleepers, 0));
  }

  lemma UptimeKeeps(s: State, u: nat)
    requires Inv(s)
    ensures Inv(s.(uptime := u))
  {
    hide SyncOk, Named, Cause, Flags;
    var t := s.(uptime := u);
    assert Queued(t) by {
      forall c, k | 0 <= c < CLASSES && 0 <= k < |t.queues[c]| ensures Member(t, c, t.queues[c][k]) {
        assert Member(s, c, s.queues[c][k]);
      }
    }
    InvFrame(s, t);
  }

  /** Moving a process between READY and RUNNING, with whatever that does to the queues. */
  lemma MoveKeeps(s: State, t: State, i: nat)
    requires Inv(s) && Queued(t) && i < SLOTS && t.nextPid == s.nextPid && t.mutexes == s.mutexes && t.sems == s.sems
    requires s.procs[i].status == Running || s.procs[i].status == Ready
    requires || (t.procs == s.procs[i := s.procs[i].(status := Running)] && t.current == i && s.current == -1)
             || (t.procs == s.procs[i := s.procs[i].(status := Ready)] && t.current == -1 && s.current == i)
    ensures Inv(t)
  {
    hide Queued, SyncOk, Named, Cause;
    QueuedSized(s);
    assert Flags(s.procs[i], s.nextPid) && Cause(s, s.procs[i]);
    MoveCause(s, t, s.procs[i], t.procs[i]);
    InvFrame(s, t);
  }

  lemma MoveCause(s: State, t: State, p: Proc, q: Proc)
    requires Cause(s, p) && SameLiving(s.procs, t.procs) && t.mutexes == s.mutexes && t.sems == s.sems
    requires q == p.(status := q.status) && p.status != Blocked && q.status != Blocked
    ensures Cause(t, q)
  {
    hide Lives;
    if p.at.Reap? { LivesKeep(s.procs, t.procs, p.at.child); }
  }

  lemma ReleaseKeeps(s: State)
    requires Inv(s) && 0 <= s.current
    ensures Inv(Release(s)) && Release(s).current == -1
    ensures s.procs[s.current].status == Running ==> Pick(Release(s).queues) < CLASSES
  {
    hide Queued, SyncOk, Named, Cause, Flags;
    QueuedSized(s);
    var i, t := s.current, Release(s);
    QueuedSized(t);
    if s.procs[i].status == Running {
      PutQueued(s, i, s.procs[i].(status := Ready));
      MoveKeeps(s, t, i);
      assert t.queues[s.procs[i].intent] != [];
    } else {
      InvFrame(s, t);
    }
  }

  lemma ResumeKeeps(s: State)
    requires Inv(s) && s.current == -1
    ensures Inv(Resume(s))
  {
    hide SyncOk, Named, Cause, Flags;
    ResumeQueued(s);
    var c := Pick(s.queues);
    if c < CLASSES {
      var i := s.queues[c][0];
      assert Member(s, c, s.queues[c][0]);
      MoveKeeps(s, Resume(s), i);
    }
  }

  /** A switch keeps the invariant; the process that yields while RUNNING is READY in its queue, so
      there is always a next one and the branch for an empty machine is not taken. */
  lemma YieldKeeps(s: State)
    requires Inv(s) && 0 <= s.current
    ensures Inv(YieldStep(s))
    ensures s.procs[s.current].status == Running ==> YieldStep(s).current >= 0
  {
    hide SyncOk, Named, Cause, Flags, Sweep;
    ReleaseKeeps(s);
    WaitersIdle(Release(s));
    ResumeKeeps(Release(s));
    var t := Release(s);
    if Pick(t.queues) < CLASSES { assert Member(t, Pick(t.queues), t.queues[Pick(t.queues)][0]); }
  }

  lemma IdleKeeps(s: State)
    requires Inv(s) && s.current == -1
    ensures Inv(IdleStep(s))
  {
    hide SyncOk, Named, Cause, Flags, Sweep, Queued;
    QueuedSized(s);
    SleepersKeep(s);
    var t := Sweep(s, Sleepers, 0);
    WaitersIdle(t);
    ResumeKeeps(t);
  }

  // ----- messages, waiting for children, sleeping -------------------------------------------------------

  /** The running process changes itself, and may block. */
  lemma CurKeeps(s: State, p: Proc)
    requires Inv(s) && OnCpu(s) && (p.status == Running || p.status == Blocked)
    requires p.pid == s.procs[s.current].pid && p.intent == s.procs[s.current].intent
    requires Flags(p, s.nextPid) && Cause(Cur(s, p), p)
    ensures Inv(Cur(s, p))
  {
    hide Queued, SyncOk, Named, Cause, Flags;
    QueuedSized(s);
    SetQueued(s, s.current, p);
    var t := Cur(s, p);
    QueuedSized(t);
    InvFrame(s, t);
  }

  lemma Here(s: State)
    requires Inv(s) && OnCpu(s)
    ensures Flags(s.procs[s.current], s.nextPid) && Cause(s, s.procs[s.current])
  {
    hide Queued, SyncOk, Named, Cause, Flags;
  }

  lemma ReceiveKeeps(s: State, now: bool)
    requires Inv(s) && OnCpu(s) && (At(s, User) || At(s, Recv))
    ensures Inv(ReceiveStep(s, now))
  {
    hide Queued, SyncOk, Named, Inv, Lives;
    Here(s);
    var p := s.procs[s.current];
    if !p.mailbox {
      CurKeeps(s, p.(at := User));
    } else if p.inbox != [] {
      CurKeeps(s, p.(inbox := p.inbox[1..], at := User));
    } else if !now {
      CurKeeps(s, p.(waiting := true, status := Blocked, at := Recv));
    }
  }

  lemma WaitpidKeeps(s: State, pid: nat)
    requires Inv(s) && OnCpu(s) && At(s, User)
    ensures Inv(WaitpidStep(s, pid))
  {
    hide Queued, SyncOk, Lives, Named;
    QueuedSized(s);
    Here(s);
    var i, p := Find(s.procs, pid), s.procs[s.current];
    if i < SLOTS {
      assert Flags(s.procs[i], s.nextPid);
      var q := if s.procs[i].status == Zombie then p.(at := Reap(pid))
               else p.(blockedOn := pid, status := Blocked, at := Reap(pid));
      LivesGone(s.procs, pid);
      LivesKeep(s.procs, Cur(s, q).procs, pid);
      CurKeeps(s, q);
    }
  }

  lemma NapKeeps(s: State, ticks: nat)
    requires Inv(s) && OnCpu(s) && At(s, User)
    ensures Inv(NapStep(s, ticks))
  {
    hide Queued, SyncOk, Named, Inv, Lives;
    Here(s);
    var p := s.procs[s.current];
    if ticks != 0 {
      CurKeeps(s, p.(wakeTick := (s.uptime + ticks) % TWO64, status := Blocked, at := Sleep(s.uptime + ticks)));
    }
  }

  lemma WakeUpKeeps(s: State)
    requires Inv(s) && OnCpu(s) && s.procs[s.current].at.Sleep?
    ensures Inv(Cur(s, s.procs[s.current].(at := User)))
  {
    hide Queued, SyncOk, Named, Inv, Lives;
    Here(s);
    CurKeeps(s, s.procs[s.current].(at := User));
  }

  lemma SendKeeps(s: State, dst: nat, msg: Message)
    requires Inv(s)
    ensures Inv(SendStep(s, dst, msg))
  {
    hide Queued, SyncOk, Named, Lives;
    QueuedSized(s);
    if Accepts(s, dst) {
      var i := Find(s.procs, dst);
      assert Flags(s.procs[i], s.nextPid) && Cause(s, s.procs[i]);
      var t, p := SendStep(s, dst, msg), s.procs[i];
      if p.waiting { PutQueued(s, i, t.procs[i]); } else { SetQueued(s, i, t.procs[i]); }
      SendOne(s, t, i);
    }
  }

  /** One more message in one inbox, and a waiting receiver made READY. */
  lemma SendOne(s: State, t: State, i: nat)
    requires Inv(s) && Queued(t) && i < SLOTS && SameRest(s, t)
    requires Flags(t.procs[i], t.nextPid) && t.procs == s.procs[i := t.procs[i]]
    requires s.procs[i].status == t.procs[i].status ||
        (s.procs[i].status == Blocked && s.procs[i].at.Recv? && t.procs[i].status == Ready)
    requires s.procs[i].pid == t.procs[i].pid && s.procs[i].at == t.procs[i].at
    ensures Inv(t)
  {
    hide Queued, SyncOk, Named, Cause, Flags;
    QueuedSized(s);
    assert Cause(s, s.procs[i]);
    SendCause(s, t, s.procs[i], t.procs[i]);
    InvFrame(s, t);
  }

  lemma SendCause(s: State, t: State, p: Proc, q: Proc)
    requires Cause(s, p) && SameLiving(s.procs, t.procs) && t.mutexes == s.mutexes && t.sems == s.sems
    requires q.pid == p.pid && q.at == p.at && (q.status == p.status || p.at.Recv?)
    ensures Cause(t, q)
  {
    hide Lives;
    if p.at.Reap? { LivesKeep(s.procs, t.procs, p.at.child); }
  }

  lemma StartKeeps(s: State, i: nat)
    requires Inv(s) && i < SLOTS && s.procs[i].status == Blocked && s.procs[i].at == Fresh
    ensures Inv(Put(s, i, s.procs[i].(status := Ready, at := User)))
  {
    hide Queued, SyncOk, Named, Lives;
    QueuedSized(s);
    var p := s.procs[i].(status := Ready, at := User);
    assert Flags(s.procs[i], s.nextPid);
    PutQueued(s, i, p);
    var t := Put(s, i, p);
    assert Cause(t, p);
    hide Cause;
    InvFrame(s, t);
  }

  // ----- locks and semaphores ---------------------------------------------------------------------------

  /** Processes parked at one point stay as they are. */
  predicate StillAt(ps: seq<Proc>, qs: seq<Proc>, at: Point) {
    |ps| == |qs| && forall i :: 0 <= i < |ps| && ps[i].status == Blocked && ps[i].at == at ==>
      qs[i].pid == ps[i].pid && qs[i].status == Blocked && qs[i].at == at
  }

  lemma WaitingStays(ps: seq<Proc>, qs: seq<Proc>, waiters: seq<nat>, at: Point)
    requires StillAt(ps, qs, at) && Waiting(ps, waiters, at)
    ensures Waiting(qs, waiters, at)
  {
    forall k | 0 <= k < |waiters| ensures Parked(qs, waiters[k], at) {
      assert Parked(ps, waiters[k], at);
      var i :| 0 <= i < |ps| && ps[i].pid == waiters[k] && ps[i].status == Blocked && ps[i].at == at;
      assert qs[i].pid == ps[i].pid;
    }
  }

  /** A step that changes locks, from the conditions on the new state. */
  lemma InvSync(s: State, t: State)
    requires Inv(s) && Queued(t) && t.nextPid == s.nextPid && t.current == s.current && SyncOk(t)
    requires SameNames(s.procs, t.procs)
    requires forall i :: 0 <= i < SLOTS ==> Flags(t.procs[i], t.nextPid) && Cause(t, t.procs[i])
    requires forall i :: 0 <= i < SLOTS && t.procs[i].status == Running ==> i == t.current
    ensures Inv(t)
  {
    hide Queued, SyncOk, Named, Cause, Flags;
    QueuedSized(s); QueuedSized(t);
    NamedKeep(s.procs, t.procs);
  }

  /** Taking a free mutex. */
  lemma TakeKeeps(s: State, m: nat, owner: nat)
    requires Inv(s) && m < |s.mutexes| && !s.mutexes[m].locked
    ensures Inv(s.(mutexes := s.mutexes[m := s.mutexes[m].(locked := true, owner := owner)]))
  {
    hide Queued, Named, Flags, Lives, Waiting;
    var t := s.(mutexes := s.mutexes[m := s.mutexes[m].(locked := true, owner := owner)]);
    QueuedSized(s);
    QueuedKeep(s, t);
    assert SyncOk(t) by {
      forall k | 0 <= k < |t.mutexes| ensures MutexOk(t, k) { assert MutexOk(s, k); }
      forall k | 0 <= k < |t.sems| ensures SemOk(t, k) { assert SemOk(s, k); }
    }
    forall i | 0 <= i < SLOTS ensures Flags(t.procs[i], t.nextPid) && Cause(t, t.procs[i]) {
      assert Flags(s.procs[i], s.nextPid) && Cause(s, s.procs[i]);
    }
    InvSync(s, t);
  }

  lemma QueuedKeep(s: State, t: State)
    requires Queued(s) && t.procs == s.procs && t.queues == s.queues && t.arrived == s.arrived && t.clock == s.clock
    ensures Queued(t)
  {
    forall c, k | 0 <= c < CLASSES && 0 <= k < |t.queues[c]| ensures Member(t, c, t.queues[c][k]) {
      assert Member(s, c, s.queues[c][k]);
    }
  }

  /** Taking one from a positive semaphore. */
  lemma DownKeeps(s: State, k: nat)
    requires Inv(s) && k < |s.sems| && s.sems[k].count > 0
    ensures Inv(s.(sems := s.sems[k := s.sems[k].(count := s.sems[k].count - 1, waits := s.sems[k].waits + 1)]))
  {
    hide Queued, Named, Flags, Lives, Waiting;
    var t := s.(sems := s.sems[k := s.sems[k].(count := s.sems[k].count - 1, waits := s.sems[k].waits + 1)]);
    QueuedSized(s);
    QueuedKeep(s, t);
    assert SyncOk(t) by {
      forall m | 0 <= m < |t.mutexes| ensures MutexOk(t, m) { assert MutexOk(s, m); }
      forall j | 0 <= j < |t.sems| ensures SemOk(t, j) { assert SemOk(s, j); }
    }
    forall i | 0 <= i < SLOTS ensures Flags(t.procs[i], t.nextPid) && Cause(t, t.procs[i]) {
      assert Flags(s.procs[i], s.nextPid) && Cause(s, s.procs[i]);
      assert SemOk(s, k);
    }
    InvSync(s, t);
  }

  /** The running process is registered nowhere. */
  lemma NotParked(ps: seq<Proc>, i: nat, at: Point)
    requires Named(ps) && i < |ps| && ps[i].status == Running
    ensures !Parked(ps, ps[i].pid, at)
  {
  }

  /** The running process joins a list of waiters. */
  lemma Joins(ps: seq<Proc>, i: nat, p: Proc, waiters: seq<nat>, at: Point)
    requires Named(ps) && i < |ps| && ps[i].status == Running && Waiting(ps, waiters, at) && |waiters| < MAX_WAITERS
    requires p.pid == ps[i].pid && p.status == Blocked && p.at == at
    ensures Waiting(ps[i := p], waiters + [p.pid], at)
  {
    var qs := ps[i := p];
    NotParked(ps, i, at);
    WaitingStays(ps, qs, waiters, at);
    assert Parked(qs, p.pid, at) by { assert qs[i] == p; }
    var w := waiters + [p.pid];
    forall k | 0 <= k < |w| ensures Parked(qs, w[k], at) {
      if k < |waiters| { assert Parked(qs, waiters[k], at); }
    }
    forall k, j | 0 <= k < j < |w| ensures w[k] != w[j] {
      if j == |waiters| { assert Parked(ps, waiters[k], at); }
    }
  }

  /** What registering leaves of the other conditions. */
  lemma RegisterRest(s: State, t: State, i: nat, p: Proc)
    requires Inv(s) && i == s.current && OnCpu(s) && t.procs == s.procs[i := p]
    requires SameRest(s, t.(mutexes := s.mutexes, sems := s.sems))
    requires p == s.procs[i].(status := Blocked, at := p.at) && (p.at.Lock? || p.at.Wait?)
    requires t.queues == s.queues && t.arrived == s.arrived && t.clock == s.clock
    ensures Queued(t) && SameNames(s.procs, t.procs) && SameLiving(s.procs, t.procs) && Flags(p, s.nextPid)
  {
    hide SyncOk, Cause, Named;
    QueuedSized(s);
    Here(s);
    SetQueued(s, i, p);
    QueuedKeep(s.(procs := s.procs[i := p]), t);
  }

  lemma MutexJoin(s: State, m: nat)
    requires Inv(s) && OnCpu(s) && m < |s.mutexes| && s.mutexes[m].locked && |s.mutexes[m].waiters| < MAX_WAITERS
    requires At(s, User) || At(s, Lock(m))
    ensures Inv(LockStep(s, m))
  {
    hide Queued, Named, Flags, Lives, Waiting;
    var i, x, t := s.current, s.mutexes[m], LockStep(s, m);
    var p := t.procs[i];
    RegisterRest(s, t, i, p);
    QueuedSized(s);
    assert SyncOk(t) by {
      forall k | 0 <= k < |t.mutexes| ensures MutexOk(t, k) {
        assert MutexOk(s, k);
        if k == m {
          Joins(s.procs, i, p, x.waiters, Lock(m));
        } else {
          WaitingStays(s.procs, t.procs, s.mutexes[k].waiters, Lock(k));
        }
      }
      forall k | 0 <= k < |t.sems| ensures SemOk(t, k) {
        assert SemOk(s, k);
        WaitingStays(s.procs, t.procs, s.sems[k].waiters, Wait(k));
      }
    }
    forall j | 0 <= j < SLOTS ensures Flags(t.procs[j], t.nextPid) && Cause(t, t.procs[j]) {
      assert Flags(s.procs[j], s.nextPid) && Cause(s, s.procs[j]);
      if s.procs[j].at.Reap? { LivesKeep(s.procs, t.procs, s.procs[j].at.child); }
    }
    InvSync(s, t);
  }

  lemma SemJoin(s: State, k: nat)
    requires Inv(s) && OnCpu(s) && k < |s.sems| && s.sems[k].count <= 0 && |s.sems[k].waiters| < MAX_WAITERS
    requires At(s, User) || At(s, Wait(k))
    ensures Inv(SemWaitStep(s, k))
  {
    hide Queued, Named, Flags, Lives, Waiting;
    var i, x, t := s.current, s.sems[k], SemWaitStep(s, k);
    var p := t.procs[i];
    RegisterRest(s, t, i, p);
    QueuedSized(s);
    assert SyncOk(t) by {
      forall m | 0 <= m < |t.mutexes| ensures MutexOk(t, m) {
        assert MutexOk(s, m);
        WaitingStays(s.procs, t.procs, s.mutexes[m].waiters, Lock(m));
      }
      forall j | 0 <= j < |t.sems| ensures SemOk(t, j) {
        assert SemOk(s, j);
        if j == k {
          Joins(s.procs, i, p, x.waiters, Wait(k));
        } else {
          WaitingStays(s.procs, t.procs, s.sems[j].waiters, Wait(j));
        }
      }
    }
    forall j | 0 <= j < SLOTS ensures Flags(t.procs[j], t.nextPid) && Cause(t, t.procs[j]) {
      assert Flags(s.procs[j], s.nextPid) && Cause(s, s.procs[j]);
      if s.procs[j].at.Reap? { LivesKeep(s.procs, t.procs, s.procs[j].at.child); }
    }
    InvSync(s, t);
  }

  lemma LockKeeps(s: State, m: nat)
    requires Inv(s) && OnCpu(s) && m < |s.mutexes| && (At(s, User) || At(s, Lock(m)))
    ensures Inv(LockStep(s, m))
  {
    hide Queued, Named, SyncOk, Lives, Inv;
    Here(s);
    var p, x := s.procs[s.current], s.mutexes[m];
    if !x.locked {
      CurKeeps(s, p.(at := User));
      TakeKeeps(Cur(s, p.(at := User)), m, p.pid);
    } else if |x.waiters| < MAX_WAITERS {
      MutexJoin(s, m);
    } else {
      CurKeeps(s, p.(at := Lock(m)));
    }
  }

  lemma SemWaitKeeps(s: State, k: nat)
    requires Inv(s) && OnCpu(s) && k < |s.sems| && (At(s, User) || At(s, Wait(k)))
    ensures Inv(SemWaitStep(s, k))
  {
    hide Queued, Named, SyncOk, Lives, Inv;
    Here(s);
    var p, x := s.procs[s.current], s.sems[k];
    if x.count > 0 {
      CurKeeps(s, p.(at := User));
      DownKeeps(Cur(s, p.(at := User)), k);
    } else if |x.waiters| < MAX_WAITERS {
      SemJoin(s, k);
    } else {
      CurKeeps(s, p.(at := Wait(k)));
    }
  }

  /** Exactly the processes blocked at one point were made READY. */
  predicate Woken(s: State, t: State, at: Point) {
    && |s.procs| == |t.procs| == SLOTS
    && forall i :: 0 <= i < SLOTS ==>
         t.procs[i] == if s.procs[i].status == Blocked && s.procs[i].at == at
                       then s.procs[i].(status := Ready) else s.procs[i]
  }

  /** Waking everyone registered at one point wakes exactly the processes blocked there. */
  lemma WakesAt(s: State, waiters: seq<nat>, at: Point)
    requires Inv(s) && Waiting(s.procs, waiters, at)
    requires forall i :: 0 <= i < SLOTS && s.procs[i].status == Blocked && s.procs[i].at == at ==>
        s.procs[i].pid in waiters
    ensures var t := WakeAll(s, waiters); Queued(t) && SameRest(s, t) && Woken(s, t, at)
  {
    hide Queued, SyncOk, Cause, Flags, WakeAll;
    QueuedSized(s);
    WakeEffect(s, waiters);
    forall i | 0 <= i < SLOTS && s.procs[i].status == Blocked && s.procs[i].pid in waiters ensures s.procs[i].at == at {
      var k :| 0 <= k < |waiters| && waiters[k] == s.procs[i].pid;
      assert Parked(s.procs, waiters[k], at);
    }
  }

  /** Waking leaves the names, and leaves the other lists of waiters as they are. */
  lemma WokenRest(s: State, t: State, at: Point)
    requires Woken(s, t, at) && (at.Lock? || at.Wait?)
    ensures SameNames(s.procs, t.procs) && SameLiving(s.procs, t.procs)
    ensures forall other :: other != at ==> StillAt(s.procs, t.procs, other)
    ensures forall i, n :: 0 <= i < SLOTS && Flags(s.procs[i], n) ==> Flags(t.procs[i], n)
  {
  }

  lemma UnlockWakes(s: State, m: nat)
    requires Inv(s) && m < |s.mutexes|
    ensures var u := WakeAll(s, s.mutexes[m].waiters); Queued(u) && SameRest(s, u) && Woken(s, u, Lock(m))
  {
    hide Queued, Named, Flags, Lives, Waiting, WakeAll;
    QueuedSized(s);
    assert MutexOk(s, m);
    forall i | 0 <= i < SLOTS && s.procs[i].status == Blocked && s.procs[i].at == Lock(m)
      ensures s.procs[i].pid in s.mutexes[m].waiters
    {
      assert Cause(s, s.procs[i]);
    }
    WakesAt(s, s.mutexes[m].waiters, Lock(m));
  }

  lemma PostWakes(s: State, k: nat)
    requires Inv(s) && k < |s.sems|
    ensures var u := WakeAll(s, s.sems[k].waiters); Queued(u) && SameRest(s, u) && Woken(s, u, Wait(k))
  {
    hide Queued, Named, Flags, Lives, Waiting, WakeAll;
    QueuedSized(s);
    assert SemOk(s, k);
    forall i | 0 <= i < SLOTS && s.procs[i].status == Blocked && s.procs[i].at == Wait(k)
      ensures s.procs[i].pid in s.sems[k].waiters
    {
      assert Cause(s, s.procs[i]);
    }
    WakesAt(s, s.sems[k].waiters, Wait(k));
  }

  lemma UnlockKeeps(s: State, m: nat)
    requires Inv(s) && m < |s.mutexes|
    ensures Inv(UnlockStep(s, m))
  {
    hide Queued, Named, Flags, Lives, Waiting, WakeAll, StillAt, SameNames, SameLiving;
    QueuedSized(s);
    UnlockWakes(s, m);
    var u, t := WakeAll(s, s.mutexes[m].waiters), UnlockStep(s, m);
    QueuedSized(u);
    QueuedKeep(u, t);
    WokenRest(s, t, Lock(m));
    EmptyWaiting(t.procs, Lock(m));
    assert SyncOk(t) by {
      forall k | 0 <= k < |t.mutexes| ensures MutexOk(t, k) {
        assert MutexOk(s, k);
        if k != m { WaitingStays(s.procs, t.procs, s.mutexes[k].waiters, Lock(k)); }
      }
      forall k | 0 <= k < |t.sems| ensures SemOk(t, k) {
        assert SemOk(s, k);
        WaitingStays(s.procs, t.procs, s.sems[k].waiters, Wait(k));
      }
    }
    forall j | 0 <= j < SLOTS ensures Flags(t.procs[j], t.nextPid) && Cause(t, t.procs[j]) {
      assert Flags(s.procs[j], s.nextPid) && Cause(s, s.procs[j]);
      if s.procs[j].at.Reap? { LivesKeep(s.procs, t.procs, s.procs[j].at.child); }
    }
    InvSync(s, t);
  }

  lemma EmptyWaiting(ps: seq<Proc>, at: Point)
    ensures Waiting(ps, [], at)
  {
  }

  lemma PostKeeps(s: State, k: nat)
    requires Inv(s) && k < |s.sems|
    ensures Inv(SemPostStep(s, k))
  {
    hide Queued, Named, Flags, Lives, Waiting, WakeAll, StillAt, SameNames, SameLiving;
    QueuedSized(s);
    PostWakes(s, k);
    var u, t := WakeAll(s, s.sems[k].waiters), SemPostStep(s, k);
    QueuedSized(u);
    QueuedKeep(u, t);
    WokenRest(s, t, Wait(k));
    EmptyWaiting(t.procs, Wait(k));
    assert SyncOk(t) by {
      forall m | 0 <= m < |t.mutexes| ensures MutexOk(t, m) {
        assert MutexOk(s, m);
        WaitingStays(s.procs, t.procs, s.mutexes[m].waiters, Lock(m));
      }
      forall j | 0 <= j < |t.sems| ensures SemOk(t, j) {
        assert SemOk(s, j);
        if j != k { WaitingStays(s.procs, t.procs, s.sems[j].waiters, Wait(j)); }
      }
    }
    forall j | 0 <= j < SLOTS ensures Flags(t.procs[j], t.nextPid) && Cause(t, t.procs[j]) {
      assert Flags(s.procs[j], s.nextPid) && Cause(s, s.procs[j]);
      if s.procs[j].at.Reap? { LivesKeep(s.procs, t.procs, s.procs[j].at.child); }
    }
    InvSync(s, t);
  }

  // ----- birth, death and reaping ---------------------------------------------------------------------------

  /** proc_exit on the running process, or on a child whose set-up failed. */
  predicate MayDie(s: State, i: nat) {
    i < |s.procs| &&
    ((s.procs[i].status == Running && s.procs[i].at.User?) || (s.procs[i].status == Blocked && s.procs[i].at.Fresh?))
  }

  /** After proc_exit: the zombie, the waiters it woke, and everyone else. */
  predicate Died(s: State, t: State, i: nat)
    requires |s.procs| == |t.procs| == SLOTS && i < SLOTS
  {
    var pid := s.procs[i].pid;
    && t.procs[i] == s.procs[i].(status := Zombie, mailbox := false, inbox := [], at := User, code := t.procs[i].code)
    && forall j :: 0 <= j < SLOTS && j != i ==>
         t.procs[j] == if s.procs[j].status == Blocked && s.procs[j].blockedOn == pid
                       then s.procs[j].(status := Ready, blockedOn := 0) else s.procs[j]
  }

  lemma DieEffect(s: State, i: nat, code: int)
    requires Inv(s) && MayDie(s, i)
    ensures Queued(Die(s, i, code)) && SameRest(s, Die(s, i, code)) && Died(s, Die(s, i, code), i)
    ensures Die(s, i, code).procs[i].code == code
  {
    hide Queued, SyncOk, Named, Sweep, Cause, Flags;
    QueuedSized(s);
    var p := s.procs[i];
    var z := p.(status := Zombie, mailbox := false, inbox := [], at := User, code := code);
    SetQueued(s, i, z);
    SweepEffect(s.(procs := s.procs[i := z]), ExitOf(p.pid), 0);
    QueuedSized(Die(s, i, code));
  }

  /** Exactly one pid stops living. */
  lemma LivesAfter(s: State, t: State, i: nat, c: nat)
    requires |s.procs| == |t.procs| == SLOTS && i < SLOTS && Named(s.procs) && Died(s, t, i) && !Dead(s.procs[i])
    ensures Lives(t.procs, c) <==> Lives(s.procs, c) && c != s.procs[i].pid
  {
    if Lives(t.procs, c) {
      var j :| 0 <= j < SLOTS && t.procs[j].pid == c && !Dead(t.procs[j]);
      assert s.procs[j].pid == c && !Dead(s.procs[j]) && j != i;
    }
    if Lives(s.procs, c) && c != s.procs[i].pid {
      var j :| 0 <= j < SLOTS && s.procs[j].pid == c && !Dead(s.procs[j]);
      assert t.procs[j].pid == c && !Dead(t.procs[j]);
    }
  }

  /** One process after another's death. */
  lemma DeathCause(s: State, t: State, i: nat, j: nat)
    requires |s.procs| == |t.procs| == SLOTS && i < SLOTS && j < SLOTS && Named(s.procs) && Died(s, t, i)
    requires MayDie(s, i)
    requires t.mutexes == s.mutexes && t.sems == s.sems && t.nextPid == s.nextPid
    requires Flags(s.procs[i], s.nextPid) && Flags(s.procs[j], s.nextPid) && Cause(s, s.procs[j])
    ensures Flags(t.procs[j], t.nextPid) && Cause(t, t.procs[j])
  {
    hide Lives, Named;
    var p := s.procs[j];
    if j != i && p.at.Reap? {
      LivesAfter(s, t, i, p.at.child);
      OneLives(s.procs, i);
    }
  }

  lemma OneLives(ps: seq<Proc>, i: nat)
    requires i < |ps| && !Dead(ps[i])
    ensures Lives(ps, ps[i].pid)
  {
  }

  lemma DieKeeps(s: State, i: nat, code: int)
    requires Inv(s) && MayDie(s, i)
    ensures Inv(Die(s, i, code))
  {
    hide Queued, SyncOk, Named, Lives, Sweep, Cause, Flags, Died, Die;
    QueuedSized(s);
    DieEffect(s, i, code);
    var t := Die(s, i, code);
    QueuedSized(t);
    assert Flags(s.procs[i], s.nextPid);
    forall j | 0 <= j < SLOTS ensures Flags(t.procs[j], t.nextPid) && Cause(t, t.procs[j]) {
      assert Flags(s.procs[j], s.nextPid) && Cause(s, s.procs[j]);
      DeathCause(s, t, i, j);
    }
    DiedShape(s, t, i);
    SyncKeep(s, t);
    NamedKeep(s.procs, t.procs);
  }

  lemma DiedShape(s: State, t: State, i: nat)
    requires |s.procs| == |t.procs| == SLOTS && i < SLOTS && Died(s, t, i) && MayDie(s, i)
    requires forall j :: 0 <= j < SLOTS ==> Flags(s.procs[j], s.nextPid)
    ensures SameNames(s.procs, t.procs) && StillParked(s.procs, t.procs)
    ensures forall j :: 0 <= j < SLOTS && t.procs[j].status == Running ==> s.procs[j].status == Running
  {
    forall j | 0 <= j < SLOTS
      ensures s.procs[j].status == Blocked && (s.procs[j].at.Lock? || s.procs[j].at.Wait?) ==> t.procs[j] == s.procs[j]
    {
      assert Flags(s.procs[j], s.nextPid) && Flags(s.procs[i], s.nextPid);
    }
  }

  lemma CreateKeeps(s: State, intent: nat, mailbox: bool)
    requires Inv(s) && intent < CLASSES && s.nextPid > 0
    ensures Inv(CreateStep(s, intent, mailbox))
  {
    hide Queued, SyncOk, Lives, Cause;
    QueuedSized(s);
    var i := Free(s.procs);
    if i < SLOTS {
      var t := CreateStep(s, intent, mailbox);
      var p := t.procs[i];
      SetQueued(s, i, p);
      QueuedKeep(s.(procs := s.procs[i := p]), t);
      forall j | 0 <= j < SLOTS ensures Flags(t.procs[j], t.nextPid) && Cause(t, t.procs[j]) {
        assert Flags(s.procs[j], s.nextPid) && Cause(s, s.procs[j]);
        BirthCause(s, t, i, j);
      }
      SyncKeep(s, t);
    }
  }

  lemma BirthCause(s: State, t: State, i: nat, j: nat)
    requires i < |s.procs| == |t.procs| && j < |s.procs| && s.procs[i].status == Unused
    requires t.procs == s.procs[i := t.procs[i]]
    requires t.procs[i].at.Fresh? && t.procs[i].pid == s.nextPid
    requires t.mutexes == s.mutexes && t.sems == s.sems && Flags(s.procs[j], s.nextPid) && Cause(s, s.procs[j])
    ensures Cause(t, t.procs[j])
  {
    hide Lives;
    if j != i && s.procs[j].at.Reap? { BirthLives(s.procs, i, t.procs[i], s.procs[j].at.child); }
  }

  lemma BirthLives(ps: seq<Proc>, i: nat, p: Proc, c: nat)
    requires i < |ps| && ps[i].status == Unused && p.pid != c
    ensures Lives(ps[i := p], c) == Lives(ps, c)
  {
    var qs := ps[i := p];
    if Lives(ps, c) {
      var j :| 0 <= j < |ps| && ps[j].pid == c && ps[j].status != Unused && ps[j].status != Zombie;
      assert qs[j] == ps[j];
    }
    if Lives(qs, c) {
      var j :| 0 <= j < |qs| && qs[j].pid == c && qs[j].status != Unused && qs[j].status != Zombie;
      assert qs[j] == ps[j];
    }
  }

  /** waitpid never reaps a process that is not a zombie. */
  lemma ReapsOnlyZombies(s: State)
    requires Inv(s) && OnCpu(s) && s.procs[s.current].at.Reap?
    ensures var i := Find(s.procs, s.procs[s.current].at.child); i < SLOTS ==>
        s.procs[i].status == Zombie && i != s.current
  {
    hide Queued, SyncOk, Lives, Flags;
    QueuedSized(s);
    Here(s);
    LivesGone(s.procs, s.procs[s.current].at.child);
  }

  lemma ReapKeeps(s: State)
    requires Inv(s) && OnCpu(s) && s.procs[s.current].at.Reap?
    ensures Inv(ReapStep(s))
  {
    hide Queued, SyncOk, Named, Lives, Cause;
    QueuedSized(s);
    Here(s);
    var p := s.procs[s.current];
    var i := Find(s.procs, p.at.child);
    var u := Cur(s, p.(at := User));
    UserCause(u, p.(at := User));
    CurKeeps(s, p.(at := User));
    if i < SLOTS {
      ReapsOnlyZombies(s);
      SlotFreed(u, i);
    }
  }

  lemma UserCause(s: State, p: Proc)
    requires p.at.User?
    ensures Cause(s, p)
  {
  }

  lemma SlotFreed(s: State, i: nat)
    requires Inv(s) && i < SLOTS && s.procs[i].status == Zombie && i != s.current
    ensures Inv(s.(procs := s.procs[i := s.procs[i].(status := Unused, pid := 0)]))
  {
    hide Queued, SyncOk, Lives, Cause;
    QueuedSized(s);
    var p := s.procs[i].(status := Unused, pid := 0);
    SetQueued(s, i, p);
    var t := s.(procs := s.procs[i := p]);
    assert Flags(s.procs[i], s.nextPid);
    UserCause(t, p);
    forall j | 0 <= j < SLOTS ensures Flags(t.procs[j], t.nextPid) && Cause(t, t.procs[j]) {
      assert Flags(s.procs[j], s.nextPid) && Cause(s, s.procs[j]);
      if j != i { CauseKeep(s, t, s.procs[j]); }
    }
    SyncKeep(s, t);
  }

  // ----- every run --------------------------------------------------------------------------------------------

  lemma TryLockKeeps(s: State, m: nat)
    requires Inv(s) && OnCpu(s) && m < |s.mutexes|
    ensures Inv(TryLockStep(s, m))
  {
    hide Inv;
    if !s.mutexes[m].locked { TakeKeeps(s, m, s.procs[s.current].pid); }
  }

  /** Every step keeps the invariant. */
  lemma StepKeeps(s: State, step: Step)
    requires Inv(s) && Enabled(s, step)
    ensures Inv(Do(s, step))
  {
    hide Inv, Queued, TickStep, YieldStep, IdleStep, LockStep, TryLockStep, UnlockStep, SemWaitStep, SemPostStep,
      SendStep, ReceiveStep, WaitpidStep, ReapStep, NapStep, CreateStep, Die, Put;
    match step
    case Tick => TickKeeps(s);
    case Yield => YieldKeeps(s);
    case Idle => IdleKeeps(s);
    case MutexLock(m) => LockKeeps(s, m);
    case MutexTryLock(m) => TryLockKeeps(s, m);
    case MutexUnlock(m) => UnlockKeeps(s, m);
    case SemWait(k) => SemWaitKeeps(s, k);
    case SemPost(k) => PostKeeps(s, k);
    case Send(dst, msg) => SendKeeps(s, dst, msg);
    case Receive => ReceiveKeeps(s, false);
    case ReceiveNow => ReceiveKeeps(s, true);
    case Waitpid(pid) => WaitpidKeeps(s, pid);
    case ReapChild => ReapKeeps(s);
    case Nap(ticks) => NapKeeps(s, ticks);
    case WakeUp => WakeUpKeeps(s);
    case Create(intent, mailbox) => NextPidPositive(s); CreateKeeps(s, intent, mailbox);
    case Start(slot) => StartKeeps(s, slot);
    case Abort(slot) => DieKeeps(s, slot, -1);
    case Exit(code) => DieKeeps(s, s.current, code);
  }

  lemma NextPidPositive(s: State)
    requires Inv(s)
    ensures s.nextPid > 0
  {
    assert Flags(s.procs[0], s.nextPid);
  }

  /** Whatever was READY when a process yields, the one dispatched is of a class at least as urgent,
      and within its class it had been waiting longest. */
  lemma YieldOrder(s: State, j: nat)
    requires Inv(s) && 0 <= s.current && j < SLOTS && s.procs[j].status == Ready
    ensures var i := YieldStep(s).current;
            && 0 <= i < SLOTS && Rank(s.procs[i].intent) <= Rank(s.procs[j].intent)
            && (s.procs[i].intent == s.procs[j].intent && i != j ==>
              s.procs[i].status == Ready && s.arrived[i] < s.arrived[j])
  {
    hide SyncOk, Named, Cause, Flags, Sweep, Resume;
    var r := Release(s);
    ReleaseKeeps(s);
    WaitersIdle(r);
    var p := s.procs[s.current];
    if p.status == Running { PutQueued(s, s.current, p.(status := Ready)); }
    DispatchOrder(r, j);
    ArrivedBefore(s, j);
  }

  lemma ArrivedBefore(s: State, j: nat)
    requires Queued(s) && j < SLOTS && s.procs[j].status == Ready
    ensures s.arrived[j] < s.clock
  {
    var c := s.procs[j].intent;
    assert j in s.queues[c];
    var k :| 0 <= k < |s.queues[c]| && s.queues[c][k] == j;
    assert Member(s, c, s.queues[c][k]);
  }
}
