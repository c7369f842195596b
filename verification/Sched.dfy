/** The scheduler and the blocking primitives as one machine (kernel/proc/scheduler.c,
    kernel/proc/process.c, kernel/sync/sync.c, kernel/ipc/ipc.c and waitpid in
    kernel/proc/fork_exec.c). The kernel runs on one core and the timer never switches
    processes, so every stretch of code between two points where interrupts are on is one step. */
module Sched {
  import opened Words

  const SLOTS: nat := 256        // MAX_PROCESSES
  const CLASSES: nat := 5        // INTENT_COUNT
  const MAX_WAITERS: nat := 32   // MUTEX_MAX_WAITERS, SEM_MAX_WAITERS
  const DEPTH: nat := 8          // IPC_QUEUE_DEPTH
  const PAYLOAD: nat := 120      // IPC_MSG_PAYLOAD

  datatype Status = Unused | Running | Ready | Blocked | Zombie

  /** Where a process will go on: in its own code, inside one of the blocking calls, or not yet
      started. This is what its kernel stack holds; `due` is the tick a sleep was to last until, as
      a sum that does not wrap. */
  datatype Point = User | Lock(mutex: nat) | Wait(sem: nat) | Recv | Reap(child: nat) | Sleep(due: nat) | Fresh

  datatype Message = Message(from: nat, kind: nat, data: seq<nat>)

  /** The part of a payload that fits in a slot of an inbox. */
  function Clipped(data: seq<nat>): (r: seq<nat>)
    ensures |r| <= PAYLOAD && r <= data && (|data| <= PAYLOAD ==> r == data)
  {
    if |data| > PAYLOAD then data[..PAYLOAD] else data
  }

  /** A message as ipc_send stores it. */
  function Kept(msg: Message): Message {
    msg.(data := Clipped(msg.data))
  }

  /** process_t, without sched_next, which the queues stand for. */
  datatype Proc = Proc(pid: nat, status: Status, intent: nat, blockedOn: nat, wakeTick: nat,
                       waiting: bool, mailbox: bool, inbox: seq<Message>, at: Point, code: int)

  datatype Mutex = Mutex(locked: bool, owner: nat, waiters: seq<nat>)

  /** semaphore_t, with a record of its initial count and of the posts and waits completed. */
  datatype Semaphore = Semaphore(count: int, waiters: seq<nat>, initial: int, posts: nat, waits: nat)

  /** `current` is a slot, or -1 while the scheduler idles. `arrived` and `clock` record when each
      process was last put in a queue. */
  datatype State = State(procs: seq<Proc>, queues: seq<seq<nat>>, current: int, uptime: nat, nextPid: nat,
                         mutexes: seq<Mutex>, sems: seq<Semaphore>, arrived: seq<nat>, clock: nat)

  // ----- the process table ------------------------------------------------------------------

  /** proc_get: the slot of a pid, or the table's length. */
  function Find(ps: seq<Proc>, pid: nat): (i: nat)
    ensures i <= |ps|
    ensures i < |ps| ==> ps[i].pid == pid && ps[i].status != Unused
    ensures forall j :: 0 <= j < i ==> !(ps[j].pid == pid && ps[j].status != Unused)
  {
    if ps == [] then 0
    else if ps[0].pid == pid && ps[0].status != Unused then 0
    else 1 + Find(ps[1..], pid)
  }

  /** proc_get finds nothing, or a zombie. */
  predicate Gone(ps: seq<Proc>, pid: nat) {
    var i := Find(ps, pid);
    i == |ps| || ps[i].status == Zombie
  }

  // ----- queues -------------------------------------------------------------------------------

  predicate Sized(s: State) {
    && |s.procs| == SLOTS && |s.queues| == CLASSES && |s.arrived| == SLOTS
    && (forall i :: 0 <= i < SLOTS ==> s.procs[i].intent < CLASSES)
  }

  /** sched_enqueue on the queues. */
  function Enqueue(s: State, i: nat): (t: State)
    requires Sized(s) && i < SLOTS
    ensures Sized(t) && t.procs == s.procs && i in t.queues[s.procs[i].intent]
  {
    var c := s.procs[i].intent;
    if i in s.queues[c] then s
    else s.(queues := s.queues[c := s.queues[c] + [i]], arrived := s.arrived[i := s.clock], clock := s.clock + 1)
  }

  /** Slot i becomes p, which is READY, and joins its queue. */
  function Put(s: State, i: nat, p: Proc): (t: State)
    requires Sized(s) && i < SLOTS && p.intent < CLASSES
    ensures Sized(t)
  {
    Enqueue(s.(procs := s.procs[i := p]), i)
  }

  /** QUEUE_ORDER: audit, interactive, I/O, network, compute. */
  function Order(i: nat): (c: nat)
    ensures c < CLASSES && (i < CLASSES ==> Rank(c) == i)
  {
    if i == 0 then 4 else if i == 1 then 3 else if i == 2 then 1 else if i == 3 then 2 else 0
  }

  /** The place of a class in that order. */
  function Rank(c: nat): nat {
    if c == 4 then 0 else if c == 3 then 1 else if c == 1 then 2 else if c == 2 then 3 else 4
  }

  /** The class sched_next takes from, or CLASSES. */
  function Pick(queues: seq<seq<nat>>): (c: nat)
    requires |queues| == CLASSES
    ensures c <= CLASSES && (c < CLASSES ==> queues[c] != [])
    ensures forall d :: 0 <= d < CLASSES && queues[d] != [] ==> c < CLASSES && Rank(c) <= Rank(d)
  {
    if queues[4] != [] then 4 else if queues[3] != [] then 3 else if queues[1] != [] then 1
    else if queues[2] != [] then 2 else if queues[0] != [] then 0 else CLASSES
  }

  /** Every READY process is in the queue of its class and no other process is in any queue;
      each queue is in order of arrival, hence without repetition. */
  predicate Queued(s: State) {
    && Sized(s)
    && (forall c, k :: 0 <= c < CLASSES && 0 <= k < |s.queues[c]| ==> Member(s, c, s.queues[c][k]))
    && (forall i :: 0 <= i < SLOTS && s.procs[i].status == Ready ==> i in s.queues[s.procs[i].intent])
    && (forall c, j, k :: 0 <= c < CLASSES && 0 <= j < k < |s.queues[c]| ==>
          s.arrived[s.queues[c][j]] < s.arrived[s.queues[c][k]])
  }

  predicate Member(s: State, c: nat, i: nat)
    requires Sized(s)
  {
    i < SLOTS && s.procs[i].status == Ready && s.procs[i].intent == c && s.arrived[i] < s.clock
  }

  /** Making a process READY keeps the queues right. */
  lemma PutQueued(s: State, i: nat, p: Proc)
    requires Queued(s) && i < SLOTS && s.procs[i].status != Ready && p.status == Ready && p.intent < CLASSES
    ensures Queued(Put(s, i, p))
    ensures Put(s, i, p) == s.(procs := s.procs[i := p], arrived := s.arrived[i := s.clock], clock := s.clock + 1,
                               queues := s.queues[p.intent := s.queues[p.intent] + [i]])
  {
    var t, d := Put(s, i, p), p.intent;
    forall c, k | 0 <= c < CLASSES && 0 <= k < |s.queues[c]| ensures s.queues[c][k] != i {
      assert Member(s, c, s.queues[c][k]);
    }
    assert i !in s.queues[d];
    forall c, k | 0 <= c < CLASSES && 0 <= k < |t.queues[c]| ensures Member(t, c, t.queues[c][k]) {
      if k < |s.queues[c]| { assert t.queues[c][k] == s.queues[c][k] && Member(s, c, s.queues[c][k]); }
    }
    forall j | 0 <= j < SLOTS && t.procs[j].status == Ready ensures j in t.queues[t.procs[j].intent] {
      if j != i { assert j in s.queues[s.procs[j].intent]; }
    }
    forall c, j, k | 0 <= c < CLASSES && 0 <= j < k < |t.queues[c]|
      ensures t.arrived[t.queues[c][j]] < t.arrived[t.queues[c][k]]
    {
      assert Member(s, c, s.queues[c][j]);
    }
  }

  /** A change that makes no process READY and none cease to be leaves the queues right. */
  lemma SetQueued(s: State, i: nat, p: Proc)
    requires Queued(s) && i < SLOTS && p.intent < CLASSES && (p.status == Ready <==> s.procs[i].status == Ready)
    requires p.status == Ready ==> p.intent == s.procs[i].intent
    ensures Queued(s.(procs := s.procs[i := p]))
  {
    var t := s.(procs := s.procs[i := p]);
    forall c, k | 0 <= c < CLASSES && 0 <= k < |t.queues[c]| ensures Member(t, c, t.queues[c][k]) {
      assert Member(s, c, s.queues[c][k]);
    }
  }

  // ----- dispatch --------------------------------------------------------------------------------

  /** The end of sched_yield: the head of the chosen queue becomes current, or nothing does. */
  function Resume(s: State): State
    requires Queued(s)
  {
    var c := Pick(s.queues);
    if c == CLASSES then s
    else
      var i := s.queues[c][0];
      assert Member(s, c, i);
      s.(queues := s.queues[c := s.queues[c][1..]], current := i, procs := s.procs[i := s.procs[i].(status := Running)])
  }

  /** The process dispatched is READY, of the best class that has any, and the first of that class
      to have arrived. */
  lemma DispatchOrder(s: State, j: nat)
    requires Queued(s) && j < SLOTS && s.procs[j].status == Ready
    ensures var i := Resume(s).current;
            && 0 <= i < SLOTS && s.procs[i].status == Ready && Resume(s).procs[i].status == Running
            && Rank(s.procs[i].intent) <= Rank(s.procs[j].intent)
            && (s.procs[i].intent == s.procs[j].intent && i != j ==> s.arrived[i] < s.arrived[j])
  {
    var c := Pick(s.queues);
    var d := s.procs[j].intent;
    assert j in s.queues[d];
    assert Member(s, c, s.queues[c][0]);
    var k :| 0 <= k < |s.queues[d]| && s.queues[d][k] == j;
    if k > 0 && c == d { assert s.arrived[s.queues[d][0]] < s.arrived[s.queues[d][k]]; }
  }

  /** Taking the head off a queue leaves the rest in order and without it. */
  lemma PopMembers(s: State, c: nat)
    requires Queued(s) && c < CLASSES && s.queues[c] != []
    ensures Member(s, c, s.queues[c][0])
    ensures forall e, k :: 0 <= e < CLASSES && 0 <= k < |s.queues[e]| ==> Member(s, e, s.queues[e][k])
    ensures forall k :: 0 < k < |s.queues[c]| ==> s.queues[c][k] != s.queues[c][0]
    ensures forall e, k :: 0 <= e < CLASSES && e != c && 0 <= k < |s.queues[e]| ==> s.queues[e][k] != s.queues[c][0]
  {
    assert Member(s, c, s.queues[c][0]);
    forall e, k | 0 <= e < CLASSES && 0 <= k < |s.queues[e]| && (e != c || k > 0)
      ensures Member(s, e, s.queues[e][k]) && s.queues[e][k] != s.queues[c][0]
    {
      if e == c { assert s.arrived[s.queues[c][0]] < s.arrived[s.queues[c][k]]; }
    }
  }

  lemma PopFound(s: State, c: nat, j: nat)
    requires Queued(s) && c < CLASSES && s.queues[c] != []
    requires j < SLOTS && s.procs[j].status == Ready && j != s.queues[c][0]
    ensures var e := s.procs[j].intent; if e == c then j in s.queues[c][1..] else j in s.queues[e]
  {
    var e := s.procs[j].intent;
    assert j in s.queues[e];
    var k :| 0 <= k < |s.queues[e]| && s.queues[e][k] == j;
    if e == c { assert s.queues[c][1..][k - 1] == j; }
  }

  /** Dispatching keeps the queues right. */
  lemma ResumeQueued(s: State)
    requires Queued(s)
    ensures Queued(Resume(s))
  {
    var t, c := Resume(s), Pick(s.queues);
    if c < CLASSES {
      PopMembers(s, c);
      forall e, k | 0 <= e < CLASSES && 0 <= k < |t.queues[e]| ensures Member(t, e, t.queues[e][k]) {
        var k' := if e == c then k + 1 else k;
        assert Member(s, e, s.queues[e][k']);
      }
      forall j | 0 <= j < SLOTS && t.procs[j].status == Ready ensures j in t.queues[t.procs[j].intent] {
        PopFound(s, c, j);
      }
      PopOrder(s, c);
    }
  }

  lemma PopOrder(s: State, c: nat)
    requires Queued(s) && c < CLASSES && s.queues[c] != []
    ensures var qs := s.queues[c := s.queues[c][1..]];
            forall e, j, k :: 0 <= e < CLASSES && 0 <= j < k < |qs[e]| ==> s.arrived[qs[e][j]] < s.arrived[qs[e][k]]
  {
    var qs := s.queues[c := s.queues[c][1..]];
    forall e, j, k | 0 <= e < CLASSES && 0 <= j < k < |qs[e]|
      ensures qs[e][j] < SLOTS && qs[e][k] < SLOTS && s.arrived[qs[e][j]] < s.arrived[qs[e][k]]
    {
      var d := if e == c then 1 else 0;
      assert qs[e][j] == s.queues[e][j + d] && qs[e][k] == s.queues[e][k + d];
      assert Member(s, e, s.queues[e][j + d]) && Member(s, e, s.queues[e][k + d]);
    }
  }

  // ----- scans of the process table --------------------------------------------------------------

  /** unblock_sleepers, unblock_waiters and the wakeup loop of proc_exit. */
  datatype Scan = Sleepers | Waiters | ExitOf(pid: nat)

  predicate Due(s: State, scan: Scan, p: Proc) {
    p.status == Blocked &&
    match scan
    case Sleepers => p.wakeTick != 0 && s.uptime >= p.wakeTick
    case Waiters => p.blockedOn != 0 && Gone(s.procs, p.blockedOn)
    case ExitOf(pid) => p.blockedOn == pid
  }

  function Roused(scan: Scan, p: Proc): Proc {
    if scan == Sleepers then p.(status := Ready, wakeTick := 0) else p.(status := Ready, blockedOn := 0)
  }

  /** The scan from slot k on. */
  function Sweep(s: State, scan: Scan, k: nat): (t: State)
    requires Sized(s) && k <= SLOTS
    ensures Sized(t)
    decreases SLOTS - k
  {
    if k == SLOTS then s
    else Sweep(if Due(s, scan, s.procs[k]) then Put(s, k, Roused(scan, s.procs[k])) else s, scan, k + 1)
  }

  /** The same names in the same slots. */
  predicate SameNames(ps: seq<Proc>, qs: seq<Proc>) {
    |ps| == |qs| &&
    forall i :: 0 <= i < |ps| ==> ps[i].pid == qs[i].pid && (ps[i].status == Unused <==> qs[i].status == Unused)
  }

  lemma {:induction false} FindSame(ps: seq<Proc>, qs: seq<Proc>, pid: nat)
    requires SameNames(ps, qs)
    ensures Find(ps, pid) == Find(qs, pid)
  {
    if ps == [] {
    } else {
      FindSame(ps[1..], qs[1..], pid);
    }
  }

  /** s and t differ only in processes and queues. */
  predicate SameRest(s: State, t: State) {
    && t.current == s.current && t.uptime == s.uptime && t.nextPid == s.nextPid
    && t.mutexes == s.mutexes && t.sems == s.sems
  }

  /** Rousing one process makes no difference to who else is due. */
  lemma RouseOne(s: State, scan: Scan, k: nat)
    requires Queued(s) && k < SLOTS && Due(s, scan, s.procs[k])
    ensures var u := Put(s, k, Roused(scan, s.procs[k]));
            && Queued(u) && SameRest(s, u) && u.procs == s.procs[k := Roused(scan, s.procs[k])]
            && forall q :: Due(u, scan, q) == Due(s, scan, q)
  {
    hide Queued, Find, Put;
    QueuedSized(s);
    var p := Roused(scan, s.procs[k]);
    PutQueued(s, k, p);
    var u := Put(s, k, p);
    forall q ensures Due(u, scan, q) == Due(s, scan, q) { SameDue(s, u, scan, q); }
  }

  /** A scan rouses exactly the processes that were due when it began. */
  lemma {:induction false} SweepEffect(s: State, scan: Scan, k: nat)
    requires Queued(s) && k <= SLOTS
    ensures var t := Sweep(s, scan, k);
            && Queued(t) && SameRest(s, t)
            && forall i :: 0 <= i < SLOTS ==>
                 t.procs[i] == if i >= k && Due(s, scan, s.procs[i]) then Roused(scan, s.procs[i]) else s.procs[i]
    decreases SLOTS - k
  {
    hide Queued, Put, Due;
    QueuedSized(s);
    if k == SLOTS {
    } else {
      if Due(s, scan, s.procs[k]) {
        RouseOne(s, scan, k);
        SweepEffect(Put(s, k, Roused(scan, s.procs[k])), scan, k + 1);
      } else {
        SweepEffect(s, scan, k + 1);
      }
    }
  }

  lemma QueuedSized(s: State)
    requires Queued(s)
    ensures Sized(s)
  {
  }

  lemma SameDue(s: State, t: State, scan: Scan, p: Proc)
    requires SameNames(s.procs, t.procs) && s.uptime == t.uptime
    requires forall i :: 0 <= i < |s.procs| ==> (s.procs[i].status == Zombie <==> t.procs[i].status == Zombie)
    ensures Due(s, scan, p) == Due(t, scan, p)
  {
    FindSame(s.procs, t.procs, p.blockedOn);
  }

  /** The wakeup loop of mutex_unlock and sem_post. */
  function WakeAll(s: State, pids: seq<nat>): (t: State)
    requires Sized(s)
    ensures Sized(t)
    decreases |pids|
  {
    if pids == [] then s
    else
      var i := Find(s.procs, pids[0]);
      var woken := i < SLOTS && s.procs[i].status == Blocked;
      WakeAll(if woken then Put(s, i, s.procs[i].(status := Ready)) else s, pids[1..])
  }

  /** Pids of processes in use are distinct. */
  predicate Named(ps: seq<Proc>) {
    forall i, j :: 0 <= i < j < |ps| && ps[i].status != Unused && ps[j].status != Unused ==> ps[i].pid != ps[j].pid
  }

  lemma FindNamed(ps: seq<Proc>, i: nat)
    requires Named(ps) && i < |ps| && ps[i].status != Unused
    ensures Find(ps, ps[i].pid) == i
  {
  }

  lemma {:induction false} WakeEffect(s: State, pids: seq<nat>)
    requires Queued(s) && Named(s.procs)
    ensures var t := WakeAll(s, pids);
            && Queued(t) && SameRest(s, t)
            && forall i :: 0 <= i < SLOTS ==>
                 t.procs[i] == if s.procs[i].status == Blocked && s.procs[i].pid in pids
                               then s.procs[i].(status := Ready) else s.procs[i]
    decreases |pids|
  {
    hide Queued, Find, Put;
    QueuedSized(s);
    if pids == [] {
    } else {
      var i := Find(s.procs, pids[0]);
      forall j | 0 <= j < SLOTS && s.procs[j].status != Unused && s.procs[j].pid == pids[0] ensures j == i {
        FindNamed(s.procs, j);
      }
      if i < SLOTS && s.procs[i].status == Blocked {
        var p := s.procs[i].(status := Ready);
        PutQueued(s, i, p);
        WakeEffect(Put(s, i, p), pids[1..]);
      } else {
        WakeEffect(s, pids[1..]);
      }
    }
  }
}
