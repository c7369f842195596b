/** The code behind the machine: run queues linked through the process table, and the loops of
    kernel/proc/scheduler.c, kernel/proc/process.c, kernel/sync/sync.c and kernel/ipc/ipc.c.
    Every method is proved to take the machine of Sched and Blocking one step. */
module Kernel {
  import opened Words
  import opened Sched
  import B = Blocking
  import R = Runs
  import S = Sched

  const NIL: int := -1
  const INTERACTIVE: nat := 3    // INTENT_INTERACTIVE

  /** Element k of a list, or NULL past its end. */
  function LinkAt(q: seq<nat>, k: nat): int {
    if k < |q| then q[k] else NIL
  }

  /** g_queues and the sched_next fields hold these queues. */
  ghost predicate Linked(heads: seq<int>, link: seq<int>, queues: seq<seq<nat>>) {
    && |heads| == CLASSES && |link| == SLOTS && |queues| == CLASSES
    && (forall c :: 0 <= c < CLASSES ==> heads[c] == LinkAt(queues[c], 0))
    && (forall c, k :: 0 <= c < CLASSES && 0 <= k < |queues[c]| ==>
          queues[c][k] < SLOTS && link[queues[c][k]] == LinkAt(queues[c], k + 1))
  }

  /** What the queue operations themselves rely on: members are slots of the right class, once each. */
  ghost predicate Shape(s: State) {
    && Sized(s)
    && (forall c, k :: 0 <= c < CLASSES && 0 <= k < |s.queues[c]| ==>
          s.queues[c][k] < SLOTS && s.procs[s.queues[c][k]].intent == c)
    && (forall c, j, k :: 0 <= c < CLASSES && 0 <= j < k < |s.queues[c]| ==> s.queues[c][j] != s.queues[c][k])
  }

  lemma QueuedShape(s: State)
    requires Queued(s)
    ensures Shape(s)
  {
    forall c, k | 0 <= c < CLASSES && 0 <= k < |s.queues[c]|
      ensures s.queues[c][k] < SLOTS && s.procs[s.queues[c][k]].intent == c
    {
      assert Member(s, c, s.queues[c][k]);
    }
  }

  /** A list without repetition of numbers below n has at most n elements. */
  lemma {:induction false} Pigeonhole(q: seq<nat>, n: nat)
    requires forall k :: 0 <= k < |q| ==> q[k] < n
    requires forall j, k :: 0 <= j < k < |q| ==> q[j] != q[k]
    ensures |q| <= n
  {
    if q != [] {
      var mine := set k | 0 <= k < |q| :: q[k];
      Count(q, mine);
      Smaller(mine, UpTo(n));
    }
  }

  /** The numbers below n. */
  ghost function UpTo(n: nat): (r: set<nat>)
    ensures |r| == n && forall x: nat :: x in r <==> x < n
  {
    if n == 0 then {} else UpTo(n - 1) + {n - 1}
  }

  lemma {:induction false} Count(q: seq<nat>, mine: set<nat>)
    requires forall j, k :: 0 <= j < k < |q| ==> q[j] != q[k]
    requires mine == set k | 0 <= k < |q| :: q[k]
    ensures |mine| == |q|
  {
    if q == [] {
    } else {
      var front, last := q[..|q| - 1], q[|q| - 1];
      var rest := set k | 0 <= k < |front| :: front[k];
      Count(front, rest);
      assert forall k :: 0 <= k < |front| ==> front[k] == q[k];
      assert last !in rest;
      assert mine == rest + {last} by {
        forall x | x in mine ensures x in rest + {last} {
          var k :| 0 <= k < |q| && q[k] == x;
          if k < |front| { assert front[k] == x; }
        }
        forall x | x in rest + {last} ensures x in mine {
          if x == last { assert q[|q| - 1] == x; }
        }
      }
    }
  }

  lemma {:induction false} Smaller(a: set<nat>, b: set<nat>)
    requires a <= b
    ensures |a| <= |b|
  {
    if a == {} {
    } else {
      var x :| x in a;
      Smaller(a - {x}, b - {x});
    }
  }

  const UNUSED: Proc := Proc(0, Unused, 0, 0, 0, false, false, [], User, 0)

  /** Before there is any process. */
  predicate Blank(s: State) {
    && |s.procs| == |s.arrived| == SLOTS && |s.queues| == CLASSES
    && s.current == -1 && s.nextPid == 1 && s.uptime < TWO64
    && (forall c :: 0 <= c < CLASSES ==> s.queues[c] == [])
    && (forall i :: 0 <= i < SLOTS ==> s.procs[i] == UNUSED)
    && (forall m :: 0 <= m < |s.mutexes| ==> s.mutexes[m] == Mutex(false, 0, []))
    && (forall k :: 0 <= k < |s.sems| ==> s.sems[k] == Semaphore(s.sems[k].initial, [], s.sems[k].initial, 0, 0))
  }

  class Cpu {
    var procs: seq<Proc>
    var heads: seq<int>
    var link: seq<int>
    var current: int
    var uptime: nat
    var nextPid: nat
    var mutexes: seq<Mutex>
    var sems: seq<Semaphore>
    ghost var queues: seq<seq<nat>>
    ghost var arrived: seq<nat>
    ghost var clock: nat

    ghost function View(): State
      reads this
    {
      State(procs, queues, current, uptime, nextPid, mutexes, sems, arrived, clock)
    }

    ghost predicate Ok()
      reads this
    {
      Linked(heads, link, queues) && Shape(View())
    }

    ghost predicate Valid()
      reads this
    {
      Linked(heads, link, queues) && B.Inv(View())
    }

    /** proc_init and sched_init, with the locks of the system fresh. */
    constructor (now: nat, locks: nat, counts: seq<int>)
      requires now < TWO64
      ensures Linked(heads, link, queues) && Blank(View()) && uptime == now && |mutexes| == locks && |sems| == |counts|
      ensures forall k :: 0 <= k < |counts| ==> sems[k].count == counts[k]
    {
      procs := seq(SLOTS, i => UNUSED);
      heads, link := seq(CLASSES, c => NIL), seq(SLOTS, i => NIL);
      queues, arrived, clock := seq(CLASSES, c => []), seq(SLOTS, i => 0), 0;
      current, uptime, nextPid := -1, now, 1;
      mutexes := seq(locks, m => Mutex(false, 0, []));
      sems := seq(|counts|, k requires 0 <= k < |counts| => Semaphore(counts[k], [], counts[k], 0, 0));
    }

    /** main.c: process 1 is created, queued while still BLOCKED, taken out again and made RUNNING. */
    method LaunchInit(mailbox: bool)
      requires Linked(heads, link, queues) && Blank(View())
      modifies this
      ensures Valid() && R.Booted(View()) && uptime == old(uptime) && mutexes == old(mutexes) && sems == old(sems)
    {
      hide Linked, Shape, B.Inv, R.Booted, Without, S.Enqueue;
      ghost var s := View();
      procs := procs[0 := Proc(1, Blocked, INTERACTIVE, 0, 0, false, mailbox, [], User, 0)];
      nextPid := 2;
      BlankShape(s, procs[0]);
      var cycle := Enqueue(0);
      WithoutAt([0], 0, 0);
      Dequeue(0);
      procs := procs[0 := procs[0].(status := Running)];
      current := 0;
      InitBoots(s, View());
    }

    /** A queue is never longer than the table, so the guards against cycles never fire. */
    lemma GuardNeverFires(c: nat)
      requires Ok() && c < CLASSES
      ensures |queues[c]| <= SLOTS
    {
      Pigeonhole(queues[c], SLOTS);
    }

    /** The first scan of sched_enqueue. */
    method Contains(i: nat) returns (found: bool, cycle: bool)
      requires Ok() && i < SLOTS
      ensures found <==> i in queues[procs[i].intent]
      ensures !cycle
    {
      var c := procs[i].intent;
      GuardNeverFires(c);
      var chk, guard := heads[c], 0;
      while chk != NIL && chk != i && guard <= SLOTS
        invariant guard <= |queues[c]| && chk == LinkAt(queues[c], guard)
        invariant forall j :: 0 <= j < guard ==> queues[c][j] != i
        decreases |queues[c]| - guard
      {
        chk := link[chk];
        guard := guard + 1;
      }
      found := chk == i;
      cycle := guard > SLOTS;
    }

    /** sched_enqueue. */
    method Enqueue(i: nat) returns (cycle: bool)
      requires Ok() && i < SLOTS
      modifies this`heads, this`link, this`queues, this`arrived, this`clock
      ensures Ok() && View() == S.Enqueue(old(View()), i)
      ensures !cycle
    {
      var found;
      found, cycle := Contains(i);
      if found || cycle { return; }
      cycle := Append(i);
    }

    /** The second scan of sched_enqueue. */
    method Last(c: nat) returns (cur: nat, cycle: bool)
      requires c < CLASSES && Linked(heads, link, queues) && queues[c] != [] && |queues[c]| <= SLOTS
      ensures cur == queues[c][|queues[c]| - 1] && cur < SLOTS && !cycle
    {
      hide Linked;
      LinkedHead(heads, link, queues, c);
      var guard := 0;
      cur := heads[c];
      LinkedNext(heads, link, queues, c, 0);
      while link[cur] != NIL && guard <= SLOTS
        invariant guard < |queues[c]| && cur == queues[c][guard] < SLOTS && link[cur] == LinkAt(queues[c], guard + 1)
        decreases |queues[c]| - guard
      {
        cur := link[cur];
        guard := guard + 1;
        LinkedNext(heads, link, queues, c, guard);
      }
      cycle := guard > SLOTS;
    }

    /** The end of sched_enqueue. */
    method Append(i: nat) returns (cycle: bool)
      requires Ok() && i < SLOTS && i !in queues[procs[i].intent]
      modifies this`heads, this`link, this`queues, this`arrived, this`clock
      ensures Ok() && View() == S.Enqueue(old(View()), i)
      ensures !cycle
    {
      hide Linked, Shape, Distinct;
      ShapeSized(View());
      var c := procs[i].intent;
      GuardNeverFires(c);
      ghost var s, q := View(), queues[c];
      NotElsewhere(s, i);
      ShapeDistinct(s);
      AppendShape(s, i);
      LinkedHead(heads, link, queues, c);
      link := link[i := NIL];
      Unlink(heads, old(link), queues, i);
      cycle := false;
      if heads[c] == NIL {
        heads := heads[c := i];
      } else {
        var cur;
        cur, cycle := Last(c);
        link := link[cur := i];
      }
      AppendLinked(old(heads), old(link), heads, link, queues, c, i);
      queues, arrived, clock := queues[c := q + [i]], arrived[i := clock], clock + 1;
      assert View() == S.Enqueue(s, i);
    }

    /** sched_dequeue. */
    method Dequeue(i: nat)
      requires Ok() && i < SLOTS
      modifies this`heads, this`link, this`queues
      ensures Ok()
      ensures var c := procs[i].intent; queues == old(queues)[c := Without(old(queues)[c], i)]
    {
      hide Linked, Shape, Distinct, Without;
      ShapeSized(View());
      var c := procs[i].intent;
      ghost var q, qs := queues[c], queues;
      LinkedHead(heads, link, queues, c);
      ShapeDistinct(View());
      var cur, prev := heads[c], NIL;
      ghost var k := 0;
      while cur != NIL && cur != i
        invariant k <= |q| && cur == LinkAt(q, k) && cur < SLOTS && prev == (if k == 0 then NIL else q[k - 1])
        invariant prev < SLOTS
        invariant forall j :: 0 <= j < k ==> q[j] != i
        decreases |q| - k
        modifies {}
      {
        LinkedNext(heads, link, qs, c, k);
        prev := cur;
        cur := link[cur];
        k := k + 1;
        if k < |q| { LinkedNext(heads, link, qs, c, k); }
      }
      WithoutAt(q, i, k);
      if cur == i {
        LinkedNext(heads, link, qs, c, k);
        if prev != NIL { link := link[prev := link[cur]]; } else { heads := heads[c := link[cur]]; }
        link := link[i := NIL];
        RemoveLinked(old(heads), old(link), heads, link, qs, c, k);
        RemoveShape(View(), c, k);
        queues := queues[c := Without(q, i)];
      } else {
        assert queues[c := Without(q, i)] == queues;
      }
    }

    /** sched_next. */
    method Next() returns (r: int)
      requires Ok()
      ensures r == if Pick(queues) == CLASSES then NIL else queues[Pick(queues)][0]
    {
      hide Linked, Shape, Pick, Rank, Order;
      ShapeSized(View());
      r := NIL;
      var i := 0;
      while i < CLASSES && r == NIL
        invariant i <= CLASSES
        invariant r == NIL ==> forall d :: 0 <= d < CLASSES && queues[d] != [] ==> Rank(d) >= i
        invariant r != NIL ==> i > 0 && Chosen(queues, Order(i - 1)) && r == queues[Order(i - 1)][0]
      {
        LinkedHead(heads, link, queues, Order(i));
        RankOnce(queues, i);
        r := heads[Order(i)];
        i := i + 1;
      }
      if r == NIL { NoneChosen(queues); } else { ChosenPick(queues, Order(i - 1)); }
    }

    /** proc_get: a slot, or the table's length. */
    method ProcGet(pid: nat) returns (i: nat)
      ensures i == Find(procs, pid)
    {
      i := 0;
      while i < |procs| && !(procs[i].pid == pid && procs[i].status != Unused)
        invariant i <= |procs|
        invariant forall j :: 0 <= j < i ==> !(procs[j].pid == pid && procs[j].status != Unused)
      {
        i := i + 1;
      }
    }

    /** Slot i becomes p, which is READY, and is enqueued. */
    method Rouse(i: nat, p: Proc)
      requires Ok() && i < SLOTS && p.intent == procs[i].intent
      modifies this`procs, this`heads, this`link, this`queues, this`arrived, this`clock
      ensures Ok() && View() == Put(old(View()), i, p)
    {
      hide Linked, Shape;
      ShapeSet(View(), i, p);
      ShapeSized(View());
      procs := procs[i := p];
      var cycle := Enqueue(i);
    }

    /** unblock_sleepers. */
    method UnblockSleepers()
      requires Ok()
      modifies this`procs, this`heads, this`link, this`queues, this`arrived, this`clock
      ensures Ok() && View() == Sweep(old(View()), Sleepers, 0)
    {
      hide Linked, Shape, Put, Sweep, Find;
      ShapeSized(View());
      var k := 0;
      while k < SLOTS
        invariant k <= SLOTS && Ok() && Sized(View()) && uptime == old(uptime)
        invariant Sweep(View(), Sleepers, k) == Sweep(old(View()), Sleepers, 0)
      {
        ghost var was := View();
        var p := procs[k];
        if p.status == Blocked && p.wakeTick != 0 {
          if uptime >= p.wakeTick {
            Rouse(k, p.(wakeTick := 0, status := Ready));
          }
        }
        SweepStep(was, Sleepers, k);
        k := k + 1;
        ShapeSized(View());
      }
      SweepDone(View(), Sleepers);
    }

    /** unblock_waiters. */
    method UnblockWaiters()
      requires Ok()
      modifies this`procs, this`heads, this`link, this`queues, this`arrived, this`clock
      ensures Ok() && View() == Sweep(old(View()), Waiters, 0)
    {
      hide Linked, Shape, Put, Sweep, Find;
      ShapeSized(View());
      var k := 0;
      while k < SLOTS
        invariant k <= SLOTS && Ok() && Sized(View())
        invariant Sweep(View(), Waiters, k) == Sweep(old(View()), Waiters, 0)
      {
        ghost var was := View();
        var p := procs[k];
        if p.status == Blocked && p.blockedOn != 0 {
          var child := ProcGet(p.blockedOn);
          if child == SLOTS || procs[child].status == Zombie {
            Rouse(k, p.(blockedOn := 0, status := Ready));
          }
        }
        SweepStep(was, Waiters, k);
        k := k + 1;
        ShapeSized(View());
      }
      SweepDone(View(), Waiters);
    }

    /** The wakeup loop of proc_exit. */
    method WakeWaitersFor(pid: nat)
      requires Ok()
      modifies this`procs, this`heads, this`link, this`queues, this`arrived, this`clock
      ensures Ok() && View() == Sweep(old(View()), ExitOf(pid), 0)
    {
      hide Linked, Shape, Put, Sweep, Find;
      ShapeSized(View());
      var k := 0;
      while k < SLOTS
        invariant k <= SLOTS && Ok() && Sized(View())
        invariant Sweep(View(), ExitOf(pid), k) == Sweep(old(View()), ExitOf(pid), 0)
      {
        ghost var was := View();
        var p := procs[k];
        if p.status == Blocked && p.blockedOn == pid {
          Rouse(k, p.(blockedOn := 0, status := Ready));
        }
        SweepStep(was, ExitOf(pid), k);
        k := k + 1;
        ShapeSized(View());
      }
      SweepDone(View(), ExitOf(pid));
    }

    /** The wakeup loop of mutex_unlock and sem_post. */
    method WakePids(pids: seq<nat>)
      requires Ok()
      modifies this`procs, this`heads, this`link, this`queues, this`arrived, this`clock
      ensures Ok() && View() == WakeAll(old(View()), pids)
    {
      hide Linked, Shape, Put;
      ShapeSized(View());
      var k := 0;
      while k < |pids|
        invariant k <= |pids| && Ok() && Sized(View())
        invariant WakeAll(View(), pids[k..]) == WakeAll(old(View()), pids)
      {
        assert pids[k..][0] == pids[k] && pids[k..][1..] == pids[k + 1..];
        var i := ProcGet(pids[k]);
        if i < SLOTS && procs[i].status == Blocked {
          Rouse(i, procs[i].(status := Ready));
        }
        k := k + 1;
        ShapeSized(View());
      }
    }

    /** sched_tick, without the network poll. */
    method Tick()
      requires Valid()
      modifies this
      ensures Valid() && View() == B.TickStep(old(View()))
    {
      hide Linked, Shape, B.Inv, Sweep;
      InvShape(View());
      B.TickKeeps(View());
      uptime := (uptime + 1) % TWO64;
      ShapeRest(old(View()), View());
      UnblockSleepers();
      UnblockWaiters();
    }

    /** The end of sched_yield. */
    method Dispatch(next: nat)
      requires Linked(heads, link, queues) && Queued(View())
      requires Pick(queues) < CLASSES && next == queues[Pick(queues)][0]
      modifies this
      ensures Linked(heads, link, queues) && View() == Resume(old(View()))
    {
      hide Linked, Shape, Pick;
      assert Member(View(), Pick(queues), queues[Pick(queues)][0]);
      QueuedShape(View());
      WithoutAt(queues[Pick(queues)], next, 0);
      Dequeue(next);
      current := next;
      procs := procs[next := procs[next].(status := Running)];
    }

    /** sched_yield. A process that was RUNNING always finds a next one, so the branch for the
        opposite case is left out; otherwise the machine may idle, with no current process. */
    method Yield()
      requires Valid() && 0 <= current
      modifies this
      ensures Valid() && View() == B.YieldStep(old(View()))
      ensures old(procs[current].status) == Running ==> current >= 0
    {
      hide Linked, Shape, B.Inv, Sweep, Put, Resume, Queued;
      ghost var s := View();
      InvShape(s);
      B.YieldKeeps(s);
      B.ReleaseKeeps(s);
      InvShape(B.Release(s));
      SweepEffect(B.Release(s), Waiters, 0);
      if procs[current].status == Running { Rouse(current, procs[current].(status := Ready)); }
      current := NIL;
      assert View() == B.Release(s);
      UnblockWaiters();
      QueuedShape(View());
      var next := Next();
      if next != NIL { Dispatch(next); } else { ResumeNone(View()); }
    }

    /** One round of the idle loop of sched_yield. */
    method IdleRound()
      requires Valid() && current == NIL
      modifies this
      ensures Valid() && View() == B.IdleStep(old(View()))
    {
      hide Linked, Shape, B.Inv, Sweep, Put, Resume, Queued;
      ghost var s := View();
      InvShape(s);
      B.IdleKeeps(s);
      SweepEffect(s, Sleepers, 0);
      SweepEffect(Sweep(s, Sleepers, 0), Waiters, 0);
      UnblockSleepers();
      UnblockWaiters();
      QueuedShape(View());
      var next := Next();
      if next != NIL { Dispatch(next); } else { ResumeNone(View()); }
    }

    /** One round of mutex_lock, up to its return or its call of sched_yield. */
    method MutexLock(m: nat) returns (got: bool)
      requires Valid() && B.OnCpu(View()) && m < |mutexes| && (B.At(View(), User) || B.At(View(), Lock(m)))
      modifies this`procs, this`mutexes
      ensures Valid() && View() == B.LockStep(old(View()), m) && (got <==> !old(mutexes[m].locked))
    {
      hide Linked, B.Inv;
      B.LockKeeps(View(), m);
      var me, x := procs[current], mutexes[m];
      got := !x.locked;
      if got {
        mutexes := mutexes[m := x.(locked := true, owner := me.pid)];
        me := me.(at := User);
      } else {
        if |x.waiters| < MAX_WAITERS {
          mutexes := mutexes[m := x.(waiters := x.waiters + [me.pid])];
          me := me.(status := Blocked);
        }
        me := me.(at := Lock(m));
      }
      procs := procs[current := me];
    }

    /** mutex_trylock. */
    method MutexTryLock(m: nat) returns (got: bool)
      requires Valid() && B.OnCpu(View()) && m < |mutexes|
      modifies this`mutexes
      ensures Valid() && View() == B.TryLockStep(old(View()), m) && (got <==> !old(mutexes[m].locked))
    {
      hide Linked, B.Inv;
      B.TryLockKeeps(View(), m);
      got := false;
      if !mutexes[m].locked {
        mutexes := mutexes[m := mutexes[m].(locked := true, owner := procs[current].pid)];
        got := true;
      }
    }

    /** mutex_unlock: everyone blocked on the mutex is READY afterwards. */
    method MutexUnlock(m: nat)
      requires Valid() && m < |mutexes|
      modifies this
      ensures Valid() && View() == B.UnlockStep(old(View()), m)
      ensures forall i :: 0 <= i < |procs| && procs[i].status == Blocked ==> procs[i].at != Lock(m)
    {
      hide Linked, B.Inv, WakeAll, Shape;
      InvShape(View());
      B.UnlockKeeps(View(), m);
      NobodyAt(B.UnlockStep(View(), m), m);
      ghost var s := View();
      var x := mutexes[m];
      WakeAllRest(s, x.waiters);
      mutexes := mutexes[m := x.(locked := false, owner := 0)];
      ShapeRest(s, View());
      WakeAllSame(s, View(), x.waiters);
      WakePids(x.waiters);
      mutexes := mutexes[m := mutexes[m].(waiters := [])];
      assert mutexes == s.mutexes[m := Mutex(false, 0, [])];
    }

    /** One round of sem_wait, up to its return or its call of sched_yield. */
    method SemWait(k: nat) returns (got: bool)
      requires Valid() && B.OnCpu(View()) && k < |sems| && (B.At(View(), User) || B.At(View(), Wait(k)))
      modifies this`procs, this`sems
      ensures Valid() && View() == B.SemWaitStep(old(View()), k) && (got <==> old(sems[k].count) > 0)
    {
      hide Linked, B.Inv;
      B.SemWaitKeeps(View(), k);
      var me, x := procs[current], sems[k];
      got := x.count > 0;
      if got {
        sems := sems[k := x.(count := x.count - 1, waits := x.waits + 1)];
        me := me.(at := User);
      } else {
        if |x.waiters| < MAX_WAITERS {
          sems := sems[k := x.(waiters := x.waiters + [me.pid])];
          me := me.(status := Blocked);
        }
        me := me.(at := Wait(k));
      }
      procs := procs[current := me];
    }

    /** sem_post: everyone blocked on the semaphore is READY afterwards. */
    method SemPost(k: nat)
      requires Valid() && k < |sems|
      modifies this
      ensures Valid() && View() == B.SemPostStep(old(View()), k)
      ensures forall i :: 0 <= i < |procs| && procs[i].status == Blocked ==>
          procs[i].at != Wait(k) || sems[k].count <= 0
    {
      hide Linked, B.Inv, WakeAll, Shape;
      InvShape(View());
      B.PostKeeps(View(), k);
      NobodyWaits(B.SemPostStep(View(), k), k);
      ghost var s := View();
      var x := sems[k];
      WakeAllRest(s, x.waiters);
      sems := sems[k := x.(count := x.count + 1, posts := x.posts + 1)];
      ShapeRest(s, View());
      WakeAllSame(s, View(), x.waiters);
      WakePids(x.waiters);
      sems := sems[k := sems[k].(waiters := [])];
      assert sems == s.sems[k := x.(count := x.count + 1, posts := x.posts + 1, waiters := [])];
    }

    /** ipc_send: 0, -1 for no such receiver, -2 for a full inbox. */
    method Send(dst: nat, msg: Message) returns (code: int)
      requires Valid()
      modifies this
      ensures Valid() && View() == B.SendStep(old(View()), dst, msg) && (code == 0 <==> B.Accepts(old(View()), dst))
    {
      hide Linked, B.Inv, Shape, Put;
      B.SendKeeps(View(), dst, msg);
      InvShape(View());
      var i := ProcGet(dst);
      if i == SLOTS || procs[i].status == Zombie || !procs[i].mailbox { return -1; }
      if |procs[i].inbox| >= DEPTH { return -2; }
      var p := procs[i].(inbox := procs[i].inbox + [Kept(msg)]);
      if p.waiting {
        Rouse(i, p.(waiting := false, status := Ready));
      } else {
        procs := procs[i := p];
      }
      code := 0;
    }

    /** One round of ipc_recv (blocking), or ipc_recv_nb. */
    method Receive(now: bool) returns (got: bool, msg: Message)
      requires Valid() && B.OnCpu(View()) && (B.At(View(), User) || B.At(View(), Recv))
      modifies this`procs
      ensures Valid() && View() == B.ReceiveStep(old(View()), now)
      ensures got <==> old(procs[current].mailbox && procs[current].inbox != [])
      ensures got ==> old(procs[current].inbox) == [msg] + procs[current].inbox
    {
      hide Linked, B.Inv;
      B.ReceiveKeeps(View(), now);
      var me := procs[current];
      got, msg := false, Message(0, 0, []);
      if !me.mailbox {
        me := me.(at := User);
      } else if me.inbox != [] {
        got, msg := true, me.inbox[0];
        me := me.(inbox := me.inbox[1..], at := User);
      } else if !now {
        me := me.(waiting := true, status := Blocked, at := Recv);
      } else {
        assert procs[current := me] == procs;
      }
      procs := procs[current := me];
    }

    /** sys_waitpid_impl up to its call of sched_yield. */
    method Waitpid(pid: nat)
      requires Valid() && B.OnCpu(View()) && B.At(View(), User)
      modifies this`procs
      ensures Valid() && View() == B.WaitpidStep(old(View()), pid)
    {
      hide Linked, B.Inv, B.Lives;
      B.WaitpidKeeps(View(), pid);
      InvShape(View());
      var child := ProcGet(pid);
      if child == SLOTS { return; }
      var me := procs[current];
      if procs[child].status != Zombie { me := me.(blockedOn := pid, status := Blocked); }
      procs := procs[current := me.(at := Reap(pid))];
    }

    /** sys_waitpid_impl after it: only a zombie's slot is ever given up, and its exit code returned. */
    method ReapChild() returns (code: int)
      requires Valid() && B.OnCpu(View()) && procs[current].at.Reap?
      modifies this`procs
      ensures Valid() && View() == B.ReapStep(old(View())) && code == B.ReapCode(old(View()))
      ensures forall i :: 0 <= i < |procs| && procs[i].status == Unused && old(procs[i].status) != Unused ==>
          old(procs[i].status) == Zombie
    {
      hide Linked, B.Inv, B.Lives;
      B.ReapKeeps(View());
      B.ReapsOnlyZombies(View());
      InvShape(View());
      var child := ProcGet(procs[current].at.child);
      procs := procs[current := procs[current].(at := User)];
      code := -1;
      if child < SLOTS {
        code := procs[child].code;
        procs := procs[child := procs[child].(status := Unused, pid := 0)];
      }
    }

    /** sys_sleep up to its call of sched_yield. */
    method Nap(ticks: nat)
      requires Valid() && B.OnCpu(View()) && B.At(View(), User)
      modifies this`procs
      ensures Valid() && View() == B.NapStep(old(View()), ticks)
    {
      hide Linked, B.Inv;
      B.NapKeeps(View(), ticks);
      if ticks == 0 { return; }
      var due := uptime + ticks;
      procs := procs[current := procs[current].(wakeTick := due % TWO64, status := Blocked, at := Sleep(due))];
    }

    /** sys_sleep after it. */
    method WakeUp()
      requires Valid() && B.OnCpu(View()) && procs[current].at.Sleep?
      modifies this`procs
      ensures Valid() && View() == B.Cur(old(View()), old(procs[current]).(at := User))
    {
      hide Linked, B.Inv;
      B.WakeUpKeeps(View());
      procs := procs[current := procs[current].(at := User)];
    }

    /** The end of sys_spawn and of fork: the child is READY and queued. */
    method Start(i: nat)
      requires Valid() && i < SLOTS && procs[i].status == Blocked && procs[i].at == Fresh
      modifies this`procs, this`heads, this`link, this`queues, this`arrived, this`clock
      ensures Valid() && View() == Put(old(View()), i, old(procs[i]).(status := Ready, at := User))
    {
      hide Linked, B.Inv, Shape, Put;
      InvShape(View());
      B.StartKeeps(View(), i);
      Rouse(i, procs[i].(status := Ready, at := User));
    }

    /** proc_create. Without a kernel stack it returns NULL, but the slot and the pid are spent. */
    method ProcCreate(intent: nat, stack: bool, mailbox: bool) returns (i: nat)
      requires Valid() && intent < CLASSES
      modifies this`procs, this`nextPid
      ensures Valid() && View() == B.CreateStep(old(View()), intent, stack && mailbox)
      ensures i == if stack then B.Free(old(procs)) else SLOTS
    {
      hide Linked, B.Inv, B.Lives;
      B.NextPidPositive(View());
      B.CreateKeeps(View(), intent, stack && mailbox);
      InvShape(View());
      i := 0;
      while i < SLOTS && procs[i].status != Unused
        invariant i <= SLOTS && forall j :: 0 <= j < i ==> procs[j].status != Unused
        modifies {}
      {
        i := i + 1;
      }
      if i == SLOTS { return; }
      procs := procs[i := Proc(nextPid, Blocked, intent, 0, 0, false, false, [], Fresh, 0)];
      nextPid := nextPid + 1;
      if !stack { return SLOTS; }
      procs := procs[i := procs[i].(mailbox := mailbox)];
      assert procs == old(procs)[i := procs[i]];
    }

    /** proc_exit of the running process or of a child that failed to start. */
    method ProcExit(i: nat, code: int)
      requires Valid() && B.MayDie(View(), i)
      modifies this
      ensures Valid() && View() == B.Die(old(View()), i, code)
    {
      hide Linked, B.Inv, B.Lives, Shape, Sweep;
      B.DieKeeps(View(), i, code);
      InvShape(View());
      var pid := procs[i].pid;
      ShapeSet(View(), i, procs[i].(status := Zombie, mailbox := false, inbox := [], at := User, code := code));
      procs := procs[i := procs[i].(status := Zombie, mailbox := false, inbox := [], at := User, code := code)];
      WakeWaitersFor(pid);
    }
  }

  lemma BlankShape(s: State, p: Proc)
    requires Blank(s) && p.intent == INTERACTIVE
    ensures var t := s.(procs := s.procs[0 := p], nextPid := 2);
            && Shape(t)
            && S.Enqueue(t, 0) == t.(queues := s.queues[INTERACTIVE := [0]],
                                     arrived := s.arrived[0 := s.clock], clock := s.clock + 1)
  {
    assert s.queues[INTERACTIVE] == [] && s.queues[INTERACTIVE] + [0] == [0];
  }

  lemma InitBoots(s: State, t: State)
    requires Blank(s)
    requires t == s.(procs := t.procs, queues := t.queues, arrived := t.arrived, clock := t.clock,
                     current := 0, nextPid := 2)
    requires t.queues == s.queues[INTERACTIVE := []] && Sized(t)
    requires t.procs == s.procs[0 := t.procs[0]]
    requires t.procs[0] == Proc(1, Running, INTERACTIVE, 0, 0, false, t.procs[0].mailbox, [], User, 0)
    ensures R.Booted(t) && B.Inv(t)
  {
    hide B.Inv;
    R.BootedInv(t);
  }

  lemma InvShape(s: State)
    requires B.Inv(s)
    ensures Queued(s) && Shape(s) && Sized(s) && s.current < SLOTS
  {
    QueuedShape(s);
  }

  /** One slot of a scan. */
  lemma SweepStep(s: State, scan: Scan, k: nat)
    requires Sized(s) && k < SLOTS
    ensures Sweep(s, scan, k)
         == Sweep(if Due(s, scan, s.procs[k]) then Put(s, k, Roused(scan, s.procs[k])) else s, scan, k + 1)
  {
  }

  lemma SweepDone(s: State, scan: Scan)
    requires Sized(s)
    ensures Sweep(s, scan, SLOTS) == s
  {
  }

  /** Waking depends on the processes and queues only. */
  lemma {:induction false} WakeAllSame(s: State, t: State, pids: seq<nat>)
    requires Sized(s) && t == s.(mutexes := t.mutexes, sems := t.sems)
    ensures WakeAll(t, pids) == WakeAll(s, pids).(mutexes := t.mutexes, sems := t.sems)
    decreases |pids|
  {
    if pids == [] {
    } else {
      var i := Find(s.procs, pids[0]);
      if i < SLOTS && s.procs[i].status == Blocked {
        var p := s.procs[i].(status := Ready);
        WakeAllSame(Put(s, i, p), Put(t, i, p), pids[1..]);
      } else {
        WakeAllSame(s, t, pids[1..]);
      }
    }
  }

  lemma {:induction false} WakeAllRest(s: State, pids: seq<nat>)
    requires Sized(s)
    ensures SameRest(s, WakeAll(s, pids))
    decreases |pids|
  {
    if pids == [] {
    } else {
      var i := Find(s.procs, pids[0]);
      var woken := i < SLOTS && s.procs[i].status == Blocked;
      WakeAllRest(if woken then Put(s, i, s.procs[i].(status := Ready)) else s, pids[1..]);
    }
  }

  lemma NobodyAt(s: State, m: nat)
    requires B.Inv(s) && m < |s.mutexes| && !s.mutexes[m].locked
    ensures forall i :: 0 <= i < |s.procs| && s.procs[i].status == Blocked ==> s.procs[i].at != Lock(m)
  {
    forall i | 0 <= i < |s.procs| && s.procs[i].status == Blocked ensures s.procs[i].at != Lock(m) {
      assert B.Cause(s, s.procs[i]);
    }
  }

  lemma NobodyWaits(s: State, k: nat)
    requires B.Inv(s) && k < |s.sems|
    ensures forall i :: 0 <= i < |s.procs| && s.procs[i].status == Blocked ==>
        s.procs[i].at != Wait(k) || s.sems[k].count <= 0
  {
    forall i | 0 <= i < |s.procs| && s.procs[i].status == Blocked
      ensures s.procs[i].at != Wait(k) || s.sems[k].count <= 0
    {
      assert B.Cause(s, s.procs[i]);
    }
  }

  lemma ResumeNone(s: State)
    requires Queued(s) && Pick(s.queues) == CLASSES
    ensures Resume(s) == s
  {
  }

  lemma ShapeSet(s: State, i: nat, p: Proc)
    requires Shape(s) && i < SLOTS && p.intent == s.procs[i].intent
    ensures Shape(s.(procs := s.procs[i := p]))
  {
  }

  lemma ShapeRest(s: State, t: State)
    requires Shape(s) && t.procs == s.procs && t.queues == s.queues && t.arrived == s.arrived
    ensures Shape(t)
  {
  }

  ghost predicate Chosen(queues: seq<seq<nat>>, c: nat) {
    && |queues| == CLASSES && c < CLASSES && queues[c] != []
    && forall d :: 0 <= d < CLASSES && queues[d] != [] ==> Rank(c) <= Rank(d)
  }

  lemma ChosenPick(queues: seq<seq<nat>>, c: nat)
    requires Chosen(queues, c)
    ensures Pick(queues) == c
  {
    var p := Pick(queues);
    assert Rank(c) <= Rank(p);
  }

  lemma NoneChosen(queues: seq<seq<nat>>)
    requires |queues| == CLASSES && forall d :: 0 <= d < CLASSES && queues[d] != [] ==> Rank(d) >= CLASSES
    ensures Pick(queues) == CLASSES
  {
    assert Rank(0) < CLASSES && Rank(1) < CLASSES && Rank(2) < CLASSES && Rank(3) < CLASSES && Rank(4) < CLASSES;
  }

  lemma RankOnce(queues: seq<seq<nat>>, i: nat)
    requires |queues| == CLASSES && i < CLASSES && forall d :: 0 <= d < CLASSES && queues[d] != [] ==> Rank(d) >= i
    ensures queues[Order(i)] == [] ==> forall d :: 0 <= d < CLASSES && queues[d] != [] ==> Rank(d) >= i + 1
    ensures queues[Order(i)] != [] ==> Chosen(queues, Order(i))
  {
    forall d | 0 <= d < CLASSES && queues[d] != [] && Rank(d) == i ensures d == Order(i) {}
  }

  lemma ShapeSized(s: State)
    requires Shape(s)
    ensures Sized(s)
  {
  }

  lemma LinkedHead(heads: seq<int>, link: seq<int>, queues: seq<seq<nat>>, c: nat)
    requires Linked(heads, link, queues) && c < CLASSES
    ensures |heads| == CLASSES && |link| == SLOTS && |queues| == CLASSES && heads[c] == LinkAt(queues[c], 0)
    ensures queues[c] != [] ==> queues[c][0] < SLOTS
  {
  }

  lemma LinkedNext(heads: seq<int>, link: seq<int>, queues: seq<seq<nat>>, c: nat, k: nat)
    requires Linked(heads, link, queues) && c < CLASSES && k < |queues[c]|
    ensures |link| == SLOTS && queues[c][k] < SLOTS && link[queues[c][k]] == LinkAt(queues[c], k + 1)
  {
  }

  /** Writing the link of a slot that is in no queue. */
  lemma Unlink(heads: seq<int>, link: seq<int>, queues: seq<seq<nat>>, i: nat)
    requires Linked(heads, link, queues) && i < SLOTS
    requires forall d, k :: 0 <= d < CLASSES && 0 <= k < |queues[d]| ==> queues[d][k] != i
    ensures Linked(heads, link[i := NIL], queues)
  {
  }

  lemma AppendShape(s: State, i: nat)
    requires Shape(s) && i < SLOTS && i !in s.queues[s.procs[i].intent]
    ensures Shape(S.Enqueue(s, i))
  {
  }

  /** The list without its first i. */
  function Without(q: seq<nat>, i: nat): (r: seq<nat>)
    ensures i !in q ==> r == q
  {
    if q == [] then [] else if q[0] == i then q[1..] else [q[0]] + Without(q[1..], i)
  }

  lemma CutTail(q: seq<nat>, k: nat)
    requires q != [] && k <= |q|
    ensures k == 0 ==> q[..k] + q[k + 1..] == q[1..]
    ensures 0 < k < |q| ==> q[..k] + q[k + 1..] == [q[0]] + (q[1..][..k - 1] + q[1..][k..])
    ensures q == [q[0]] + q[1..]
  {
  }

  lemma {:induction false} WithoutAt(q: seq<nat>, i: nat, k: nat)
    requires k <= |q| && (forall j :: 0 <= j < k ==> q[j] != i) && (k < |q| ==> q[k] == i)
    ensures Without(q, i) == if k < |q| then q[..k] + q[k + 1..] else q
  {
    if q == [] {
    } else {
      CutTail(q, k);
      if k > 0 { WithoutAt(q[1..], i, k - 1); }
    }
  }

  lemma NotElsewhere(s: State, i: nat)
    requires Shape(s) && i < SLOTS && i !in s.queues[s.procs[i].intent]
    ensures forall c, k :: 0 <= c < CLASSES && 0 <= k < |s.queues[c]| ==> s.queues[c][k] != i
  {
  }

  /** No slot is in two places. */
  ghost predicate Distinct(queues: seq<seq<nat>>) {
    forall d, e, j, k ::
      0 <= d < |queues| && 0 <= e < |queues| && 0 <= j < |queues[d]| && 0 <= k < |queues[e]| && (d != e || j != k) ==>
      queues[d][j] != queues[e][k]
  }

  lemma ShapeDistinct(s: State)
    requires Shape(s)
    ensures Distinct(s.queues)
  {
    var queues := s.queues;
    forall d, e, j, k | 0 <= d < |queues| && 0 <= e < |queues| && 0 <= j < |queues[d]| && 0 <= k < |queues[e]| &&
      (d != e || j != k)
      ensures queues[d][j] != queues[e][k]
    {
      if d == e && k < j { assert queues[d][k] != queues[d][j]; }
    }
  }

  /** Memory after element k of queue c is linked past. */
  ghost predicate Removed(heads: seq<int>, link: seq<int>, heads': seq<int>, link': seq<int>, queues: seq<seq<nat>>,
      c: nat, k: nat) {
    && |heads| == |heads'| == CLASSES && |link| == |link'| == SLOTS && c < |queues| == CLASSES && k < |queues[c]|
    && queues[c][k] < SLOTS && (k > 0 ==> queues[c][k - 1] < SLOTS)
    && heads' == (if k == 0 then heads[c := link[queues[c][k]]] else heads)
    && link' == (if k == 0 then link else link[queues[c][k - 1] := link[queues[c][k]]])[queues[c][k] := NIL]
  }

  lemma RemoveOne(heads: seq<int>, link: seq<int>, heads': seq<int>, link': seq<int>, queues: seq<seq<nat>>, c: nat,
      k: nat, d: nat, j: nat)
    requires Linked(heads, link, queues) && Distinct(queues) && Removed(heads, link, heads', link', queues, c, k)
    requires d < CLASSES
    requires var qs := queues[c := queues[c][..k] + queues[c][k + 1..]]; j < |qs[d]|
    ensures var qs := queues[c := queues[c][..k] + queues[c][k + 1..]];
            qs[d][j] < SLOTS && link'[qs[d][j]] == LinkAt(qs[d], j + 1)
  {
    hide Linked, Distinct;
    var j' := if d == c && j >= k then j + 1 else j;
    Apart(queues, d, j', c, k);
    LinkedNext(heads, link, queues, d, j');
    LinkedNext(heads, link, queues, c, k);
    if k > 0 && !(d == c && j' == k - 1) { Apart(queues, d, j', c, k - 1); }
  }

  /** Linking past one element. */
  lemma RemoveLinked(heads: seq<int>, link: seq<int>, heads': seq<int>, link': seq<int>, queues: seq<seq<nat>>,
      c: nat, k: nat)
    requires Linked(heads, link, queues) && Distinct(queues) && Removed(heads, link, heads', link', queues, c, k)
    ensures Linked(heads', link', queues[c := queues[c][..k] + queues[c][k + 1..]])
  {
    var qs := queues[c := queues[c][..k] + queues[c][k + 1..]];
    forall d, j | 0 <= d < CLASSES && 0 <= j < |qs[d]|
      ensures qs[d][j] < SLOTS && link'[qs[d][j]] == LinkAt(qs[d], j + 1)
    {
      RemoveOne(heads, link, heads', link', queues, c, k, d, j);
    }
    hide Distinct;
    forall d | 0 <= d < CLASSES ensures heads'[d] == LinkAt(qs[d], 0) {
      LinkedHead(heads, link, queues, d);
      LinkedNext(heads, link, queues, c, k);
    }
  }

  lemma Apart(queues: seq<seq<nat>>, d: nat, j: nat, e: nat, k: nat)
    requires Distinct(queues) && d < |queues| && e < |queues| && j < |queues[d]| && k < |queues[e]|
    requires d != e || j != k
    ensures queues[d][j] != queues[e][k]
  {
  }

  lemma RemoveShape(s: State, c: nat, k: nat)
    requires Shape(s) && c < CLASSES && k < |s.queues[c]|
    ensures Shape(s.(queues := s.queues[c := s.queues[c][..k] + s.queues[c][k + 1..]]))
  {
    var t := s.(queues := s.queues[c := s.queues[c][..k] + s.queues[c][k + 1..]]);
    forall d, j | 0 <= d < CLASSES && 0 <= j < |t.queues[d]|
      ensures t.queues[d][j] < SLOTS && t.procs[t.queues[d][j]].intent == d
    {
      var j' := if d == c && j >= k then j + 1 else j;
      assert t.queues[d][j] == s.queues[d][j'];
    }
    forall d, i, j | 0 <= d < CLASSES && 0 <= i < j < |t.queues[d]| ensures t.queues[d][i] != t.queues[d][j] {
      var i' := if d == c && i >= k then i + 1 else i;
      var j' := if d == c && j >= k then j + 1 else j;
      assert t.queues[d][i] == s.queues[d][i'] && t.queues[d][j] == s.queues[d][j'];
    }
  }

  /** Linking a new last element. */
  lemma AppendLinked(heads: seq<int>, link: seq<int>, heads': seq<int>, link': seq<int>, queues: seq<seq<nat>>,
      c: nat, i: nat)
    requires Linked(heads, link, queues) && c < CLASSES && i < SLOTS && |heads'| == CLASSES && |link'| == SLOTS
    requires forall d, k :: 0 <= d < CLASSES && 0 <= k < |queues[d]| ==> queues[d][k] != i
    requires Distinct(queues)
    requires var q := queues[c];
             if q == [] then heads' == heads[c := i] && link' == link[i := NIL]
             else heads' == heads && link' == link[i := NIL][q[|q| - 1] := i]
    ensures Linked(heads', link', queues[c := queues[c] + [i]])
  {
    var q, qs := queues[c], queues[c := queues[c] + [i]];
    forall d, k | 0 <= d < CLASSES && 0 <= k < |qs[d]|
      ensures qs[d][k] < SLOTS && link'[qs[d][k]] == LinkAt(qs[d], k + 1)
    {
      if d != c || k < |q| { assert queues[d][k] == qs[d][k]; }
    }
  }
}
