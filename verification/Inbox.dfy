/** The ring of messages behind a process's inbox (ipc_state_t in kernel/ipc/ipc.h). */
module Inbox {
  import opened Sched

  /** The index k places after the head. */
  function Place(head: nat, k: nat): (r: nat)
    ensures r < DEPTH
    ensures head < DEPTH && k <= DEPTH ==> r == if head + k < DEPTH then head + k else head + k - DEPTH
  {
    (head + k) % DEPTH
  }

  class Ring {
    const queue: array<Message>
    var head: nat
    var tail: nat
    var count: nat

    ghost predicate Valid()
      reads this
    {
      queue.Length == DEPTH && head < DEPTH && count <= DEPTH && tail == Place(head, count)
    }

    /** The messages held, oldest first. */
    ghost function Contents(): (s: seq<Message>)
      reads this, queue
      requires Valid()
      ensures |s| == count
    {
      seq(count, k requires 0 <= k < count reads this, queue requires Valid() => queue[Place(head, k)])
    }

    /** ipc_alloc_state. */
    constructor ()
      ensures Valid() && fresh(queue) && Contents() == []
    {
      queue := new Message[DEPTH](_ => Message(0, 0, []));
      head, tail, count := 0, 0, 0;
    }

    /** The queue part of ipc_send: refuses when full, drops what does not fit in a slot. */
    method Push(msg: Message) returns (ok: bool)
      requires Valid()
      modifies this`tail, this`count, queue
      ensures Valid() && ok == (|old(Contents())| < DEPTH)
      ensures Contents() == if ok then old(Contents()) + [Kept(msg)] else old(Contents())
    {
      hide Kept, Place;
      ok := count < DEPTH;
      if ok {
        queue[tail] := Kept(msg);
        RingPlaces(head, count);
        tail, count := (tail + 1) % DEPTH, count + 1;
      }
    }

    /** The queue part of ipc_recv and ipc_recv_nb. */
    method Pop() returns (ok: bool, msg: Message)
      requires Valid()
      modifies this`head, this`count
      ensures Valid() && ok == (old(Contents()) != [])
      ensures if ok then old(Contents()) == [msg] + Contents() else Contents() == old(Contents())
    {
      hide Place;
      ok, msg := count > 0, Message(0, 0, []);
      if ok {
        HeadMoves(head, (head + 1) % DEPTH, count);
        msg := queue[head];
        head, count := (head + 1) % DEPTH, count - 1;
      }
    }
  }

  /** The place after the last one is free. */
  lemma RingPlaces(head: nat, count: nat)
    requires head < DEPTH && count < DEPTH
    ensures (Place(head, count) + 1) % DEPTH == Place(head, count + 1)
    ensures forall k :: 0 <= k < count ==> Place(head, k) != Place(head, count)
  {
    hide Place;
  }

  /** Moving the head on moves every place on. */
  lemma HeadMoves(head: nat, next: nat, count: nat)
    requires head < DEPTH && count <= DEPTH && next == (head + 1) % DEPTH
    ensures forall k :: 0 <= k < count ==> Place(next, k) == Place(head, k + 1)
    ensures Place(head, 0) == head
  {
    hide Place;
  }
}
