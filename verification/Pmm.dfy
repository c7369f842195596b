/** The zoned physical frame allocator (kernel/mm/pmm.c). */
module Pmm {
  import opened Words

  const PAGE_SIZE: nat := 4096
  const ZONE_GREEN: nat := 0
  const ZONE_YELLOW: nat := 1
  const ZONE_RED: nat := 2
  const ZONE_COUNT: nat := 3

  /** Bytes of one page_frame_t. */
  const RECORD_SIZE: nat := 12

  /** page_frame_t, with PF_FREE and PF_LOCKED as booleans. */
  datatype Frame = Frame(refCount: nat, zone: nat, free: bool, locked: bool)

  /** The allocator's whole state. */
  datatype Pool = Pool(start: nat, frames: seq<Frame>, cursor: seq<nat>, avail: seq<nat>)

  predicate Allocatable(f: Frame, z: nat) {
    f.zone == z && f.free && !f.locked && f.refCount == 0
  }

  /** How many frames of zone z can be handed out. */
  function Count(frames: seq<Frame>, z: nat): nat {
    if frames == [] then 0
    else Count(frames[..|frames| - 1], z) + if Allocatable(frames[|frames| - 1], z) then 1 else 0
  }

  predicate Shape(p: Pool) {
    && |p.cursor| == 3 && |p.avail| == 3 && p.start <= |p.frames|
    && (forall z :: 0 <= z < 3 ==> p.start <= p.cursor[z] <= |p.frames|)
    && (forall i :: 0 <= i < |p.frames| ==> p.frames[i].zone < 3)
  }

  /** A frame's flags agree with its reference count; the database frames are locked. */
  predicate FrameOk(p: Pool, i: nat)
    requires i < |p.frames|
  {
    var f := p.frames[i];
    && (f.locked <==> i < p.start)
    && (f.locked ==> !f.free)
    && (!f.locked ==> (f.free <==> f.refCount == 0))
    && f.refCount < TWO32
  }

  predicate Counters(p: Pool)
    requires |p.avail| == 3
  {
    && p.avail[0] == Count(p.frames, 0)
    && p.avail[1] == Count(p.frames, 1)
    && p.avail[2] == Count(p.frames, 2)
  }

  /** The invariant: every counter is the number of allocatable frames of its zone. */
  predicate Counted(p: Pool) {
    Shape(p) && Counters(p) && forall i :: 0 <= i < |p.frames| ==> FrameOk(p, i)
  }

  // ----- counting ----------------------------------------------------------------------

  /** Replacing one frame changes the counts by that frame alone. */
  lemma {:induction false} CountUpdate(frames: seq<Frame>, i: nat, f: Frame, z: nat)
    requires i < |frames|
    ensures Count(frames[i := f], z) + (if Allocatable(frames[i], z) then 1 else 0)
         == Count(frames, z) + (if Allocatable(f, z) then 1 else 0)
  {
    var n := |frames| - 1;
    if i == n {
      assert frames[i := f][..n] == frames[..n];
    } else {
      assert frames[i := f][..n] == frames[..n][i := f];
      CountUpdate(frames[..n], i, f, z);
    }
  }

  /** A zone is exhausted exactly when none of its frames is allocatable. */
  lemma {:induction false} CountZero(frames: seq<Frame>, z: nat)
    ensures Count(frames, z) == 0 <==> forall i :: 0 <= i < |frames| ==> !Allocatable(frames[i], z)
  {
    if frames == [] {
    } else {
      var n := |frames| - 1;
      CountZero(frames[..n], z);
      assert forall i :: 0 <= i < n ==> frames[..n][i] == frames[i];
    }
  }

  // ----- the three operations on states --------------------------------------------------

  /** i is the first allocatable frame of zone z, scanning circularly from the cursor. */
  predicate IsNext(p: Pool, z: nat, i: nat)
    requires Shape(p) && z < 3
  {
    && p.start <= i < |p.frames| && Allocatable(p.frames[i], z)
    && var c := p.cursor[z];
       if c <= i then forall j :: c <= j < i ==> !Allocatable(p.frames[j], z)
       else && (forall j :: c <= j < |p.frames| ==> !Allocatable(p.frames[j], z))
            && (forall j :: p.start <= j < i ==> !Allocatable(p.frames[j], z))
  }

  /** The state after frame i of zone z is handed out. */
  function Taken(p: Pool, z: nat, i: nat): Pool
    requires Shape(p) && z < 3 && i < |p.frames| && p.avail[z] > 0
  {
    p.(frames := p.frames[i := p.frames[i].(free := false, refCount := 1)],
       cursor := p.cursor[z := if i + 1 >= |p.frames| then p.start else i + 1],
       avail := p.avail[z := p.avail[z] - 1])
  }

  /** The state after pmm_free of frame i. */
  function Freed(p: Pool, i: nat): Pool
    requires Shape(p) && i < |p.frames|
  {
    var f := p.frames[i];
    if f.locked then p
    else
      var rc := if f.refCount > 0 then f.refCount - 1 else 0;
      if rc == 0 then
        p.(frames := p.frames[i := f.(refCount := 0, free := true)],
           avail := p.avail[f.zone := p.avail[f.zone] + 1])
      else p.(frames := p.frames[i := f.(refCount := rc)])
  }

  /** The state after pmm_ref of frame i. */
  function Reffed(p: Pool, i: nat): Pool
    requires i < |p.frames|
  {
    var f := p.frames[i];
    p.(frames := p.frames[i := f.(refCount := (f.refCount + 1) % TWO32)])
  }

  lemma TakenKeeps(p: Pool, z: nat, i: nat)
    requires Counted(p) && z < 3 && i < |p.frames| && Allocatable(p.frames[i], z)
    ensures p.avail[z] > 0
    ensures Counted(Taken(p, z, i))
  {
    assert FrameOk(p, i);
    CountZero(p.frames, 0); CountZero(p.frames, 1); CountZero(p.frames, 2);
    var f := p.frames[i].(free := false, refCount := 1);
    CountUpdate(p.frames, i, f, 0); CountUpdate(p.frames, i, f, 1); CountUpdate(p.frames, i, f, 2);
    hide Count;
    var q := Taken(p, z, i);
    forall j | 0 <= j < |q.frames| ensures FrameOk(q, j) { assert FrameOk(p, j); }
  }

  /** Freeing keeps the counters right exactly when the frame is held (or locked):
      a second free of the same frame counts it twice. */
  lemma FreedKeepsIff(p: Pool, i: nat)
    requires Counted(p) && i < |p.frames|
    ensures Counted(Freed(p, i)) <==> p.frames[i].locked || p.frames[i].refCount > 0
  {
    assert FrameOk(p, i);
    var q := Freed(p, i);
    CountUpdate(p.frames, i, q.frames[i], 0);
    CountUpdate(p.frames, i, q.frames[i], 1);
    CountUpdate(p.frames, i, q.frames[i], 2);
    hide Count;
    if p.frames[i].locked || p.frames[i].refCount > 0 {
      forall j | 0 <= j < |q.frames| ensures FrameOk(q, j) { assert FrameOk(p, j); }
    }
    if p.frames[i].locked { assert q.frames == p.frames; }
  }

  /** Taking a reference keeps the counters right exactly when the frame is held and
      its 32-bit count does not wrap (or the frame is locked and does not wrap). */
  lemma ReffedKeepsIff(p: Pool, i: nat)
    requires Counted(p) && i < |p.frames|
    ensures Counted(Reffed(p, i)) <==>
              p.frames[i].locked || (p.frames[i].refCount > 0 && p.frames[i].refCount < TWO32 - 1)
  {
    assert FrameOk(p, i);
    var q := Reffed(p, i);
    CountUpdate(p.frames, i, q.frames[i], 0);
    CountUpdate(p.frames, i, q.frames[i], 1);
    CountUpdate(p.frames, i, q.frames[i], 2);
    hide Count;
    if p.frames[i].locked || (p.frames[i].refCount > 0 && p.frames[i].refCount < TWO32 - 1) {
      forall j | 0 <= j < |q.frames| ensures FrameOk(q, j) { assert FrameOk(p, j); }
    } else {
      assert !FrameOk(q, i);
    }
  }

  // ----- runs -----------------------------------------------------------------------------

  datatype Op = Alloc(zone: nat) | Free(frame: nat) | Ref(frame: nat)

  /** The allocator together with the references its callers hold. */
  datatype World = World(pool: Pool, held: multiset<nat>)

  /** Every frame's count is the number of references held to it. */
  ghost predicate Inv(w: World) {
    && Counted(w.pool)
    && (forall i :: i in w.held ==> w.pool.start <= i < |w.pool.frames|)
    && (forall i :: w.pool.start <= i < |w.pool.frames| ==> w.pool.frames[i].refCount == w.held[i])
  }

  /** Callers free and reference only frames they hold. */
  predicate Legal(w: World, op: Op) {
    match op
    case Alloc(_) => true
    case Free(i) => i in w.held
    case Ref(i) => i in w.held && w.held[i] < TWO32 - 1
  }

  /** One call; got is the frame an allocation hands out, if it hands one out. */
  ghost predicate Next(w: World, op: Op, w': World, got: nat)
    requires Shape(w.pool)
  {
    match op
    case Alloc(z) =>
      if z >= 3 || w.pool.avail[z] == 0 then w' == w && got == 0
      else && IsNext(w.pool, z, got)
           && w' == World(Taken(w.pool, z, got), w.held + multiset{got})
    case Free(i) => i < |w.pool.frames| && w' == World(Freed(w.pool, i), w.held - multiset{i}) && got == 0
    case Ref(i) => i < |w.pool.frames| && w' == World(Reffed(w.pool, i), w.held + multiset{i}) && got == 0
  }

  /** No frame of zone z can be handed out. */
  predicate Exhausted(p: Pool, z: nat) {
    z >= 3 || forall i :: 0 <= i < |p.frames| ==> !Allocatable(p.frames[i], z)
  }

  lemma AllocKeeps(w: World, z: nat, w': World, got: nat)
    requires Inv(w) && Next(w, Alloc(z), w', got)
    ensures Inv(w') && w'.pool.start == w.pool.start && |w'.pool.frames| == |w.pool.frames|
    ensures w' == w <==> Exhausted(w.pool, z)
    ensures w' != w ==> got !in w.held && got in w'.held && w.pool.frames[got].zone == z
  {
    if z < 3 {
      CountZero(w.pool.frames, z);
      if w.pool.avail[z] > 0 {
        TakenKeeps(w.pool, z, got);
        hide Count;
        assert w.pool.frames[got].refCount == w.held[got];
        assert got in w'.held;
      }
    }
  }

  lemma FreeKeeps(w: World, i: nat, w': World, got: nat)
    requires Inv(w) && i in w.held && Next(w, Free(i), w', got)
    ensures Inv(w') && w'.pool.start == w.pool.start && |w'.pool.frames| == |w.pool.frames|
  {
    FreedKeepsIff(w.pool, i);
    assert FrameOk(w.pool, i);
    hide Count, Counters;
    var q := w'.pool;
    forall j | q.start <= j < |q.frames| ensures q.frames[j].refCount == w'.held[j] {
      assert w.pool.frames[j].refCount == w.held[j];
    }
  }

  lemma RefKeeps(w: World, i: nat, w': World, got: nat)
    requires Inv(w) && i in w.held && w.held[i] < TWO32 - 1 && Next(w, Ref(i), w', got)
    ensures Inv(w') && w'.pool.start == w.pool.start && |w'.pool.frames| == |w.pool.frames|
  {
    ReffedKeepsIff(w.pool, i);
    assert FrameOk(w.pool, i);
    hide Count, Counters;
    var q := w'.pool;
    forall j | q.start <= j < |q.frames| ensures q.frames[j].refCount == w'.held[j] {
      assert w.pool.frames[j].refCount == w.held[j];
    }
  }

  /** A legal call keeps the invariant; an allocation succeeds exactly when its zone has
      an allocatable frame, and never hands out a frame that is still held. */
  lemma NextKeeps(w: World, op: Op, w': World, got: nat)
    requires Inv(w) && Legal(w, op) && Next(w, op, w', got)
    ensures Inv(w') && w'.pool.start == w.pool.start && |w'.pool.frames| == |w.pool.frames|
    ensures op.Alloc? ==> (w' == w <==> Exhausted(w.pool, op.zone))
    ensures op.Alloc? && w' != w ==> got !in w.held && got in w'.held && w.pool.frames[got].zone == op.zone
  {
    hide Inv, Next, Exhausted;
    match op
    case Alloc(z) => AllocKeeps(w, z, w', got);
    case Free(i) => FreeKeeps(w, i, w', got);
    case Ref(i) => RefKeeps(w, i, w', got);
  }

  /** A run: states one longer than the calls between them. */
  ghost predicate IsRun(ws: seq<World>, ops: seq<Op>, gots: seq<nat>) {
    && |ws| == |ops| + 1 && |gots| == |ops|
    && (forall k :: 0 <= k < |ops| ==>
      Shape(ws[k].pool) && Legal(ws[k], ops[k]) && Next(ws[k], ops[k], ws[k + 1], gots[k]))
  }

  /** In every state of every legal run each zone counter is the number of its
      allocatable frames and every reference count is the number of holders. */
  lemma {:induction false} RunKeeps(ws: seq<World>, ops: seq<Op>, gots: seq<nat>, k: nat)
    requires IsRun(ws, ops, gots) && Inv(ws[0]) && k < |ws|
    ensures Inv(ws[k])
  {
    if k == 0 {
    } else {
      RunKeeps(ws, ops, gots, k - 1);
      NextKeeps(ws[k - 1], ops[k - 1], ws[k], gots[k - 1]);
    }
  }

  /** In a legal run a frame is never handed out twice without its last reference
      having been given back in between. */
  lemma NoDoubleGrant(ws: seq<World>, ops: seq<Op>, gots: seq<nat>, j: nat, k: nat)
    requires IsRun(ws, ops, gots) && Inv(ws[0]) && j < k < |ops|
    requires ops[j].Alloc? && ws[j + 1] != ws[j] && ops[k].Alloc? && ws[k + 1] != ws[k]
    requires gots[j] == gots[k]
    ensures exists m :: j < m < k && ops[m] == Free(gots[j]) && gots[j] in ws[m].held && gots[j] !in ws[m + 1].held
  {
    RunKeeps(ws, ops, gots, j);
    NextKeeps(ws[j], ops[j], ws[j + 1], gots[j]);
    RunKeeps(ws, ops, gots, k);
    NextKeeps(ws[k], ops[k], ws[k + 1], gots[k]);
    var m := LastHeld(ws, ops, gots, j + 1, k, gots[j]);
  }

  /** A frame held at a and not at b lost its last reference to a Free in between. */
  lemma {:induction false} LastHeld(ws: seq<World>, ops: seq<Op>, gots: seq<nat>, a: nat, b: nat, i: nat)
      returns (m: nat)
    requires IsRun(ws, ops, gots) && a <= b < |ws|
    requires i in ws[a].held && i !in ws[b].held
    ensures a <= m < b && ops[m] == Free(i) && i in ws[m].held && i !in ws[m + 1].held
    decreases b - a
  {
    hide Next, IsRun;
    RunStep(ws, ops, gots, a);
    if i in ws[a + 1].held {
      m := LastHeld(ws, ops, gots, a + 1, b, i);
    } else {
      m := a;
      OnlyFreeDrops(ws[a], ops[a], ws[a + 1], gots[a], i);
    }
  }

  lemma RunStep(ws: seq<World>, ops: seq<Op>, gots: seq<nat>, k: nat)
    requires IsRun(ws, ops, gots) && k < |ws|
    ensures k + 1 < |ws| ==>
        k < |ops| && k < |gots| && Shape(ws[k].pool) && Legal(ws[k], ops[k]) && Next(ws[k], ops[k], ws[k + 1], gots[k])
    ensures |ws| == |ops| + 1 == |gots| + 1
  {
  }

  lemma OnlyFreeDrops(w: World, op: Op, w': World, got: nat, i: nat)
    requires Shape(w.pool) && Legal(w, op) && Next(w, op, w', got) && i in w.held && i !in w'.held
    ensures op == Free(i)
  {
  }

  // ----- the code ----------------------------------------------------------------------------

  class Allocator {
    const frames: array<Frame>
    const zoneCursor: array<nat>
    const zoneFree: array<nat>
    const frameBase: nat
    const allocStart: nat

    ghost function View(): Pool
      reads frames, zoneCursor, zoneFree
    {
      Pool(allocStart, frames[..], zoneCursor[..], zoneFree[..])
    }

    /** Apart from the invariant: the managed region lies in the 64-bit address space,
        above address 0. */
    ghost predicate Valid()
      reads frames, zoneCursor, zoneFree
    {
      && zoneCursor != zoneFree
      && 0 < frameBase < TWO64 && frameBase + PAGE_SIZE * frames.Length <= TWO64
      && Counted(View())
    }

    function IdxToPhys(i: nat): nat
    {
      frameBase + i * PAGE_SIZE
    }

    /** phys_to_idx, with the 64-bit wrap of the subtraction. */
    function PhysToIdx(phys: nat): nat
      requires phys < TWO64 && frameBase < TWO64
    {
      (phys + TWO64 - frameBase) % TWO64 / PAGE_SIZE
    }

    /** Lines 41-59 of pmm_init: fill in the frame database. */
    static method Database(frameCount: nat, dbPages: nat, zoneSize: nat) returns (fs: array<Frame>)
      requires dbPages <= frameCount
      ensures fresh(fs) && fs.Length == frameCount && IsInitial(fs[..], dbPages, zoneSize)
    {
      fs := new Frame[frameCount](_ => Frame(0, 0, false, false));
      var i := dbPages;
      while i < frameCount
        invariant dbPages <= i <= frameCount
        invariant forall k :: dbPages <= k < i ==> fs[k] == Frame(0, ZoneOf(k - dbPages, zoneSize), true, false)
      {
        var rel := i - dbPages;
        var z := if rel < zoneSize then ZONE_GREEN else if rel < zoneSize * 2 then ZONE_YELLOW else ZONE_RED;
        fs[i] := Frame(0, z, true, false);
        i := i + 1;
      }
      i := 0;
      while i < dbPages
        invariant 0 <= i <= dbPages
        invariant forall k :: 0 <= k < i ==> fs[k] == Frame(1, ZONE_GREEN, false, true)
        invariant forall k :: dbPages <= k < frameCount ==>
            fs[k] == Frame(0, ZoneOf(k - dbPages, zoneSize), true, false)
      {
        fs[i] := Frame(1, ZONE_GREEN, false, true);
        i := i + 1;
      }
    }

    /** pmm_init: the frame database takes the first frames, the rest is cut in three. */
    constructor (memBase: nat, memSize: nat)
      requires 0 < memBase < TWO64 && memBase + memSize <= TWO64
      ensures Valid() && fresh(frames) && fresh(zoneCursor) && fresh(zoneFree)
      ensures frameBase == memBase && frames.Length == memSize / PAGE_SIZE
      ensures allocStart == DatabasePages(frames.Length)
      ensures var usable := frames.Length - allocStart;
              View().avail == [usable / 3, usable / 3, usable - 2 * (usable / 3)]
      ensures forall i :: allocStart <= i < frames.Length ==> frames[i].refCount == 0
    {
      hide Counted, Counters, Count, IsInitial;
      var frameCount := memSize / PAGE_SIZE;
      var dbBytes := frameCount * RECORD_SIZE;
      var dbPages := (dbBytes + PAGE_SIZE - 1) / PAGE_SIZE;
      DatabaseFits(frameCount);
      var usable := frameCount - dbPages;
      var zoneSize := usable / ZONE_COUNT;
      var redSize := usable - zoneSize * 2;
      var fs := Database(frameCount, dbPages, zoneSize);
      frames := fs;
      frameBase := memBase;
      allocStart := dbPages;
      zoneCursor := new nat[3][dbPages, dbPages + zoneSize, dbPages + zoneSize * 2];
      zoneFree := new nat[3][zoneSize, zoneSize, redSize];
      new;
      InitialCounted(frames[..], dbPages, zoneSize);
      assert View() == InitialPool(frames[..], dbPages, zoneSize);
      assert forall i :: 0 <= i < frames.Length ==> frames[i] == frames[..][i];
    }

    /** Lines 78-103: the circular scan. It has no bound of its own: it ends because the
        counter promises a frame, so the loop's test `i != start` never fails. */
    method Scan(zone: nat) returns (i: nat)
      requires Valid() && zone < 3 && zoneFree[zone] > 0
      ensures IsNext(View(), zone, i)
    {
      hide Counted, Counters, Count;
      ghost var p := View();
      CountedShape(p);
      assert p.avail[zone] == zoneFree[zone];
      ghost var target := SomeAllocatable(p, zone);
      var start := zoneCursor[zone];
      i := start;
      ghost var wrapped := false;
      while true
        invariant p.start <= i <= |p.frames|
        invariant !wrapped ==> start <= i && forall j :: start <= j < i ==> !Allocatable(p.frames[j], zone)
        invariant wrapped ==> start > target && i <= target
        invariant wrapped ==> forall j :: start <= j < |p.frames| ==> !Allocatable(p.frames[j], zone)
        invariant wrapped ==> forall j :: p.start <= j < i ==> !Allocatable(p.frames[j], zone)
        decreases !wrapped, |p.frames| - i
      {
        if i >= frames.Length {
          i := allocStart;
          wrapped := true;
        }
        if frames[i].zone == zone && frames[i].free && !frames[i].locked && frames[i].refCount == 0 {
          return;
        }
        i := i + 1;
        assert i != start;
      }
    }

    /** Lines 90-99: hand out frame i. */
    method Take(zone: nat, i: nat)
      requires Valid() && zone < 3 && i < frames.Length && Allocatable(frames[i], zone)
      modifies frames, zoneCursor, zoneFree
      ensures Valid() && old(zoneFree[zone]) > 0
      ensures View() == Taken(old(View()), zone, i)
    {
      TakenKeeps(View(), zone, i);
      hide Counted, Counters, Count;
      CountedShape(View());
      frames[i] := frames[i].(free := false, refCount := 1);
      zoneCursor[zone] := i + 1;
      if zoneCursor[zone] >= frames.Length {
        zoneCursor[zone] := allocStart;
      }
      zoneFree[zone] := zoneFree[zone] - 1;
      assert View() == Taken(old(View()), zone, i);
    }

    /** pmm_alloc: 0 exactly when the zone number is bad or the zone is exhausted. */
    method Alloc(zone: nat) returns (phys: nat)
      requires Valid()
      modifies frames, zoneCursor, zoneFree
      ensures Valid()
      ensures phys == 0 <==> Exhausted(old(View()), zone)
      ensures phys == 0 ==> View() == old(View())
      ensures phys != 0 ==> zone < 3 && old(View()).avail[zone] > 0
      ensures phys != 0 ==> exists i :: IsNext(old(View()), zone, i) && phys == IdxToPhys(i)
                                        && View() == Taken(old(View()), zone, i)
    {
      if zone >= ZONE_COUNT { return 0; }
      CountZero(frames[..], zone);
      if zoneFree[zone] == 0 { return 0; }
      var i := Scan(zone);
      Take(zone, i);
      phys := IdxToPhys(i);
    }

    /** pmm_free: address 0, addresses outside the region and locked frames are ignored.
        The invariant survives exactly when the frame was held. */
    method Free(phys: nat)
      requires Valid() && phys < TWO64
      modifies frames, zoneFree
      ensures Valid() <==> phys == 0 || PhysToIdx(phys) >= frames.Length
                           || old(frames[PhysToIdx(phys)].locked) || old(frames[PhysToIdx(phys)].refCount) > 0
      ensures View() == if phys == 0 || PhysToIdx(phys) >= frames.Length then old(View())
                        else Freed(old(View()), PhysToIdx(phys))
    {
      if phys == 0 { return; }
      var idx := PhysToIdx(phys);
      if idx >= frames.Length { return; }
      FreedKeepsIff(View(), idx);
      hide Counted, Counters, Count;
      CountedShape(View());
      if frames[idx].locked { return; }
      if frames[idx].refCount > 0 {
        frames[idx] := frames[idx].(refCount := frames[idx].refCount - 1);
      }
      if frames[idx].refCount == 0 {
        frames[idx] := frames[idx].(free := true);
        zoneFree[frames[idx].zone] := zoneFree[frames[idx].zone] + 1;
      }
      assert View() == Freed(old(View()), idx);
    }

    /** pmm_ref: one more holder. The invariant survives exactly when the frame was held
        and its count does not wrap. */
    method Ref(phys: nat)
      requires Valid() && phys < TWO64
      modifies frames
      ensures Valid() <==> PhysToIdx(phys) >= frames.Length || old(frames[PhysToIdx(phys)].locked)
                           || 0 < old(frames[PhysToIdx(phys)].refCount) < TWO32 - 1
      ensures View() == if PhysToIdx(phys) >= frames.Length then old(View()) else Reffed(old(View()), PhysToIdx(phys))
    {
      var idx := PhysToIdx(phys);
      if idx < frames.Length {
        ReffedKeepsIff(View(), idx);
        hide Counted, Counters, Count;
        frames[idx] := frames[idx].(refCount := (frames[idx].refCount + 1) % TWO32);
        assert View() == Reffed(old(View()), idx);
      }
    }

    /** An address handed out leads back to its frame; addresses below the region, whose
        subtraction wraps, and above it lead to no frame. */
    lemma AddressRoundTrip(phys: nat)
      requires Valid() && phys < TWO64 && frameBase < TWO64
      ensures forall i :: 0 <= i < frames.Length && IdxToPhys(i) == phys ==> PhysToIdx(phys) == i
      ensures PhysToIdx(phys) < frames.Length <==> frameBase <= phys < frameBase + PAGE_SIZE * frames.Length
    {
      forall i | 0 <= i < frames.Length && IdxToPhys(i) == phys ensures PhysToIdx(phys) == i {
        assert phys + TWO64 - frameBase == TWO64 + i * PAGE_SIZE;
      }
      if phys < frameBase {
        assert (phys + TWO64 - frameBase) % TWO64 == phys + TWO64 - frameBase;
      } else {
        assert (phys + TWO64 - frameBase) % TWO64 == phys - frameBase;
      }
    }
  }

  /** The zone of the rel-th usable frame. */
  function ZoneOf(rel: int, zoneSize: nat): nat {
    if rel < zoneSize then ZONE_GREEN else if rel < zoneSize * 2 then ZONE_YELLOW else ZONE_RED
  }

  function Clip(x: int, hi: int): int {
    if x < 0 then 0 else if x > hi then hi else x
  }

  /** The frames just after pmm_init. */
  ghost predicate IsInitial(fs: seq<Frame>, db: nat, zoneSize: nat) {
    && db <= |fs|
    && (forall k :: 0 <= k < db ==> fs[k] == Frame(1, ZONE_GREEN, false, true))
    && (forall k :: db <= k < |fs| ==> fs[k] == Frame(0, ZoneOf(k - db, zoneSize), true, false))
  }

  ghost function InitialPool(fs: seq<Frame>, db: nat, zoneSize: nat): Pool
    requires db + 2 * zoneSize <= |fs|
  {
    Pool(db, fs, [db, db + zoneSize, db + zoneSize * 2], [zoneSize, zoneSize, |fs| - db - zoneSize * 2])
  }

  lemma {:induction false} InitCounts(fs: seq<Frame>, db: nat, zoneSize: nat)
    requires IsInitial(fs, db, zoneSize)
    ensures Count(fs, 0) == Clip(|fs| - db, zoneSize)
    ensures Count(fs, 1) == Clip(|fs| - db - zoneSize, zoneSize)
    ensures Count(fs, 2) == Clip(|fs| - db - 2 * zoneSize, |fs|)
  {
    if |fs| == db {
      CountZero(fs, 0); CountZero(fs, 1); CountZero(fs, 2);
    } else {
      InitCounts(fs[..|fs| - 1], db, zoneSize);
    }
  }

  lemma InitialCounted(fs: seq<Frame>, db: nat, zoneSize: nat)
    requires IsInitial(fs, db, zoneSize) && zoneSize == (|fs| - db) / 3
    ensures Counted(InitialPool(fs, db, zoneSize))
    ensures forall i :: db <= i < |fs| ==> fs[i].refCount == 0
    ensures Inv(World(InitialPool(fs, db, zoneSize), multiset{}))
  {
    InitCounts(fs, db, zoneSize);
  }

  /** The pages that hold n frame records. */
  function DatabasePages(n: nat): nat {
    (n * RECORD_SIZE + PAGE_SIZE - 1) / PAGE_SIZE
  }

  /** The database never needs more pages than there are frames. */
  lemma DatabaseFits(n: nat)
    ensures DatabasePages(n) <= n && (n > 0 ==> DatabasePages(n) > 0)
  {
  }

  lemma CountedShape(p: Pool)
    requires Counted(p)
    ensures Shape(p)
  {
  }

  lemma SomeAllocatable(p: Pool, z: nat) returns (i: nat)
    requires Counted(p) && z < 3 && p.avail[z] > 0
    ensures p.start <= i < |p.frames| && Allocatable(p.frames[i], z)
  {
    CountZero(p.frames, z);
    i :| 0 <= i < |p.frames| && Allocatable(p.frames[i], z);
    assert FrameOk(p, i);
  }
}
