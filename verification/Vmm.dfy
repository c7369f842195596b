/** Mapping, unmapping and translation (kernel/mm/vmm.c) over page tables in physical
    memory, with tables drawn from the frame allocator. */
module Vmm {
  import opened Words
  import opened Paging
  import Pmm

  datatype Option<T> = None | Some(value: T)

  /** The entry that translates an address, with its level. */
  datatype Mapping = Mapping(pte: Pte, level: nat)

  const TWO40: nat := 0x100_0000_0000

  /** The bytes one entry of a level-L table spans. */
  function Span(L: nat): (s: nat)
    ensures s > 0
  {
    if L <= 1 then 0x1000 else if L == 2 then 0x20_0000 else if L == 3 then 0x4000_0000 else 0x80_0000_0000
  }

  /** The index of an address in a level-L table: `(virt >> k) & 0x1FF`. */
  function Ix(virt: nat, L: nat): (i: nat)
    ensures i < 512
  {
    virt / Span(L) % 512
  }

  /** The walk from the level-L table t: the entry that maps virt, if any. */
  function Lookup(m: Memory, t: nat, L: nat, virt: nat): Option<Mapping>
    decreases L
  {
    if t >= |m| then None
    else
      var e := m[t][Ix(virt, L)];
      if Maps(e, L) then Some(Mapping(e, L))
      else if Descends(e, L) then Lookup(m, e.frame, L - 1, virt)
      else None
  }

  /** The two addresses take the same entries from level L down. */
  predicate SamePage(v: nat, w: nat, L: nat) {
    L == 0 || (Ix(v, L) == Ix(w, L) && SamePage(v, w, L - 1))
  }

  /** Every present entry the walk meets above level 1 leads to a table. */
  predicate NoHuge(m: Memory, t: nat, L: nat, virt: nat)
    decreases L
  {
    L <= 1 || t >= |m| ||
    var e := m[t][Ix(virt, L)];
    Present(e) ==> Descends(e, L) && NoHuge(m, e.frame, L - 1, virt)
  }

  /** Four indices pick out a 4 KiB page of the 48-bit address space. */
  lemma SamePageIff(v: nat, w: nat)
    ensures SamePage(v, w, 4) <==> v / 0x1000 % 0x10_0000_0000 == w / 0x1000 % 0x10_0000_0000
  {
    PageDigits(v); PageDigits(w);
    hide Ix;
    assert SamePage(v, w, 1) <==> Ix(v, 1) == Ix(w, 1);
    assert SamePage(v, w, 2) <==> Ix(v, 2) == Ix(w, 2) && SamePage(v, w, 1);
    assert SamePage(v, w, 3) <==> Ix(v, 3) == Ix(w, 3) && SamePage(v, w, 2);
  }

  lemma PageDigits(v: nat)
    ensures v / 0x1000 % 0x10_0000_0000 == Ix(v, 1) + 512 * (Ix(v, 2) + 512 * (Ix(v, 3) + 512 * Ix(v, 4)))
  {
    DivDiv(v, 0x1000, 512); DivDiv(v, 0x20_0000, 512); DivDiv(v, 0x4000_0000, 512);
    var p := v / 0x1000;
    ModSplit(p, 512, 0x800_0000); ModSplit(p / 512, 512, 0x4_0000); ModSplit(p / 512 / 512, 512, 512);
  }

  /** The walk reads only the tables it passes. */
  lemma {:induction false} LookupFrame(m: Memory, m': Memory, t: nat, L: nat, v: nat)
    requires Agree(m, m', Owned(m, t, L, false))
    ensures Lookup(m', t, L, v) == Lookup(m, t, L, v)
    ensures NoHuge(m', t, L, v) == NoHuge(m, t, L, v)
    decreases L
  {
    if t >= |m| {
    } else {
      var j := Ix(v, L);
      var e := m[t][j];
      if Descends(e, L) {
        PieceIn(m, t, L, j, 512, false);
        LookupFrame(m, m', e.frame, L - 1, v);
      }
    }
  }

  /** From m to m' the level-L table t went through one update of the map from pages to
      mappings: the page of virt, if changed, now has the mapping `now`; no other page
      changed. */
  ghost predicate Refines(m: Memory, m': Memory, t: nat, L: nat, virt: nat, changed: bool, now: Option<Mapping>) {
    && |m'| == |m| && Tree(m', t, L, false)
    && forall v :: Lookup(m', t, L, v) == if changed && SamePage(v, virt, L) then now else Lookup(m, t, L, v)
  }

  /** Only frames in s changed. */
  ghost predicate OnlyIn(m: Memory, m': Memory, s: set<nat>) {
    |m'| == |m| && forall x :: 0 <= x < |m| && x !in s ==> m'[x] == m[x]
  }

  /** A walk through an entry whose frames did not change ends as before. */
  lemma OtherEntry(m: Memory, m': Memory, t: nat, L: nat, v: nat)
    requires t < |m| && |m'| == |m| && m'[t][Ix(v, L)] == m[t][Ix(v, L)]
    requires Agree(m, m', Piece(m, t, L, Ix(v, L), false))
    ensures Lookup(m', t, L, v) == Lookup(m, t, L, v)
  {
    var e := m[t][Ix(v, L)];
    if Descends(e, L) {
      assert Piece(m, t, L, Ix(v, L), false) == Owned(m, e.frame, L - 1, false);
      LookupFrame(m, m', e.frame, L - 1, v);
    }
  }

  /** Entries other than j keep their frames when only s changes, s being t, the frames
      below entry j, and frames t does not own. */
  lemma OthersKeep(m: Memory, m': Memory, t: nat, L: nat, j: nat, extra: set<nat>, i: nat)
    requires Tree(m, t, L, false) && j < 512 && i < 512 && i != j
    requires OnlyIn(m, m', {t} + Piece(m, t, L, j, false) + extra) && extra !! Owned(m, t, L, false)
    ensures Agree(m, m', Piece(m, t, L, i, false))
    ensures Piece(m, t, L, i, false) !! Piece(m, t, L, j, false) + extra + {t}
  {
    hide Piece;
    PieceIn(m, t, L, i, 512, false);
    if i < j { ApartAt(m, t, L, 512, false, i, j); } else { ApartAt(m, t, L, 512, false, j, i); }
  }

  /** An update below entry j of t, outside t and its other entries, is an update of t. */
  lemma Descend(m: Memory, m': Memory, t: nat, L: nat, virt: nat, changed: bool, now: Option<Mapping>, extra: set<nat>)
    requires L >= 2 && Tree(m, t, L, false)
    requires var e := m[t][Ix(virt, L)];
             && Descends(e, L)
             && Refines(m, m', e.frame, L - 1, virt, changed, now)
             && OnlyIn(m, m', Owned(m, e.frame, L - 1, false) + extra)
             && Owned(m', e.frame, L - 1, false) <= Owned(m, e.frame, L - 1, false) + extra
    requires extra !! Owned(m, t, L, false)
    ensures Refines(m, m', t, L, virt, changed, now)
    ensures Owned(m', t, L, false) <= Owned(m, t, L, false) + Owned(m', m[t][Ix(virt, L)].frame, L - 1, false)
    ensures Owned(m', t, L, false) <= Owned(m, t, L, false) + extra
    ensures OnlyIn(m, m', Owned(m, t, L, false) + extra)
  {
    var j := Ix(virt, L);
    var c := m[t][j].frame;
    assert Piece(m, t, L, j, false) == Owned(m, c, L - 1, false);
    PieceIn(m, t, L, j, 512, false);
    assert m'[t] == m[t];
    assert Piece(m', t, L, j, false) == Owned(m', c, L - 1, false);
    hide Piece, Ix, Apart, Pieces;
    forall i | 0 <= i < 512 && i != j
      ensures Agree(m, m', Piece(m, t, L, i, false))
      ensures Piece(m, t, L, i, false) !! Piece(m', t, L, j, false)
    {
      OthersKeep(m, m', t, L, j, extra, i);
    }
    SwapChild(m, m', t, L, j, false);
    forall v ensures Lookup(m', t, L, v) == if changed && SamePage(v, virt, L) then now else Lookup(m, t, L, v) {
      if Ix(v, L) != j { OtherEntry(m, m', t, L, v); }
    }
  }

  lemma NewPiece(m: Memory, m': Memory, t: nat, L: nat, j: nat, n: nat)
    requires 2 <= L && t < |m| == |m'| && j < 512 && !Present(m[t][j]) && 0 < n < |m'|
    requires m'[t][j] == Pte(7, n, 0) && Owned(m', n, L - 1, false) == {n}
    ensures Piece(m', t, L, j, false) == {n} && Piece(m, t, L, j, false) == {}
  {
    hide Owned, Pieces;
    assert Descends(Pte(7, n, 0), L);
  }

  /** Hanging a zeroed table below an absent entry changes no translation. */
  lemma Grow(m: Memory, m': Memory, t: nat, L: nat, j: nat, n: nat)
    requires 2 <= L && Tree(m, t, L, false) && j < 512 && !Present(m[t][j])
    requires 0 < n < |m| && n !in Owned(m, t, L, false)
    requires |m'| == |m| && m'[n] == ZeroPage() && m'[t] == m[t][j := Pte(7, n, 0)] && OnlyIn(m, m', {n, t})
    ensures Tree(m', t, L, false) && Owned(m', t, L, false) <= Owned(m, t, L, false) + {n}
    ensures Tree(m', n, L - 1, false) && Owned(m', n, L - 1, false) == {n}
    ensures forall v :: Lookup(m', t, L, v) == Lookup(m, t, L, v)
  {
    ZeroOwns(m', n, L - 1, 512, false);
    NewPiece(m, m', t, L, j, n);
    forall v ensures Ix(v, L) == j ==> Lookup(m', t, L, v) == Lookup(m, t, L, v) {
      assert !Present(m'[n][Ix(v, L - 1)]);
    }
    hide Piece, Ix, Apart, Pieces, Descends;
    forall i | 0 <= i < 512 && i != j
      ensures Agree(m, m', Piece(m, t, L, i, false))
      ensures Piece(m, t, L, i, false) !! Piece(m', t, L, j, false)
    {
      OthersKeep(m, m', t, L, j, {n}, i);
    }
    SwapChild(m, m', t, L, j, false);
    hide Lookup;
    forall v ensures Lookup(m', t, L, v) == Lookup(m, t, L, v) {
      if Ix(v, L) != j { OtherEntry(m, m', t, L, v); }
    }
  }

  /** Writing a level-1 entry is an update of one page. */
  lemma WriteLeaf(m: Memory, m': Memory, t: nat, virt: nat, e: Pte)
    requires Tree(m, t, 1, false) && m' == m[t := m[t][Ix(virt, 1) := e]]
    ensures Refines(m, m', t, 1, virt, true, if Present(e) then Some(Mapping(e, 1)) else None)
    ensures Owned(m', t, 1, false) == {t} && OnlyIn(m, m', {t})
  {
    LeafOwns(m, t, 512); LeafOwns(m', t, 512);
    forall v ensures SamePage(v, virt, 1) <==> Ix(v, 1) == Ix(virt, 1) { assert SamePage(v, virt, 0); }
  }

  lemma {:induction false} LeafOwns(m: Memory, t: nat, n: nat)
    requires t < |m| && n <= 512
    ensures Pieces(m, t, 1, n, false) == {} && Apart(m, t, 1, n, false)
  {
    if n == 0 {
    } else {
      LeafOwns(m, t, n - 1);
    }
  }

  // ----- frames and the allocator -----------------------------------------------------------

  /** Frame f is in the allocator's region and free. */
  predicate IsFree(p: Pmm.Pool, base: nat, f: nat) {
    base <= f < base + |p.frames| && p.frames[f - base].free
  }

  /** The pool with frame f handed out once. */
  function Claimed(fs: seq<Pmm.Frame>, i: nat): seq<Pmm.Frame>
    requires i < |fs|
  {
    fs[i := fs[i].(free := false, refCount := 1)]
  }

  /** The free frames. */
  ghost function FreeSet(p: Pmm.Pool, base: nat): set<nat> {
    set f | base <= f < base + |p.frames| && IsFree(p, base, f)
  }

  /** `(phys & ~0xFFF) | flags | VMM_PRESENT`, for flags outside the address bits. */
  function LeafEntry(frame: nat, flags: Pte): (e: Pte)
    ensures Present(e) && e.frame == frame
  {
    Pte(if flags.low % 2 == 1 then flags.low else flags.low + 1, frame, flags.high)
  }

  /** The physical address a mapping gives an address; 0 when there is none. */
  function Address(r: Option<Mapping>, virt: nat): nat {
    match r
    case None => 0
    case Some(Mapping(e, level)) =>
      if level == 1 then e.frame * 4096 + virt % 0x1000
      else if level == 2 then e.frame / 0x200 * 0x20_0000 + virt % 0x20_0000
      else e.frame / 0x4_0000 * 0x4000_0000 + virt % 0x4000_0000
  }

  /** In terms of addresses: a successful map gives the page of virt the frame, keeps the
      offset, and leaves every other page's translation alone; a failed one leaves all. */
  lemma MapIsUpdate(m: Memory, m': Memory, t: nat, virt: nat, ok: bool, frame: nat, flags: Pte, v: nat)
    requires Refines(m, m', t, 4, virt, ok, Some(Mapping(LeafEntry(frame, flags), 1)))
    ensures Address(Lookup(m', t, 4, v), v) ==
      if ok && v / 0x1000 % 0x10_0000_0000 == virt / 0x1000 % 0x10_0000_0000 then frame * 4096 + v % 0x1000
      else Address(Lookup(m, t, 4, v), v)
  {
    hide Lookup, SamePage;
    SamePageIff(v, virt);
  }

  class Machine {
    const pmm: Pmm.Allocator
    const mem: array<Page>

    constructor (pmm: Pmm.Allocator, mem: array<Page>)
      ensures this.pmm == pmm && this.mem == mem
    {
      this.pmm := pmm;
      this.mem := mem;
    }

    ghost function Pool(): Pmm.Pool
      reads pmm.frames, pmm.zoneCursor, pmm.zoneFree
    {
      pmm.View()
    }

    /** The first frame number of the allocator's region. */
    function Base(): nat {
      pmm.frameBase / 4096
    }

    ghost predicate Valid()
      reads mem, pmm.frames, pmm.zoneCursor, pmm.zoneFree
    {
      && pmm.Valid()
      && pmm.frameBase % 4096 == 0
      && Base() + pmm.frames.Length <= mem.Length <= TWO40
    }

    ghost predicate Free(f: nat)
      reads pmm.frames, pmm.zoneCursor, pmm.zoneFree
    {
      IsFree(Pool(), Base(), f)
    }

    /** pmm_alloc, with the frame number in place of the address; 0 means none. */
    method AllocFrame(zone: nat) returns (f: nat)
      requires Valid() && zone < 3
      modifies pmm.frames, pmm.zoneCursor, pmm.zoneFree
      ensures Valid()
      ensures f == 0 <==> Pmm.Exhausted(old(Pool()), zone)
      ensures f == 0 ==> Pool() == old(Pool())
      ensures f != 0 ==> old(Free(f)) && old(Pool()).frames[f - Base()].refCount == 0
      ensures f != 0 ==> old(Pool()).frames[f - Base()].zone == zone
      ensures f != 0 ==> Pool().frames == Claimed(old(Pool()).frames, f - Base())
    {
      var phys := pmm.Alloc(zone);
      f := phys / 4096;
      if phys != 0 {
        ghost var i :| Pmm.IsNext(old(Pool()), zone, i) && phys == pmm.IdxToPhys(i)
          && Pool() == Pmm.Taken(old(Pool()), zone, i);
        FrameNumber(pmm.frameBase, i);
      }
    }

    /** None of the frames is free. */
    ghost predicate Held(s: set<nat>)
      reads pmm.frames, pmm.zoneCursor, pmm.zoneFree
    {
      s !! FreeSet(Pool(), Base())
    }

    /** alloc_table: the table an entry names, made if the entry is absent. */
    method AllocTable(t: nat, j: nat) returns (n: nat)
      requires Valid() && t < mem.Length && j < 512 && Held({t})
      modifies mem, pmm.frames, pmm.zoneCursor, pmm.zoneFree
      ensures Valid()
      ensures old(Present(mem[t][j])) ==> n == old(mem[t][j]).frame && mem[..] == old(mem[..]) && Pool() == old(Pool())
      ensures !old(Present(mem[t][j])) && n == 0 ==>
                mem[..] == old(mem[..]) && Pool() == old(Pool()) && Pmm.Exhausted(Pool(), Pmm.ZONE_GREEN)
      ensures !old(Present(mem[t][j])) && n != 0 ==>
                && n in old(FreeSet(Pool(), Base())) && n < mem.Length
                && FreeSet(Pool(), Base()) == old(FreeSet(Pool(), Base())) - {n}
                && mem[n] == ZeroPage() && mem[t] == old(mem[t])[j := Pte(7, n, 0)]
                && OnlyIn(old(mem[..]), mem[..], {n, t})
    {
      if Present(mem[t][j]) {
        return mem[t][j].frame;
      }
      n := AllocFrame(Pmm.ZONE_GREEN);
      if n == 0 { return; }
      mem[n] := ZeroPage();
      mem[t] := mem[t][j := Pte(7, n, 0)];
    }

    /** vmm_map_into from the level-L table t down: one alloc_table per level above 1. */
    method MapAt(t: nat, L: nat, frame: nat, virt: nat, flags: Pte) returns (ok: bool)
      requires Valid() && 1 <= L <= 4
      requires Tree(mem[..], t, L, false) && Held(Owned(mem[..], t, L, false)) && NoHuge(mem[..], t, L, virt)
      modifies mem, pmm.frames, pmm.zoneCursor, pmm.zoneFree
      ensures Valid()
      ensures Refines(old(mem[..]), mem[..], t, L, virt, ok, Some(Mapping(LeafEntry(frame, flags), 1)))
      ensures Owned(mem[..], t, L, false) <= old(Owned(mem[..], t, L, false)) + old(FreeSet(Pool(), Base()))
      ensures OnlyIn(old(mem[..]), mem[..], old(Owned(mem[..], t, L, false)) + old(FreeSet(Pool(), Base())))
      ensures FreeSet(Pool(), Base()) <= old(FreeSet(Pool(), Base())) && Held(Owned(mem[..], t, L, false))
      ensures !ok ==> Pmm.Exhausted(Pool(), Pmm.ZONE_GREEN)
      decreases L
    {
      hide Owned, Tree, Lookup, Ix, NoHuge, Descends, FreeSet, Refines;
      var j := Ix(virt, L);
      ghost var m0, free0 := mem[..], FreeSet(Pool(), Base());
      ghost var now := Some(Mapping(LeafEntry(frame, flags), 1));
      RootOwned(m0, t, L);
      if L == 1 {
        mem[t] := mem[t][j := LeafEntry(frame, flags)];
        ok := true;
        WriteLeaf(m0, mem[..], t, virt, LeafEntry(frame, flags));
        return;
      }
      if Present(mem[t][j]) { EntryTree(m0, t, L, virt); }
      var n := AllocTable(t, j);
      ghost var m1, free1 := mem[..], FreeSet(Pool(), Base());
      if n == 0 {
        ok := false;
        NothingChanged(m0, t, L, virt, now);
        return;
      }
      if !Present(m0[t][j]) {
        Grow(m0, m1, t, L, j, n);
        GrownEntry(m1, t, L, virt, n);
      }
      assert OnlyIn(m0, m1, Owned(m0, t, L, false) + free0);
      ok := MapAt(n, L - 1, frame, virt, flags);
      Descend(m1, mem[..], t, L, virt, ok, now, free1);
      Compose(m0, m1, mem[..], t, L, virt, ok, now);
    }

    /** vmm_map_into. */
    method MapInto(pml4: nat, frame: nat, virt: nat, flags: Pte) returns (ok: bool)
      requires Valid()
      requires pml4 != 0 ==> && Tree(mem[..], pml4, 4, false) && Held(Owned(mem[..], pml4, 4, false))
                             && NoHuge(mem[..], pml4, 4, virt)
      modifies mem, pmm.frames, pmm.zoneCursor, pmm.zoneFree
      ensures Valid()
      ensures pml4 == 0 ==> !ok && mem[..] == old(mem[..])
      ensures pml4 != 0 ==> Refines(old(mem[..]), mem[..], pml4, 4, virt, ok, Some(Mapping(LeafEntry(frame, flags), 1)))
      ensures pml4 != 0 ==> Held(Owned(mem[..], pml4, 4, false))
      ensures pml4 != 0 && !ok ==> Pmm.Exhausted(Pool(), Pmm.ZONE_GREEN)
    {
      if pml4 == 0 { return false; }
      ok := MapAt(pml4, 4, frame, virt, flags);
    }

    /** vmm_unmap_into from the level-L table t down. A huge page is left mapped. */
    method UnmapAt(t: nat, L: nat, virt: nat)
      requires 1 <= L <= 4 && Tree(mem[..], t, L, false)
      modifies mem
      ensures Refines(old(mem[..]), mem[..], t, L, virt, !UnderHuge(old(mem[..]), t, L, virt), None)
      ensures Owned(mem[..], t, L, false) <= old(Owned(mem[..], t, L, false))
      ensures OnlyIn(old(mem[..]), mem[..], old(Owned(mem[..], t, L, false)))
      decreases L
    {
      hide Owned, Tree, Lookup, Ix, Refines, SamePage;
      ghost var m0 := mem[..];
      RootOwned(m0, t, L);
      var j := Ix(virt, L);
      var e := mem[t][j];
      LookupStep(m0, t, L, virt);
      if L == 1 {
        mem[t] := mem[t][j := ZERO];
        WriteLeaf(m0, mem[..], t, virt, ZERO);
        return;
      }
      if !Present(e) || (L <= 3 && Huge(e)) {
        NotMapped(m0, t, L, virt);
        return;
      }
      ChildTree(m0, t, L, virt);
      UnmapAt(e.frame, L - 1, virt);
      Descend(m0, mem[..], t, L, virt, !UnderHuge(m0, e.frame, L - 1, virt), None, {});
    }

    /** vmm_unmap_into. */
    method UnmapInto(pml4: nat, virt: nat)
      requires pml4 != 0 ==> Tree(mem[..], pml4, 4, false)
      modifies mem
      ensures pml4 == 0 ==> mem[..] == old(mem[..])
      ensures pml4 != 0 ==> Refines(old(mem[..]), mem[..], pml4, 4, virt, !UnderHuge(old(mem[..]), pml4, 4, virt), None)
    {
      if pml4 == 0 { return; }
      UnmapAt(pml4, 4, virt);
    }

    /** vmm_get_phys_into: the four levels written out, against the recursive walk. */
    method GetPhysInto(pml4: nat, virt: nat) returns (phys: nat)
      requires pml4 != 0 ==> Tree(mem[..], pml4, 4, false)
      ensures phys == if pml4 == 0 then 0 else Address(Lookup(mem[..], pml4, 4, virt), virt)
    {
      hide Tree, Owned, Lookup, Ix;
      if pml4 == 0 { return 0; }
      ghost var m := mem[..];
      RootOwned(m, pml4, 4);
      var e4 := mem[pml4][Ix(virt, 4)];
      LookupStep(m, pml4, 4, virt);
      if !Present(e4) { return 0; }
      ChildTree(m, pml4, 4, virt); RootOwned(m, e4.frame, 3);
      var e3 := mem[e4.frame][Ix(virt, 3)];
      LookupStep(m, e4.frame, 3, virt);
      if !Present(e3) { return 0; }
      if Huge(e3) { return e3.frame / 0x4_0000 * 0x4000_0000 + virt % 0x4000_0000; }
      ChildTree(m, e4.frame, 3, virt); RootOwned(m, e3.frame, 2);
      var e2 := mem[e3.frame][Ix(virt, 2)];
      LookupStep(m, e3.frame, 2, virt);
      if !Present(e2) { return 0; }
      if Huge(e2) { return e2.frame / 0x200 * 0x20_0000 + virt % 0x20_0000; }
      ChildTree(m, e3.frame, 2, virt); RootOwned(m, e2.frame, 1);
      var pte := mem[e2.frame][Ix(virt, 1)];
      LookupStep(m, e2.frame, 1, virt);
      if !Present(pte) { return 0; }
      return pte.frame * 4096 + virt % 0x1000;
    }
  }

  /** The address is mapped by a huge page. */
  predicate UnderHuge(m: Memory, t: nat, L: nat, virt: nat) {
    var r := Lookup(m, t, L, virt); r.Some? && r.value.level > 1
  }

  /** One level of the walk. */
  lemma LookupStep(m: Memory, t: nat, L: nat, virt: nat)
    requires t < |m|
    ensures var e := m[t][Ix(virt, L)];
            Lookup(m, t, L, virt) == if Maps(e, L) then Some(Mapping(e, L))
                                     else if Descends(e, L) then Lookup(m, e.frame, L - 1, virt) else None
  {
  }

  lemma ChildTree(m: Memory, t: nat, L: nat, virt: nat)
    requires Tree(m, t, L, false) && Descends(m[t][Ix(virt, L)], L)
    ensures Tree(m, m[t][Ix(virt, L)].frame, L - 1, false)
  {
    ApartTree(m, t, L, 512, false, Ix(virt, L));
  }

  /** Nothing to unmap: the address is under a huge page or under an absent entry, and
      then so is every address of its page. */
  lemma NotMapped(m: Memory, t: nat, L: nat, virt: nat)
    requires L >= 1 && Tree(m, t, L, false) && !Descends(m[t][Ix(virt, L)], L)
    requires L == 1 ==> !Present(m[t][Ix(virt, L)])
    ensures Refines(m, m, t, L, virt, !UnderHuge(m, t, L, virt), None)
  {
  }

  /** A present entry on a walk without huge entries names a tree of its own. */
  lemma EntryTree(m: Memory, t: nat, L: nat, virt: nat)
    requires L >= 2 && Tree(m, t, L, false) && NoHuge(m, t, L, virt) && Present(m[t][Ix(virt, L)])
    ensures var e := m[t][Ix(virt, L)];
            && Descends(e, L) && Tree(m, e.frame, L - 1, false) && NoHuge(m, e.frame, L - 1, virt)
            && Owned(m, e.frame, L - 1, false) <= Owned(m, t, L, false) && e.frame > 0
  {
    var j := Ix(virt, L);
    ApartTree(m, t, L, 512, false, j);
    PieceIn(m, t, L, j, 512, false);
    assert Piece(m, t, L, j, false) == Owned(m, m[t][j].frame, L - 1, false);
  }

  lemma NothingChanged(m: Memory, t: nat, L: nat, virt: nat, now: Option<Mapping>)
    requires Tree(m, t, L, false)
    ensures Refines(m, m, t, L, virt, false, now)
  {
  }

  lemma GrownEntry(m: Memory, t: nat, L: nat, virt: nat, n: nat)
    requires L >= 2 && t < |m| && n < |m| && m[t][Ix(virt, L)] == Pte(7, n, 0) && m[n] == ZeroPage()
    ensures Descends(m[t][Ix(virt, L)], L) && NoHuge(m, n, L - 1, virt)
  {
    assert !Present(m[n][Ix(virt, L - 1)]);
  }

  lemma Compose(m0: Memory, m1: Memory, m2: Memory, t: nat, L: nat, virt: nat, ok: bool, now: Option<Mapping>)
    requires |m0| == |m1| && forall v :: Lookup(m1, t, L, v) == Lookup(m0, t, L, v)
    requires Refines(m1, m2, t, L, virt, ok, now)
    ensures Refines(m0, m2, t, L, virt, ok, now)
  {
    hide Lookup;
  }

  lemma RootOwned(m: Memory, t: nat, L: nat)
    ensures t in Owned(m, t, L, false)
    ensures Tree(m, t, L, false) ==> 0 < t < |m|
  {
  }

  lemma FrameNumber(base: nat, i: nat)
    requires base % 4096 == 0
    ensures (base + i * 4096) / 4096 == base / 4096 + i
  {
  }
}
