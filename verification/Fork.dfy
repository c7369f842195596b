/** Cloning and freeing an address space (kernel/proc/fork_exec.c). */
module Fork {
  import opened Paging
  import opened Vmm
  import Pmm

  // ----- claims on frames ------------------------------------------------------------------

  /** The frames of s, each handed out once. */
  ghost function ClaimAll(fs: seq<Pmm.Frame>, base: nat, s: set<nat>): seq<Pmm.Frame> {
    seq(|fs|, i requires 0 <= i < |fs| => if i + base in s then fs[i].(free := false, refCount := 1) else fs[i])
  }

  /** The frames of s, given back. */
  ghost function ReleaseAll(fs: seq<Pmm.Frame>, base: nat, s: set<nat>): seq<Pmm.Frame> {
    seq(|fs|, i requires 0 <= i < |fs| => if i + base in s then fs[i].(free := true, refCount := 0) else fs[i])
  }

  /** Every frame of s is in the region and held exactly once. */
  ghost predicate HeldOnce(fs: seq<Pmm.Frame>, base: nat, s: set<nat>) {
    forall x :: x in s ==> base <= x < base + |fs| && fs[x - base].refCount == 1 && !fs[x - base].locked
  }

  /** Every frame of s is in the region, free and unreferenced. */
  ghost predicate FreeAll(fs: seq<Pmm.Frame>, base: nat, s: set<nat>) {
    forall x :: x in s ==>
      base <= x < base + |fs| && fs[x - base].refCount == 0 && fs[x - base].free && !fs[x - base].locked
  }

  lemma ClaimMore(fs: seq<Pmm.Frame>, base: nat, s: set<nat>, t: set<nat>)
    ensures ClaimAll(ClaimAll(fs, base, s), base, t) == ClaimAll(fs, base, s + t)
  {
  }

  lemma ReleaseMore(fs: seq<Pmm.Frame>, base: nat, s: set<nat>, t: set<nat>)
    ensures ReleaseAll(ReleaseAll(fs, base, s), base, t) == ReleaseAll(fs, base, s + t)
  {
  }

  /** Giving back what was claimed restores every frame record. */
  lemma ReleaseClaim(fs: seq<Pmm.Frame>, base: nat, s: set<nat>)
    requires FreeAll(fs, base, s)
    ensures ReleaseAll(ClaimAll(fs, base, s), base, s) == fs
    ensures HeldOnce(ClaimAll(fs, base, s), base, s)
  {
  }

  // ----- what a copy is ------------------------------------------------------------------------

  /** Entry i of dst in m copies entry i of src in m0: absent stays absent, a huge entry is
      kept, a page or table gets a frame of its own with the same low twelve bits, the bits
      above 51 cleared, and the same content. */
  ghost predicate EntryCopied(m0: Memory, m: Memory, src: nat, dst: nat, L: nat, i: nat)
    requires src < |m0| && dst < |m| && i < 512
    decreases L, 0
  {
    var e, c := m0[src][i], m[dst][i];
    if !Present(e) then c == ZERO
    else if Descends(e, L) then
      && c == Pte(e.low, c.frame, 0) && e.frame < |m0| && c.frame < |m|
      && Copied(m0, m, e.frame, c.frame, L - 1, 512)
    else if L == 1 then
      c == Pte(e.low, c.frame, 0) && e.frame < |m0| && c.frame < |m| && m[c.frame] == m0[e.frame]
    else c == e
  }

  /** The first n entries are copied. */
  ghost predicate Copied(m0: Memory, m: Memory, src: nat, dst: nat, L: nat, n: nat)
    requires src < |m0| && dst < |m| && n <= 512
    decreases L, 1, n
  {
    n == 0 || (Copied(m0, m, src, dst, L, n - 1) && EntryCopied(m0, m, src, dst, L, n - 1))
  }

  /** A copy depends only on the frames of source and copy. */
  lemma {:induction false} CopiedFrame(m0: Memory, m0': Memory, m: Memory, m': Memory, src: nat, dst: nat, L: nat,
      n: nat)
    requires src < |m0| && dst < |m| && n <= 512 && |m0'| == |m0| && |m'| == |m|
    requires forall i :: 0 <= i < n ==> m0'[src][i] == m0[src][i] && m'[dst][i] == m[dst][i]
    requires Agree(m0, m0', Pieces(m0, src, L, n, true)) && Agree(m, m', Pieces(m, dst, L, n, true))
    requires Copied(m0, m, src, dst, L, n)
    ensures Copied(m0', m', src, dst, L, n)
    decreases L, 1, n
  {
    if n == 0 {
    } else {
      CopiedFrame(m0, m0', m, m', src, dst, L, n - 1);
      EntryFrame(m0, m0', m, m', src, dst, L, n - 1);
    }
  }

  lemma {:induction false} EntryFrame(m0: Memory, m0': Memory, m: Memory, m': Memory, src: nat, dst: nat, L: nat,
      i: nat)
    requires src < |m0| && dst < |m| && i < 512 && |m0'| == |m0| && |m'| == |m|
    requires m0'[src][i] == m0[src][i] && m'[dst][i] == m[dst][i]
    requires Agree(m0, m0', Piece(m0, src, L, i, true)) && Agree(m, m', Piece(m, dst, L, i, true))
    requires EntryCopied(m0, m, src, dst, L, i)
    ensures EntryCopied(m0', m', src, dst, L, i)
    decreases L, 0
  {
    var e, c := m0[src][i], m[dst][i];
    if Descends(e, L) {
      assert Piece(m0, src, L, i, true) == Owned(m0, e.frame, L - 1, true);
      assert Piece(m, dst, L, i, true) == Owned(m, c.frame, L - 1, true);
      CopiedFrame(m0, m0', m, m', e.frame, c.frame, L - 1, 512);
    }
  }

  // ----- freeing -------------------------------------------------------------------------------

  /** pmm_free of a frame held once. */
  method FreeFrame(k: Machine, f: nat)
    requires k.Valid() && HeldOnce(k.Pool().frames, k.Base(), {f})
    modifies k.pmm.frames, k.pmm.zoneFree
    ensures k.Valid() && k.Pool().frames == ReleaseAll(old(k.Pool()).frames, k.Base(), {f})
  {
    assert f in {f};
    FrameAddress(k, f);
    k.pmm.Free(f * 4096);
  }

  lemma FrameAddress(k: Machine, f: nat)
    requires k.Valid() && k.Base() <= f < k.Base() + k.pmm.frames.Length
    ensures 0 < f * 4096 < Words.TWO64 && k.pmm.PhysToIdx(f * 4096) == f - k.Base()
  {
    k.pmm.AddressRoundTrip(f * 4096);
    assert k.pmm.IdxToPhys(f - k.Base()) == f * 4096;
  }

  /** The loops of free_user_address_space below one entry: everything the level-L table f
      owns goes back to the allocator, pages first, f last. */
  method FreeTable(k: Machine, f: nat, L: nat)
    requires k.Valid() && 1 <= L <= 3 && Tree(k.mem[..], f, L, true)
    requires HeldOnce(k.Pool().frames, k.Base(), Owned(k.mem[..], f, L, true))
    modifies k.pmm.frames, k.pmm.zoneFree
    ensures k.Valid()
    ensures k.Pool().frames == ReleaseAll(old(k.Pool()).frames, k.Base(), Owned(k.mem[..], f, L, true))
    decreases L
  {
    hide Piece, Pieces, Apart, ReleaseAll, HeldOnce;
    ghost var m, fs0, base := k.mem[..], k.Pool().frames, k.Base();
    NothingReleased(fs0, base);
    EmptyPieces(m, f, L);
    var i := 0;
    while i < 512
      invariant 0 <= i <= 512 && k.Valid()
      invariant k.Pool().frames == ReleaseAll(fs0, base, Pieces(m, f, L, i, true))
    {
      var e := k.mem[f][i];
      ghost var before := k.Pool().frames;
      ReleaseMore(fs0, base, Pieces(m, f, L, i, true), Piece(m, f, L, i, true));
      NextPiece(m, f, L, i);
      EntryHeld(m, f, L, i, fs0, base);
      if Present(e) {
        if L == 1 {
          FreeFrame(k, e.frame);
        } else if !Huge(e) {
          FreeTable(k, e.frame, L - 1);
        } else {
          NothingReleased(before, base);
        }
      } else {
        NothingReleased(before, base);
      }
      i := i + 1;
    }
    RootHeld(m, f, L, fs0, base);
    ReleaseMore(fs0, base, Pieces(m, f, L, 512, true), {f});
    FreeFrame(k, f);
  }

  lemma NothingReleased(fs: seq<Pmm.Frame>, base: nat)
    ensures ReleaseAll(fs, base, {}) == fs && ClaimAll(fs, base, {}) == fs
  {
  }

  lemma EmptyPieces(m: Memory, f: nat, L: nat)
    requires f < |m|
    ensures Pieces(m, f, L, 0, true) == {} && Apart(m, f, L, 0, true)
  {
  }

  /** What entry i adds. */
  lemma NextPiece(m: Memory, f: nat, L: nat, i: nat)
    requires f < |m| && i < 512 && 1 <= L <= 4
    ensures Pieces(m, f, L, i + 1, true) == Pieces(m, f, L, i, true) + Piece(m, f, L, i, true)
    ensures var e := m[f][i];
            Piece(m, f, L, i, true) == if !Present(e) || (2 <= L <= 3 && Huge(e)) then {}
                                       else if L == 1 then {e.frame} else Owned(m, e.frame, L - 1, true)
  {
  }

  /** After the entries before it are freed, entry i's frames are still held once. */
  lemma EntryHeld(m: Memory, f: nat, L: nat, i: nat, fs: seq<Pmm.Frame>, base: nat)
    requires Tree(m, f, L, true) && i < 512 && HeldOnce(fs, base, Owned(m, f, L, true))
    ensures HeldOnce(ReleaseAll(fs, base, Pieces(m, f, L, i, true)), base, Piece(m, f, L, i, true))
    ensures Descends(m[f][i], L) ==> Tree(m, m[f][i].frame, L - 1, true)
  {
    if Descends(m[f][i], L) { ApartTree(m, f, L, 512, true, i); }
    PieceNew(m, f, L, i, 512);
    hide Piece, Pieces, Apart, Descends;
    PieceIn(m, f, L, i, 512, true);
    HeldStill(fs, base, Pieces(m, f, L, i, true), Piece(m, f, L, i, true));
  }

  lemma PieceNew(m: Memory, f: nat, L: nat, i: nat, n: nat)
    requires f < |m| && i < n <= 512 && Apart(m, f, L, n, true)
    ensures Piece(m, f, L, i, true) !! Pieces(m, f, L, i, true)
  {
    hide Piece, Pieces;
    var mine := Piece(m, f, L, i, true);
    forall x | x in Pieces(m, f, L, i, true) ensures x !in mine {
      var j := InSomePiece(m, f, L, i, true, x);
      ApartAt(m, f, L, n, true, j, i);
    }
  }

  lemma HeldStill(fs: seq<Pmm.Frame>, base: nat, s: set<nat>, t: set<nat>)
    requires HeldOnce(fs, base, t) && s !! t
    ensures HeldOnce(ReleaseAll(fs, base, s), base, t)
  {
  }

  lemma RootHeld(m: Memory, f: nat, L: nat, fs: seq<Pmm.Frame>, base: nat)
    requires Tree(m, f, L, true) && HeldOnce(fs, base, Owned(m, f, L, true))
    ensures HeldOnce(ReleaseAll(fs, base, Pieces(m, f, L, 512, true)), base, {f})
    ensures Owned(m, f, L, true) == Pieces(m, f, L, 512, true) + {f}
  {
    hide Pieces;
  }

  // ----- cloning -------------------------------------------------------------------------------

  /** Filling table dst: its first n entries own disjoint frames that were free, the rest
      are absent, and nothing else in memory changed since m0. */
  ghost predicate Owning(m0: Memory, m: Memory, dst: nat, L: nat, n: nat, free: set<nat>) {
    && n <= 512 && |m| == |m0| && 0 < dst < |m| && dst !in free
    && Apart(m, dst, L, n, true) && Pieces(m, dst, L, n, true) <= free
    && OnlyIn(m0, m, {dst} + Pieces(m, dst, L, n, true))
    && forall i :: n <= i < 512 ==> m[dst][i] == ZERO
  }

  /** The frames to copy from: in memory, not free, and not the copy's own table. */
  ghost predicate Source(m: Memory, src: nat, L: nat, dst: nat, free: set<nat>) {
    forall x :: x in Owned(m, src, L, true) ==> x < |m| && x !in free && x != dst
  }

  /** Writing entry n, together with free frames below it, keeps the picture. */
  lemma Extend(m0: Memory, m: Memory, m': Memory, src: nat, dst: nat, L: nat, n: nat, free: set<nat>)
    requires n < 512 && Owning(m0, m, dst, L, n, free) && |m'| == |m|
    requires Piece(m', dst, L, n, true) <= free - Pieces(m, dst, L, n, true)
    requires Descends(m'[dst][n], L) ==> Tree(m', m'[dst][n].frame, L - 1, true)
    requires OnlyIn(m, m', {dst} + Piece(m', dst, L, n, true))
    requires forall i :: 0 <= i < 512 && i != n ==> m'[dst][i] == m[dst][i]
    ensures Owning(m0, m', dst, L, n + 1, free)
    ensures Pieces(m', dst, L, n + 1, true) == Pieces(m, dst, L, n, true) + Piece(m', dst, L, n, true)
    ensures src < |m0| && Copied(m0, m, src, dst, L, n) && EntryCopied(m0, m', src, dst, L, n) ==>
              Copied(m0, m', src, dst, L, n + 1)
  {
    PiecesFrame(m, m', dst, L, n, true);
    if src < |m0| && Copied(m0, m, src, dst, L, n) && EntryCopied(m0, m', src, dst, L, n) {
      CopiedFrame(m0, m0, m, m', src, dst, L, n);
    }
    hide Piece, EntryCopied;
  }

  /** Once every entry is written, or the rest is absent, dst is a tree. */
  lemma Finish(m0: Memory, m: Memory, dst: nat, L: nat, n: nat, free: set<nat>)
    requires Owning(m0, m, dst, L, n, free)
    ensures Owning(m0, m, dst, L, 512, free) && Tree(m, dst, L, true)
    ensures Pieces(m, dst, L, 512, true) == Pieces(m, dst, L, n, true)
  {
    RestAbsent(m, dst, L, n, 512, true);
    hide Piece, Pieces, Apart;
  }

  /** An entry of the source is as it was, and leads to sources. */
  lemma SourceEntry(m0: Memory, m: Memory, src: nat, dst: nat, L: nat, n: nat, free: set<nat>)
    requires Owning(m0, m, dst, L, n, free) && Source(m0, src, L, dst, free) && n < 512
    ensures src < |m0| && m[src] == m0[src]
    ensures L == 1 && Present(m0[src][n]) ==> m0[src][n].frame < |m0| && m[m0[src][n].frame] == m0[m0[src][n].frame]
    ensures Descends(m0[src][n], L) ==> m0[src][n].frame < |m0| && Source(m0, m0[src][n].frame, L - 1, dst, free)
    ensures Agree(m0, m, Owned(m0, src, L, true))
  {
    assert src in Owned(m0, src, L, true);
    PieceIn(m0, src, L, n, 512, true);
    var e := m0[src][n];
    if Descends(e, L) {
      assert Piece(m0, src, L, n, true) == Owned(m0, e.frame, L - 1, true);
      assert e.frame in Owned(m0, e.frame, L - 1, true);
    }
    if L == 1 && Present(e) {
      assert Piece(m0, src, L, n, true) == {e.frame};
      assert e.frame in Owned(m0, src, L, true);
    }
    hide Piece, Pieces, Apart;
  }

  /** The free frames after a claim. */
  lemma FreeAfter(p: Pmm.Pool, q: Pmm.Pool, base: nat, s: set<nat>)
    requires q.frames == ClaimAll(p.frames, base, s)
    ensures FreeSet(q, base) == FreeSet(p, base) - s
  {
  }

  lemma ClaimOne(fs: seq<Pmm.Frame>, base: nat, f: nat)
    requires base <= f < base + |fs|
    ensures Claimed(fs, f - base) == ClaimAll(fs, base, {f})
  {
  }

  /** One more frame from the allocator, on top of the frames s claimed so far. */
  method Grab(k: Machine, zone: nat, ghost p0: Pmm.Pool, ghost s: set<nat>) returns (f: nat)
    requires k.Valid() && zone < 3 && k.Pool().frames == ClaimAll(p0.frames, k.Base(), s)
    modifies k.pmm.frames, k.pmm.zoneCursor, k.pmm.zoneFree
    ensures k.Valid()
    ensures f == 0 ==> k.Pool() == old(k.Pool()) && Pmm.Exhausted(k.Pool(), zone)
    ensures f != 0 ==> f < k.mem.Length && f in FreeSet(p0, k.Base()) - s
    ensures f != 0 ==> k.Pool().frames == ClaimAll(p0.frames, k.Base(), s + {f})
  {
    FreeAfter(p0, k.Pool(), k.Base(), s);
    f := k.AllocFrame(zone);
    if f != 0 {
      ClaimOne(old(k.Pool()).frames, k.Base(), f);
      ClaimMore(p0.frames, k.Base(), s, {f});
    }
  }

  /** The memory after entry n of dst names the fresh, filled frame f. */
  ghost predicate Linked(m: Memory, m': Memory, dst: nat, n: nat, e: Pte, f: nat, page: Page) {
    && |m'| == |m| && dst < |m| && f < |m| && f != dst && n < 512
    && m'[f] == page && m'[dst] == m[dst][n := Pte(e.low, f, 0)] && OnlyIn(m, m', {dst, f})
  }

  /** Lines 226-235: a present level-1 entry gets a page of its own with the same content. */
  lemma PageCopied(m0: Memory, m: Memory, m': Memory, src: nat, dst: nat, n: nat, f: nat, free: set<nat>)
    requires n < 512 && Owning(m0, m, dst, 1, n, free) && Source(m0, src, 1, dst, free)
    requires f in free - Pieces(m, dst, 1, n, true)
    requires src < |m0| && Present(m0[src][n]) && m0[src][n].frame < |m0|
    requires Linked(m, m', dst, n, m0[src][n], f, m0[m0[src][n].frame])
    ensures Owning(m0, m', dst, 1, n + 1, free)
    ensures Pieces(m', dst, 1, n + 1, true) == Pieces(m, dst, 1, n, true) + {f}
    ensures Copied(m0, m, src, dst, 1, n) ==> Copied(m0, m', src, dst, 1, n + 1)
  {
    assert Piece(m', dst, 1, n, true) == {f};
    assert EntryCopied(m0, m', src, dst, 1, n);
    hide Piece, Pieces, Apart, EntryCopied, Copied;
    Extend(m0, m, m', src, dst, 1, n, free);
  }

  /** Lines 197-200 and 212-215: a huge entry is kept as it is; an absent one stays absent. */
  lemma EntryKept(m0: Memory, m: Memory, m': Memory, src: nat, dst: nat, L: nat, n: nat, free: set<nat>)
    requires n < 512 && Owning(m0, m, dst, L, n, free) && src < |m0| && 1 <= L <= 3
    requires !Descends(m0[src][n], L) && (L == 1 ==> !Present(m0[src][n]))
    requires |m'| == |m| && m'[dst] == m[dst][n := if Present(m0[src][n]) then m0[src][n] else ZERO]
    requires OnlyIn(m, m', {dst})
    ensures Owning(m0, m', dst, L, n + 1, free)
    ensures Pieces(m', dst, L, n + 1, true) == Pieces(m, dst, L, n, true)
    ensures Copied(m0, m, src, dst, L, n) ==> Copied(m0, m', src, dst, L, n + 1)
  {
    assert Piece(m', dst, L, n, true) == {};
    assert EntryCopied(m0, m', src, dst, L, n);
    hide Piece, Pieces, Apart, EntryCopied, Copied;
    Extend(m0, m, m', src, dst, L, n, free);
  }

  /** Before descending: the new table below entry n is zeroed and the source is intact. */
  lemma TableReady(m0: Memory, m: Memory, m1: Memory, src: nat, dst: nat, L: nat, n: nat, f: nat, free: set<nat>)
    requires n < 512 && L >= 2 && Owning(m0, m, dst, L, n, free) && Source(m0, src, L, dst, free)
    requires f in free - Pieces(m, dst, L, n, true)
    requires src < |m0| && Descends(m0[src][n], L) && Linked(m, m1, dst, n, m0[src][n], f, ZeroPage())
    ensures Source(m1, m0[src][n].frame, L - 1, f, free - Pieces(m, dst, L, n, true) - {f})
    ensures m0[src][n].frame < |m0| && Agree(m0, m1, Owned(m0, m0[src][n].frame, L - 1, true))
  {
    SourceEntry(m0, m, src, dst, L, n, free);
    hide Piece, Pieces, Apart, Owned;
    var c := m0[src][n].frame;
    assert Agree(m0, m1, Owned(m0, c, L - 1, true));
    OwnedFrame(m0, m1, c, L - 1, true);
  }

  /** After descending, complete or cut short. */
  lemma TableFilled(m0: Memory, m: Memory, m1: Memory, m2: Memory, src: nat, dst: nat, L: nat, n: nat, f: nat,
      free: set<nat>)
    requires n < 512 && L >= 2 && Owning(m0, m, dst, L, n, free)
    requires f in free - Pieces(m, dst, L, n, true)
    requires src < |m0| && Descends(m0[src][n], L) && Linked(m, m1, dst, n, m0[src][n], f, ZeroPage())
    requires m0[src][n].frame < |m0| && Agree(m0, m1, Owned(m0, m0[src][n].frame, L - 1, true))
    requires Owning(m1, m2, f, L - 1, 512, free - Pieces(m, dst, L, n, true) - {f}) && Tree(m2, f, L - 1, true)
    ensures Owning(m0, m2, dst, L, n + 1, free)
    ensures Pieces(m2, dst, L, n + 1, true) == Pieces(m, dst, L, n, true) + {f} + Pieces(m2, f, L - 1, 512, true)
    ensures Copied(m0, m, src, dst, L, n) && Copied(m1, m2, m0[src][n].frame, f, L - 1, 512) ==>
              Copied(m0, m2, src, dst, L, n + 1)
  {
    var e := m0[src][n];
    assert m2[dst] == m1[dst];
    assert Piece(m2, dst, L, n, true) == Owned(m2, f, L - 1, true);
    assert Owned(m2, f, L - 1, true) == {f} + Pieces(m2, f, L - 1, 512, true);
    if Copied(m1, m2, e.frame, f, L - 1, 512) {
      OwnedFrame(m0, m1, e.frame, L - 1, true);
      CopiedFrame(m1, m0, m2, m2, e.frame, f, L - 1, 512);
      assert EntryCopied(m0, m2, src, dst, L, n);
    }
    hide Piece, Pieces, Apart, EntryCopied, Copied;
    Extend(m0, m, m2, src, dst, L, n, free);
  }

  /** The claims made so far are what the first n entries of dst own. */
  ghost predicate Progress(k: Machine, m0: Memory, p0: Pmm.Pool, dst: nat, L: nat, n: nat)
    reads k.mem, k.pmm.frames, k.pmm.zoneCursor, k.pmm.zoneFree
  {
    && k.Valid() && Owning(m0, k.mem[..], dst, L, n, FreeSet(p0, k.Base()))
    && k.Pool().frames == ClaimAll(p0.frames, k.Base(), Pieces(k.mem[..], dst, L, n, true))
  }

  /** One turn of the loops at lines 195, 210 and 225: entry n of a level-L table. */
  method CloneEntry(k: Machine, src: nat, dst: nat, L: nat, n: nat, ghost m0: Memory, ghost p0: Pmm.Pool)
    returns (ok: bool)
    requires 1 <= L <= 3 && n < 512 && Progress(k, m0, p0, dst, L, n) && Source(m0, src, L, dst, FreeSet(p0, k.Base()))
    requires src < |m0| && Copied(m0, k.mem[..], src, dst, L, n)
    modifies k.mem, k.pmm.frames, k.pmm.zoneCursor, k.pmm.zoneFree
    ensures ok ==> Progress(k, m0, p0, dst, L, n + 1) && Copied(m0, k.mem[..], src, dst, L, n + 1)
    ensures !ok ==> Progress(k, m0, p0, dst, L, n) || Progress(k, m0, p0, dst, L, n + 1)
    ensures !ok ==> Pmm.Exhausted(k.Pool(), Pmm.ZONE_GREEN) || Pmm.Exhausted(k.Pool(), Pmm.ZONE_RED)
    decreases L, 0
  {
    hide Piece, Pieces, Apart, Owned, Copied, EntryCopied, ClaimAll, FreeSet, Source;
    ghost var m, base := k.mem[..], k.Base();
    ghost var free := FreeSet(p0, base);
    ghost var s := Pieces(m, dst, L, n, true);
    SourceEntry(m0, m, src, dst, L, n, free);
    var e := k.mem[src][n];
    if !Present(e) {
      EntryKept(m0, m, m, src, dst, L, n, free);
      return true;
    }
    if L >= 2 && Huge(e) {
      k.mem[dst] := k.mem[dst][n := e];
      EntryKept(m0, m, k.mem[..], src, dst, L, n, free);
      return true;
    }
    if L == 1 {
      var page := Grab(k, Pmm.ZONE_RED, p0, s);
      if page == 0 { return false; }
      k.mem[page] := k.mem[e.frame];
      k.mem[dst] := k.mem[dst][n := Pte(e.low, page, 0)];
      PageCopied(m0, m, k.mem[..], src, dst, n, page, free);
      return true;
    }
    var table := Grab(k, Pmm.ZONE_GREEN, p0, s);
    if table == 0 { return false; }
    k.mem[table] := ZeroPage();
    k.mem[dst] := k.mem[dst][n := Pte(e.low, table, 0)];
    ghost var m1, p1 := k.mem[..], k.Pool();
    FreeAfter(p0, p1, base, s + {table});
    TableReady(m0, m, m1, src, dst, L, n, table, free);
    assert FreeSet(p1, base) == free - s - {table};
    ok := CloneEntries(k, e.frame, table, L - 1);
    TableFilled(m0, m, m1, k.mem[..], src, dst, L, n, table, free);
    ClaimMore(p0.frames, base, s + {table}, Pieces(k.mem[..], table, L - 1, 512, true));
  }

  /** The deep copy below one table: the loops at lines 195-238, by level. dst is left a tree
      that owns exactly the frames claimed, whether or not the copy was completed. */
  method CloneEntries(k: Machine, src: nat, dst: nat, L: nat) returns (ok: bool)
    requires k.Valid() && 1 <= L <= 3 && Source(k.mem[..], src, L, dst, FreeSet(k.Pool(), k.Base()))
    requires 0 < dst < k.mem.Length && k.mem[dst] == ZeroPage() && dst !in FreeSet(k.Pool(), k.Base())
    modifies k.mem, k.pmm.frames, k.pmm.zoneCursor, k.pmm.zoneFree
    ensures k.Valid()
    ensures Owning(old(k.mem[..]), k.mem[..], dst, L, 512, old(FreeSet(k.Pool(), k.Base())))
    ensures Tree(k.mem[..], dst, L, true)
    ensures k.Pool().frames == ClaimAll(old(k.Pool()).frames, k.Base(), Pieces(k.mem[..], dst, L, 512, true))
    ensures ok ==> src < k.mem.Length && Copied(old(k.mem[..]), k.mem[..], src, dst, L, 512)
    ensures !ok ==> Pmm.Exhausted(k.Pool(), Pmm.ZONE_GREEN) || Pmm.Exhausted(k.Pool(), Pmm.ZONE_RED)
    decreases L, 1
  {
    hide Piece, Owned, EntryCopied, ClaimAll, FreeSet, Source;
    ghost var m0, p0 := k.mem[..], k.Pool();
    ghost var free := FreeSet(p0, k.Base());
    NothingReleased(p0.frames, k.Base());
    SourceEntry(m0, m0, src, dst, L, 0, free);
    var n := 0;
    while n < 512
      invariant 0 <= n <= 512 && Progress(k, m0, p0, dst, L, n) && Copied(m0, k.mem[..], src, dst, L, n)
    {
      ok := CloneEntry(k, src, dst, L, n, m0, p0);
      if !ok {
        Finish(m0, k.mem[..], dst, L, if Progress(k, m0, p0, dst, L, n) then n else n + 1, free);
        return;
      }
      n := n + 1;
    }
    ok := true;
    Finish(m0, k.mem[..], dst, L, 512, free);
  }

  // ----- whole address spaces ----------------------------------------------------------------

  /** The private entries of a root table: in the low half and different from the kernel's. */
  function Mask(page: Page, kpage: Page): Page {
    seq(512, i requires 0 <= i < 512 => if i < 256 && page[i] != kpage[i] then page[i] else ZERO)
  }

  /** Memory with the root table cut down to its private entries. */
  function View(m: Memory, root: nat, kroot: nat): (v: Memory)
    requires root < |m| && kroot < |m|
    ensures |v| == |m|
  {
    m[root := Mask(m[root], m[kroot])]
  }

  /** What the address space at root owns: its root table, its private tables, its pages. */
  ghost function Space(m: Memory, root: nat, kroot: nat): set<nat>
    requires root < |m| && kroot < |m|
  {
    Owned(View(m, root, kroot), root, 4, true)
  }

  /** free_user_address_space: all of it goes back. */
  method FreeAddressSpace(k: Machine, root: nat, kroot: nat)
    requires k.Valid() && root < k.mem.Length && kroot < k.mem.Length
    requires root != 0 ==> Tree(View(k.mem[..], root, kroot), root, 4, true)
    requires root != 0 ==> HeldOnce(k.Pool().frames, k.Base(), Space(k.mem[..], root, kroot))
    modifies k.pmm.frames, k.pmm.zoneFree
    ensures k.Valid()
    ensures k.Pool().frames == if root == 0 then old(k.Pool()).frames
                               else ReleaseAll(old(k.Pool()).frames, k.Base(), Space(k.mem[..], root, kroot))
  {
    hide Piece, Pieces, Apart, ReleaseAll, HeldOnce, Mask;
    if root == 0 { return; }
    ghost var m, fs0, base := View(k.mem[..], root, kroot), k.Pool().frames, k.Base();
    NothingReleased(fs0, base);
    EmptyPieces(m, root, 4);
    var p4 := 0;
    while p4 < 256
      invariant 0 <= p4 <= 256 && k.Valid()
      invariant k.Pool().frames == ReleaseAll(fs0, base, Pieces(m, root, 4, p4, true))
    {
      var e := k.mem[root][p4];
      ghost var before := k.Pool().frames;
      MaskAt(k.mem[root], k.mem[kroot], p4);
      ReleaseMore(fs0, base, Pieces(m, root, 4, p4, true), Piece(m, root, 4, p4, true));
      NextPiece(m, root, 4, p4);
      EntryHeld(m, root, 4, p4, fs0, base);
      NothingReleased(before, base);
      if Present(e) && e != k.mem[kroot][p4] {
        BelowRoot(m, k.mem[..], root, p4);
        FreeTable(k, e.frame, 3);
      }
      p4 := p4 + 1;
    }
    HighHalf(k.mem[..], root, kroot);
    RootHeld(m, root, 4, fs0, base);
    ReleaseMore(fs0, base, Pieces(m, root, 4, 512, true), {root});
    FreeFrame(k, root);
  }

  lemma MaskAt(page: Page, kpage: Page, i: nat)
    requires i < 512
    ensures Mask(page, kpage)[i] == if i < 256 && page[i] != kpage[i] then page[i] else ZERO
  {
  }

  /** Below the root the view is the memory itself. */
  lemma BelowRoot(v: Memory, m: Memory, root: nat, i: nat)
    requires Tree(v, root, 4, true) && OnlyIn(m, v, {root}) && i < 512 && Descends(v[root][i], 4)
    ensures Tree(m, v[root][i].frame, 3, true)
    ensures Owned(m, v[root][i].frame, 3, true) == Owned(v, v[root][i].frame, 3, true)
  {
    PieceIn(v, root, 4, i, 512, true);
    ApartTree(v, root, 4, 512, true, i);
    assert Piece(v, root, 4, i, true) == Owned(v, v[root][i].frame, 3, true);
    hide Piece, Pieces, Apart, Owned;
    OwnedFrame(v, m, v[root][i].frame, 3, true);
  }

  lemma HighHalf(m: Memory, root: nat, kroot: nat)
    requires root < |m| && kroot < |m|
    ensures var v := View(m, root, kroot); Pieces(v, root, 4, 512, true) == Pieces(v, root, 4, 256, true)
  {
    RestAbsent(View(m, root, kroot), root, 4, 256, 512, true);
  }

  /** Memory with both root tables cut down to their private entries. */
  function Both(m: Memory, parent: nat, child: nat, kroot: nat): (w: Memory)
    requires parent < |m| && child < |m| && kroot < |m|
    ensures |w| == |m|
  {
    m[parent := Mask(m[parent], m[kroot])][child := Mask(m[child], m[kroot])]
  }

  /** What sys_fork_impl may rely on: the parent is a tree; neither it nor the kernel's
      tables are on the free list. */
  ghost predicate Forkable(m: Memory, parent: nat, kroot: nat, free: set<nat>) {
    && 0 < parent < |m| && kroot < |m| && kroot !in free
    && Tree(View(m, parent, kroot), parent, 4, true)
    && (forall x :: x in Space(m, parent, kroot) ==> x < |m| && x !in free)
    && (forall i :: 0 <= i < 256 && Present(m[kroot][i]) ==> m[kroot][i].frame !in free)
  }

  /** The state of the loop at line 182 before entry n: b is the memory at its start. */
  ghost predicate TopProgress(k: Machine, b: Memory, p1: Pmm.Pool, parent: nat, child: nat, kroot: nat, n: nat)
    reads k.mem, k.pmm.frames, k.pmm.zoneCursor, k.pmm.zoneFree
  {
    && k.Valid() && |b| == k.mem.Length && parent < |b| && child < |b| && kroot < |b|
    && var m := k.mem[..]; var w := Both(m, parent, child, kroot);
    && Owning(Both(b, parent, child, kroot), w, child, 4, n, FreeSet(p1, k.Base()))
    && k.Pool().frames == ClaimAll(p1.frames, k.Base(), Pieces(w, child, 4, n, true))
    && OnlyIn(b, m, {child} + Pieces(w, child, 4, n, true))
    && (forall i :: 0 <= i < 512 && !(i < n && Present(w[child][i])) ==> m[child][i] == b[kroot][i])
  }

  ghost predicate TopCopied(b: Memory, m: Memory, parent: nat, child: nat, kroot: nat, n: nat) {
    && |m| == |b| && parent < |b| && child < |b| && kroot < |b| && n <= 512
    && Copied(Both(b, parent, child, kroot), Both(m, parent, child, kroot), parent, child, 4, n)
  }

  /** Standing facts about the roots during the loop. */
  ghost predicate Roots(b: Memory, parent: nat, child: nat, kroot: nat, free: set<nat>) {
    && Forkable(b, parent, kroot, free) && 0 < child < |b| && child !in free
    && child != parent && child != kroot && child !in Space(b, parent, kroot)
  }

  lemma BothSource(b: Memory, parent: nat, child: nat, kroot: nat, free: set<nat>)
    requires Roots(b, parent, child, kroot, free)
    ensures Source(Both(b, parent, child, kroot), parent, 4, child, free)
    ensures var w := Both(b, parent, child, kroot); Owned(w, parent, 4, true) == Space(b, parent, kroot)
    ensures var w := Both(b, parent, child, kroot); Tree(w, parent, 4, true)
  {
    hide Mask, Owned, Tree;
    OwnedFrame(View(b, parent, kroot), Both(b, parent, child, kroot), parent, 4, true);
  }

  /** Skipping an entry that is absent or the kernel's. */
  lemma TopSkip(b: Memory, m: Memory, parent: nat, child: nat, kroot: nat, n: nat, free: set<nat>)
    requires Roots(b, parent, child, kroot, free) && n < 256 && |m| == |b|
    requires var w, wb := Both(m, parent, child, kroot), Both(b, parent, child, kroot);
             Owning(wb, w, child, 4, n, free) && !Present(wb[parent][n])
    ensures var w, wb := Both(m, parent, child, kroot), Both(b, parent, child, kroot);
            && Owning(wb, w, child, 4, n + 1, free)
            && Pieces(w, child, 4, n + 1, true) == Pieces(w, child, 4, n, true)
            && (Copied(wb, w, parent, child, 4, n) ==> Copied(wb, w, parent, child, 4, n + 1))
  {
    var w, wb := Both(m, parent, child, kroot), Both(b, parent, child, kroot);
    assert w[child][n] == ZERO;
    assert Piece(w, child, 4, n, true) == {};
    assert EntryCopied(wb, w, parent, child, 4, n);
    hide Mask, Piece, Pieces, Apart, EntryCopied, Copied;
    Extend(wb, w, w, parent, child, 4, n, free);
  }

  /** The new third-level table hangs below entry n, in memory and in the private view. */
  lemma TopLinked(b: Memory, m: Memory, m1: Memory, parent: nat, child: nat, kroot: nat, n: nat, t: nat, free: set<nat>)
    requires Roots(b, parent, child, kroot, free) && n < 256 && |m| == |b|
    requires var w, wb := Both(m, parent, child, kroot), Both(b, parent, child, kroot);
             && Owning(wb, w, child, 4, n, free) && t in free - Pieces(w, child, 4, n, true)
             && OnlyIn(b, m, {child} + Pieces(w, child, 4, n, true))
    requires Present(m[parent][n]) && m[parent][n] != m[kroot][n]
    requires t < |m| && |m1| == |m| && m1[t] == ZeroPage() && OnlyIn(m, m1, {child, t})
    requires m1[child] == m[child][n := Pte(m[parent][n].low, t, 0)]
    ensures var w, w1, wb := Both(m, parent, child, kroot), Both(m1, parent, child, kroot),
        Both(b, parent, child, kroot);
            && wb[parent][n] == m[parent][n] && Descends(m[parent][n], 4)
            && Linked(w, w1, child, n, m[parent][n], t, ZeroPage())
            && b[kroot][n] != Pte(m[parent][n].low, t, 0)
  {
    hide Pieces, Apart;
    var e := m[parent][n];
    assert m[kroot] == b[kroot] && m[parent] == b[parent] && m1[kroot] == m[kroot] && m1[parent] == m[parent];
    var w, w1 := Both(m, parent, child, kroot), Both(m1, parent, child, kroot);
    assert b[kroot][n] != Pte(e.low, t, 0);
    assert Mask(m1[child], m1[kroot]) == Mask(m[child], m[kroot])[n := Pte(e.low, t, 0)];
  }

  /** The roots lie outside what is below them, so there the view is the memory. */
  lemma OffRoots(m: Memory, parent: nat, child: nat, kroot: nat, f: nat, L: nat)
    requires parent < |m| && child < |m| && kroot < |m|
    requires var w := Both(m, parent, child, kroot); parent !in Owned(w, f, L, true) && child !in Owned(w, f, L, true)
    ensures var w := Both(m, parent, child, kroot);
            && Owned(m, f, L, true) == Owned(w, f, L, true) && Tree(m, f, L, true) == Tree(w, f, L, true)
            && Agree(m, w, Owned(m, f, L, true))
  {
    hide Mask, Owned, Tree;
    OwnedFrame(Both(m, parent, child, kroot), m, f, L, true);
  }

  lemma OnRoots(m: Memory, parent: nat, child: nat, kroot: nat, f: nat, L: nat)
    requires parent < |m| && child < |m| && kroot < |m|
    requires parent !in Owned(m, f, L, true) && child !in Owned(m, f, L, true)
    ensures var w := Both(m, parent, child, kroot);
            && Owned(m, f, L, true) == Owned(w, f, L, true) && Tree(m, f, L, true) == Tree(w, f, L, true)
            && Agree(m, w, Owned(m, f, L, true))
  {
    hide Mask, Owned, Tree;
    OwnedFrame(m, Both(m, parent, child, kroot), f, L, true);
  }

  /** Before descending from a root entry. */
  lemma TopReady(b: Memory, m: Memory, m1: Memory, parent: nat, child: nat, kroot: nat, n: nat, t: nat, free: set<nat>)
    requires Roots(b, parent, child, kroot, free) && n < 256 && |m| == |b| && |m1| == |m|
    requires var w, w1, wb := Both(m, parent, child, kroot), Both(m1, parent, child, kroot),
        Both(b, parent, child, kroot);
             && Owning(wb, w, child, 4, n, free) && t in free - Pieces(w, child, 4, n, true)
             && Descends(wb[parent][n], 4) && Linked(w, w1, child, n, wb[parent][n], t, ZeroPage())
    ensures var w, w1, wb := Both(m, parent, child, kroot), Both(m1, parent, child, kroot),
        Both(b, parent, child, kroot);
            var c := wb[parent][n].frame;
            && c < |b| && Agree(wb, w1, Owned(wb, c, 3, true))
            && Source(m1, c, 3, t, free - Pieces(w, child, 4, n, true) - {t})
            && Agree(m1, w1, Owned(m1, c, 3, true))
  {
    hide Mask, Piece, Pieces, Apart, Owned, Tree, Both, Source, Descends;
    var w, w1, wb := Both(m, parent, child, kroot), Both(m1, parent, child, kroot), Both(b, parent, child, kroot);
    var c := wb[parent][n].frame;
    RootEntry(b, parent, child, kroot, n, free);
    TableReady(wb, w, w1, parent, child, 4, n, t, free);
    OwnedFrame(wb, w1, c, 3, true);
    OffRoots(m1, parent, child, kroot, c, 3);
    SameSource(w1, m1, c, 3, t, free - Pieces(w, child, 4, n, true) - {t});
  }

  lemma SameSource(w: Memory, m: Memory, c: nat, L: nat, t: nat, free: set<nat>)
    requires |w| == |m| && Owned(w, c, L, true) == Owned(m, c, L, true) && Source(w, c, L, t, free)
    ensures Source(m, c, L, t, free)
  {
    hide Owned;
  }

  /** A private entry of the parent leads to sources, away from both roots. */
  lemma RootEntry(b: Memory, parent: nat, child: nat, kroot: nat, n: nat, free: set<nat>)
    requires Roots(b, parent, child, kroot, free) && n < 512 && Descends(Both(b, parent, child, kroot)[parent][n], 4)
    ensures var wb := Both(b, parent, child, kroot);
            && Source(wb, parent, 4, child, free)
            && parent !in Owned(wb, wb[parent][n].frame, 3, true) && child !in Owned(wb, wb[parent][n].frame, 3, true)
  {
    var wb := Both(b, parent, child, kroot);
    BothSource(b, parent, child, kroot, free);
    assert Piece(wb, parent, 4, n, true) == Owned(wb, wb[parent][n].frame, 3, true);
    hide Mask, Piece, Pieces, Apart, Both;
    PieceIn(wb, parent, 4, n, 512, true);
  }

  /** What happened below the new table, seen in the private views. */
  lemma ViewFilled(m1: Memory, m2: Memory, parent: nat, child: nat, kroot: nat, c: nat, t: nat, free: set<nat>)
    requires parent < |m1| && child < |m1| && kroot < |m1| && |m2| == |m1|
    requires parent !in free && kroot !in free && child !in free && t != parent && t != child && t != kroot && c < |m1|
    requires Owning(m1, m2, t, 3, 512, free) && Tree(m2, t, 3, true)
    requires Agree(m1, Both(m1, parent, child, kroot), Owned(m1, c, 3, true))
    ensures m2[parent] == m1[parent] && m2[child] == m1[child] && m2[kroot] == m1[kroot]
    ensures var w1, w2 := Both(m1, parent, child, kroot), Both(m2, parent, child, kroot);
            && Owning(w1, w2, t, 3, 512, free) && Tree(w2, t, 3, true)
            && Pieces(w2, t, 3, 512, true) == Pieces(m2, t, 3, 512, true)
            && (Copied(m1, m2, c, t, 3, 512) ==> Copied(w1, w2, c, t, 3, 512))
  {
    var w1, w2 := Both(m1, parent, child, kroot), Both(m2, parent, child, kroot);
    assert Owned(m2, t, 3, true) == {t} + Pieces(m2, t, 3, 512, true);
    assert Owned(m1, c, 3, true) == {c} + Pieces(m1, c, 3, 512, true);
    hide Piece, Pieces, Mask, Copied, Owned, Apart;
    assert w2[t] == m2[t] && w1[c] == m1[c];
    BothOnly(m1, m2, parent, child, kroot, {t} + Pieces(m2, t, 3, 512, true));
    OnRoots(m2, parent, child, kroot, t, 3);
    hide Both, Tree;
    PiecesFrame(m2, w2, t, 3, 512, true);
    if Copied(m1, m2, c, t, 3, 512) { CopiedFrame(m1, w1, m2, w2, c, t, 3, 512); }
  }

  lemma BothOnly(m1: Memory, m2: Memory, parent: nat, child: nat, kroot: nat, s: set<nat>)
    requires parent < |m1| && child < |m1| && kroot < |m1| && OnlyIn(m1, m2, s)
    requires parent !in s && child !in s && kroot !in s
    ensures OnlyIn(Both(m1, parent, child, kroot), Both(m2, parent, child, kroot), s)
    ensures m2[parent] == m1[parent] && m2[child] == m1[child] && m2[kroot] == m1[kroot]
  {
    hide Mask;
  }

  /** After descending from a root entry, complete or cut short. */
  lemma TopFilled(b: Memory, m: Memory, m1: Memory, m2: Memory, parent: nat, child: nat, kroot: nat, n: nat, t: nat,
      free: set<nat>)
    requires Roots(b, parent, child, kroot, free) && n < 256 && |m| == |b| && |m1| == |m| && |m2| == |m|
    requires var w, w1, wb := Both(m, parent, child, kroot), Both(m1, parent, child, kroot),
        Both(b, parent, child, kroot);
             && Owning(wb, w, child, 4, n, free) && t in free - Pieces(w, child, 4, n, true)
             && Descends(wb[parent][n], 4) && Linked(w, w1, child, n, wb[parent][n], t, ZeroPage())
             && wb[parent][n].frame < |b| && Agree(wb, w1, Owned(wb, wb[parent][n].frame, 3, true))
             && Agree(m1, w1, Owned(m1, wb[parent][n].frame, 3, true))
             && Owning(m1, m2, t, 3, 512, free - Pieces(w, child, 4, n, true) - {t}) && Tree(m2, t, 3, true)
    ensures var w, w2, wb := Both(m, parent, child, kroot), Both(m2, parent, child, kroot),
        Both(b, parent, child, kroot);
            && Owning(wb, w2, child, 4, n + 1, free)
            && Pieces(w2, child, 4, n + 1, true) == Pieces(w, child, 4, n, true) + {t} + Pieces(m2, t, 3, 512, true)
            && (Copied(wb, w, parent, child, 4, n) && Copied(m1, m2, wb[parent][n].frame, t, 3, 512) ==>
                  Copied(wb, w2, parent, child, 4, n + 1))
            && m2[parent] == m1[parent] && m2[child] == m1[child] && m2[kroot] == m1[kroot]
            && OnlyIn(m1, m2, {t} + Pieces(m2, t, 3, 512, true))
  {
    hide Mask, Piece, Pieces, Apart, Owned, Tree, Both, Copied, Descends;
    var w, w1, w2, wb := Both(m, parent, child, kroot), Both(m1, parent, child, kroot),
      Both(m2, parent, child, kroot), Both(b, parent, child, kroot);
    var c := wb[parent][n].frame;
    ParentHeld(b, parent, kroot, free);
    ViewFilled(m1, m2, parent, child, kroot, c, t, free - Pieces(w, child, 4, n, true) - {t});
    TableFilled(wb, w, w1, w2, parent, child, 4, n, t, free);
  }

  lemma ParentHeld(b: Memory, parent: nat, kroot: nat, free: set<nat>)
    requires Forkable(b, parent, kroot, free)
    ensures parent !in free && kroot !in free
  {
    assert parent in Space(b, parent, kroot);
  }

  /** One turn of the loop at line 182. */
  method CloneRootEntry(k: Machine, parent: nat, child: nat, kroot: nat, n: nat, ghost b: Memory, ghost p1: Pmm.Pool)
    returns (ok: bool)
    requires n < 256 && TopProgress(k, b, p1, parent, child, kroot, n)
    requires TopCopied(b, k.mem[..], parent, child, kroot, n)
    requires Roots(b, parent, child, kroot, FreeSet(p1, k.Base()))
    modifies k.mem, k.pmm.frames, k.pmm.zoneCursor, k.pmm.zoneFree
    ensures ok ==> TopProgress(k, b, p1, parent, child, kroot, n + 1)
    ensures ok ==> TopCopied(b, k.mem[..], parent, child, kroot, n + 1)
    ensures !ok ==> TopProgress(k, b, p1, parent, child, kroot, n) || TopProgress(k, b, p1, parent, child, kroot, n + 1)
  {
    hide Piece, Pieces, Apart, Owned, Tree, Copied, ClaimAll, FreeSet, Source, Both, Mask, Descends, Roots, Owning;
    ghost var m, base := k.mem[..], k.Base();
    ghost var free := FreeSet(p1, base);
    ghost var w, wb := Both(m, parent, child, kroot), Both(b, parent, child, kroot);
    ghost var s := Pieces(w, child, 4, n, true);
    RootsAt(b, m, parent, child, kroot, n, free);
    var e := k.mem[parent][n];
    if !Present(e) || e == k.mem[kroot][n] {
      TopSkip(b, m, parent, child, kroot, n, free);
      return true;
    }
    var table := Grab(k, Pmm.ZONE_GREEN, p1, s);
    if table == 0 { return false; }
    k.mem[table] := ZeroPage();
    k.mem[child] := k.mem[child][n := Pte(e.low, table, 0)];
    ghost var m1, p2 := k.mem[..], k.Pool();
    FreeAfter(p1, p2, base, s + {table});
    TopLinked(b, m, m1, parent, child, kroot, n, table, free);
    TopReady(b, m, m1, parent, child, kroot, n, table, free);
    assert FreeSet(p2, base) == free - s - {table};
    ok := CloneEntries(k, e.frame, table, 3);
    TopFilled(b, m, m1, k.mem[..], parent, child, kroot, n, table, free);
    ClaimMore(p1.frames, base, s + {table}, Pieces(k.mem[..], table, 3, 512, true));
    TopChild(b, m, m1, k.mem[..], parent, child, kroot, n, e, table, free);
  }

  /** The root entries as the loop reads them. */
  lemma RootsAt(b: Memory, m: Memory, parent: nat, child: nat, kroot: nat, n: nat, free: set<nat>)
    requires Roots(b, parent, child, kroot, free) && n < 256 && |m| == |b|
    requires var w, wb := Both(m, parent, child, kroot), Both(b, parent, child, kroot);
             Owning(wb, w, child, 4, n, free) && OnlyIn(b, m, {child} + Pieces(w, child, 4, n, true))
    ensures m[parent] == b[parent] && m[kroot] == b[kroot] && child != parent && child != kroot && parent !in free
    ensures kroot !in free && child !in free
    ensures 0 < child
    ensures var wb := Both(b, parent, child, kroot);
            wb[parent][n] == if m[parent][n] != m[kroot][n] then m[parent][n] else ZERO
  {
    hide Piece, Pieces, Apart;
    ParentHeld(b, parent, kroot, free);
  }

  /** The child's root table after entry n is linked and filled. */
  lemma TopChild(b: Memory, m: Memory, m1: Memory, m2: Memory, parent: nat, child: nat, kroot: nat, n: nat, e: Pte,
      t: nat, free: set<nat>)
    requires |m| == |b| && |m1| == |m| && |m2| == |m| && parent < |b| && child < |b| && kroot < |b| && n < 256
    requires m2[child] == m1[child] && m1[child] == m[child][n := Pte(e.low, t, 0)] && Present(e)
    requires m2[kroot] == b[kroot] && m[kroot] == b[kroot] && child != kroot && child != parent
    requires b[kroot][n] != Pte(e.low, t, 0)
    requires forall i :: 0 <= i < 512 && !(i < n && Present(Both(m, parent, child, kroot)[child][i])) ==>
        m[child][i] == b[kroot][i]
    ensures forall i :: 0 <= i < 512 && !(i < n + 1 && Present(Both(m2, parent, child, kroot)[child][i])) ==>
        m2[child][i] == b[kroot][i]
  {
    forall i | 0 <= i < 512 && !(i < n + 1 && Present(Both(m2, parent, child, kroot)[child][i]))
      ensures m2[child][i] == b[kroot][i]
    {
      if i == n { assert Present(Pte(e.low, t, 0)); }
    }
  }

  /** The child is a copy of the parent: its private entries copy the parent's, every other
      root entry is the kernel's, and its frames were all free before. */
  ghost predicate IsClone(m0: Memory, m: Memory, parent: nat, child: nat, kroot: nat, free: set<nat>) {
    && |m| == |m0| && parent < |m| && 0 < child < |m| && kroot < |m| && child != parent && child != kroot
    && Tree(View(m, child, kroot), child, 4, true) && Space(m, child, kroot) <= free
    && OnlyIn(m0, m, Space(m, child, kroot))
    && Copied(View(m0, parent, kroot), View(m, child, kroot), parent, child, 4, 512)
    && (forall i :: 0 <= i < 512 && !Present(View(m, child, kroot)[child][i]) ==> m[child][i] == m0[kroot][i])
  }

  /** Lines 157-176: a new root table holding the kernel's 512 entries. */
  method NewRoot(k: Machine, kroot: nat) returns (child: nat)
    requires k.Valid() && kroot < k.mem.Length && kroot !in FreeSet(k.Pool(), k.Base())
    modifies k.mem, k.pmm.frames, k.pmm.zoneCursor, k.pmm.zoneFree
    ensures k.Valid()
    ensures child == 0 ==> k.Pool() == old(k.Pool()) && k.mem[..] == old(k.mem[..])
    ensures child != 0 ==> child < k.mem.Length && child in old(FreeSet(k.Pool(), k.Base())) && child != kroot
    ensures child != 0 ==> k.Pool().frames == ClaimAll(old(k.Pool()).frames, k.Base(), {child})
    ensures child != 0 ==> k.mem[..] == old(k.mem[..])[child := old(k.mem[kroot])]
  {
    hide ClaimAll, FreeSet;
    ghost var p0 := k.Pool();
    NothingReleased(p0.frames, k.Base());
    child := Grab(k, Pmm.ZONE_GREEN, p0, {});
    if child == 0 { return; }
    assert {} + {child} == {child};
    var i := 0;
    while i < 512
      invariant 0 <= i <= 512 && k.Valid() && k.Pool().frames == ClaimAll(p0.frames, k.Base(), {child})
      invariant OnlyIn(old(k.mem[..]), k.mem[..], {child})
      invariant forall j :: 0 <= j < i ==> k.mem[child][j] == k.mem[kroot][j]
    {
      k.mem[child] := k.mem[child][i := k.mem[kroot][i]];
      i := i + 1;
    }
    assert k.mem[child] == k.mem[kroot];
  }

  /** The picture when the copying loop starts. */
  lemma StartRoots(m0: Memory, b: Memory, parent: nat, child: nat, kroot: nat, free: set<nat>)
    requires Forkable(m0, parent, kroot, free) && 0 < child < |m0| && child in free
    requires b == m0[child := m0[kroot]]
    ensures child != parent && child != kroot && Roots(b, parent, child, kroot, free - {child})
    ensures var w := Both(b, parent, child, kroot);
            Owning(w, w, child, 4, 0, free - {child}) && Copied(w, w, parent, child, 4, 0) &&
              Pieces(w, child, 4, 0, true) == {}
    ensures Both(b, parent, child, kroot) == Both(m0, parent, child, kroot)[child := ZeroPage()]
    ensures Space(b, parent, kroot) == Space(m0, parent, kroot)
  {
    ParentHeld(m0, parent, kroot, free);
    assert Both(b, parent, child, kroot)[child] == ZeroPage();
    hide Owned, Tree;
    assert child !in Space(m0, parent, kroot);
    OwnedFrame(View(m0, parent, kroot), View(b, parent, kroot), parent, 4, true);
  }

  /** Seen from the child alone: it owns what was claimed. */
  lemma ChildSpace(b: Memory, m: Memory, parent: nat, child: nat, kroot: nat, n: nat, free: set<nat>)
    requires Roots(b, parent, child, kroot, free) && |m| == |b| && n <= 512
    requires Owning(Both(b, parent, child, kroot), Both(m, parent, child, kroot), child, 4, n, free)
    ensures Tree(View(m, child, kroot), child, 4, true)
    ensures Space(m, child, kroot) == {child} + Pieces(Both(m, parent, child, kroot), child, 4, n, true)
  {
    var w := Both(m, parent, child, kroot);
    ParentHeld(b, parent, kroot, free);
    Finish(Both(b, parent, child, kroot), w, child, 4, n, free);
    assert Owned(w, child, 4, true) == {child} + Pieces(w, child, 4, n, true);
    hide Owned, Tree, Pieces, Mask;
    OwnedFrame(w, View(m, child, kroot), child, 4, true);
  }

  /** The finished copy, seen from parent and child separately. */
  lemma FinishedClone(m0: Memory, b: Memory, m: Memory, parent: nat, child: nat, kroot: nat, free: set<nat>)
    requires Forkable(m0, parent, kroot, free) && 0 < child < |m0| && child in free && b == m0[child := m0[kroot]]
    requires |m| == |b| && child != parent && child != kroot && Roots(b, parent, child, kroot, free - {child})
    requires var w, wb := Both(m, parent, child, kroot), Both(b, parent, child, kroot);
             && Owning(wb, w, child, 4, 256, free - {child}) && Copied(wb, w, parent, child, 4, 256)
             && OnlyIn(b, m, {child} + Pieces(w, child, 4, 256, true))
             && (forall i :: 0 <= i < 512 && !(i < 256 && Present(w[child][i])) ==> m[child][i] == b[kroot][i])
    ensures IsClone(m0, m, parent, child, kroot, free)
  {
    hide Mask, Tree, Piece, Apart, Pieces, Owned, Both, Copied, Owning, Space, Roots, View;
    var w, wb := Both(m, parent, child, kroot), Both(b, parent, child, kroot);
    ViewsAgree(m0, b, m, parent, child, kroot);
    HighCopied(wb, w, parent, child, 256, 512);
    ChildSpace(b, m, parent, child, kroot, 256, free - {child});
    OwningFree(wb, w, child, 256, free - {child});
    SourceSide(m0, b, parent, child, kroot, free);
    ChildSide(b, m, parent, child, kroot, free - {child});
    CopiedFrame(wb, View(m0, parent, kroot), w, View(m, child, kroot), parent, child, 4, 512);
  }

  lemma ViewsAgree(m0: Memory, b: Memory, m: Memory, parent: nat, child: nat, kroot: nat)
    requires child < |m0| && parent < |m0| && kroot < |m0| && b == m0[child := m0[kroot]] && |m| == |b|
    requires child != parent && child != kroot
    ensures var w, wb := Both(m, parent, child, kroot), Both(b, parent, child, kroot);
            && View(m0, parent, kroot)[parent] == wb[parent] && View(m, child, kroot)[child] == w[child]
            && (forall i :: 256 <= i < 512 ==> wb[parent][i] == ZERO && w[child][i] == ZERO)
            && b[kroot] == m0[kroot]
  {
  }

  lemma ChildSide(b: Memory, m: Memory, parent: nat, child: nat, kroot: nat, free: set<nat>)
    requires Roots(b, parent, child, kroot, free) && |m| == |b|
    requires Owning(Both(b, parent, child, kroot), Both(m, parent, child, kroot), child, 4, 256, free)
    ensures var w := Both(m, parent, child, kroot); Agree(w, View(m, child, kroot), Pieces(w, child, 4, 512, true))
  {
    ParentHeld(b, parent, kroot, free);
    Finish(Both(b, parent, child, kroot), Both(m, parent, child, kroot), child, 4, 256, free);
    hide Mask, Tree, Piece, Apart, Pieces, Owned;
  }

  lemma SourceSide(m0: Memory, b: Memory, parent: nat, child: nat, kroot: nat, free: set<nat>)
    requires Forkable(m0, parent, kroot, free) && 0 < child < |m0| && child in free && b == m0[child := m0[kroot]]
    requires child != parent && child != kroot
    ensures Agree(Both(b, parent, child, kroot), View(m0, parent, kroot),
        Pieces(Both(b, parent, child, kroot), parent, 4, 512, true))
  {
    var v0, wb := View(m0, parent, kroot), Both(b, parent, child, kroot);
    assert Owned(v0, parent, 4, true) == {parent} + Pieces(v0, parent, 4, 512, true);
    assert child !in Space(m0, parent, kroot);
    hide Mask, Tree, Piece, Apart, Pieces, Owned;
    PiecesFrame(v0, wb, parent, 4, 512, true);
  }

  /** The high half of both views is absent. */
  lemma {:induction false} HighCopied(m0: Memory, m: Memory, src: nat, dst: nat, n: nat, k: nat)
    requires src < |m0| && dst < |m| && n <= k <= 512 && Copied(m0, m, src, dst, 4, n)
    requires forall i :: n <= i < k ==> m0[src][i] == ZERO && m[dst][i] == ZERO
    ensures Copied(m0, m, src, dst, 4, k)
    decreases k
  {
    if n >= k {
    } else {
      HighCopied(m0, m, src, dst, n, k - 1);
    }
  }

  /** The address-space part of sys_fork_impl (lines 157-239 and 273-276). Either the child is
      a copy of the parent in frames of its own, or the allocator is exactly as before: no
      frame is lost, at whatever point memory ran out. */
  method CloneAddressSpace(k: Machine, parent: nat, kroot: nat) returns (child: nat)
    requires k.Valid() && Forkable(k.mem[..], parent, kroot, FreeSet(k.Pool(), k.Base()))
    modifies k.mem, k.pmm.frames, k.pmm.zoneCursor, k.pmm.zoneFree
    ensures k.Valid()
    ensures child == 0 ==> k.Pool().frames == old(k.Pool()).frames && k.Pool().avail == old(k.Pool()).avail
    ensures child == 0 ==> OnlyIn(old(k.mem[..]), k.mem[..], old(FreeSet(k.Pool(), k.Base())))
    ensures child != 0 ==> IsClone(old(k.mem[..]), k.mem[..], parent, child, kroot, old(FreeSet(k.Pool(), k.Base())))
    ensures child != 0 ==> k.Pool().frames == ClaimAll(old(k.Pool()).frames, k.Base(), Space(k.mem[..], child, kroot))
  {
    hide Piece, Pieces, Apart, Owned, Tree, Copied, ClaimAll, FreeSet, Both, Mask, Roots, Owning, IsClone, Space,
      View, HeldOnce, FreeAll, ReleaseAll;
    ghost var m0, p0, base := k.mem[..], k.Pool(), k.Base();
    ghost var free := FreeSet(p0, base);
    child := NewRoot(k, kroot);
    if child == 0 { return; }
    ghost var b, p1 := k.mem[..], k.Pool();
    FreeAfter(p0, p1, base, {child});
    NothingReleased(p1.frames, base);
    StartRoots(m0, b, parent, child, kroot, free);
    KernelEntries(b, kroot, child, m0);
    var p4 := 0;
    var ok := true;
    ghost var n := 0;
    while p4 < 256
      invariant 0 <= p4 <= 256 && n == p4
      invariant TopProgress(k, b, p1, parent, child, kroot, p4) && TopCopied(b, k.mem[..], parent, child, kroot, p4)
    {
      ok := CloneRootEntry(k, parent, child, kroot, p4, b, p1);
      if !ok {
        n := if TopProgress(k, b, p1, parent, child, kroot, p4) then p4 else p4 + 1;
        break;
      }
      p4 := p4 + 1;
      n := p4;
    }
    ghost var m := k.mem[..];
    ChildSpace(b, m, parent, child, kroot, n, free - {child});
    ghost var s := Pieces(Both(m, parent, child, kroot), child, 4, n, true);
    ClaimMore(p0.frames, base, {child}, s);
    OwningFree(Both(b, parent, child, kroot), Both(m, parent, child, kroot), child, n, free - {child});
    assert {child} + s == Space(m, child, kroot);
    if ok {
      FinishedClone(m0, b, m, parent, child, kroot, free);
    } else {
      FreeRecords(p0, base, Space(m, child, kroot));
      ReleaseClaim(p0.frames, base, Space(m, child, kroot));
      FreeAddressSpace(k, child, kroot);
      SameCounters(p0, k.Pool());
      child := 0;
    }
  }

  lemma KernelEntries(b: Memory, kroot: nat, child: nat, m0: Memory)
    requires kroot < |m0| && child < |m0| && b == m0[child := m0[kroot]] && child != kroot
    ensures b[child] == b[kroot]
  {
  }

  lemma OwningFree(wb: Memory, w: Memory, child: nat, n: nat, free: set<nat>)
    requires Owning(wb, w, child, 4, n, free)
    ensures n <= 512 && child < |w| && Pieces(w, child, 4, n, true) <= free
  {
  }

  lemma FreeRecords(p: Pmm.Pool, base: nat, s: set<nat>)
    requires Pmm.Counted(p) && s <= FreeSet(p, base)
    ensures FreeAll(p.frames, base, s)
  {
    forall x | x in s
      ensures base <= x < base + |p.frames| && p.frames[x - base].refCount == 0
      ensures p.frames[x - base].free && !p.frames[x - base].locked
    {
      assert Pmm.FrameOk(p, x - base);
    }
  }

  /** The counters are a function of the frame records. */
  lemma SameCounters(p: Pmm.Pool, q: Pmm.Pool)
    requires Pmm.Counted(p) && Pmm.Counted(q) && p.frames == q.frames
    ensures p.avail == q.avail
  {
    assert p.avail == [p.avail[0], p.avail[1], p.avail[2]] && q.avail == [q.avail[0], q.avail[1], q.avail[2]];
  }

  // ----- what the copy means for addresses ----------------------------------------------------

  /** The copy's answer for an address, against the original's: both or neither; a huge
      mapping is the same one; a page has the same low twelve bits, no high bits, a frame
      of the copy's own, and the same content. */
  ghost predicate SameMapping(m0: Memory, m: Memory, r0: Option<Mapping>, r: Option<Mapping>, own: set<nat>) {
    match (r0, r)
    case (None, None) => true
    case (Some(a), Some(c)) =>
      && c.level == a.level
      && (a.level == 1 ==> && c.pte == Pte(a.pte.low, c.pte.frame, 0) && c.pte.frame in own
                           && a.pte.frame < |m0| && c.pte.frame < |m| && m[c.pte.frame] == m0[a.pte.frame])
      && (a.level != 1 ==> c.pte == a.pte)
    case _ => false
  }

  lemma {:induction false} CopyTranslates(m0: Memory, m: Memory, src: nat, dst: nat, L: nat, virt: nat)
    requires 1 <= L && src < |m0| && dst < |m| && Copied(m0, m, src, dst, L, 512)
    ensures SameMapping(m0, m, Lookup(m0, src, L, virt), Lookup(m, dst, L, virt), Pieces(m, dst, L, 512, true))
    decreases L
  {
    hide Ix, Lookup, Pieces, Copied;
    var i := Ix(virt, L);
    CopiedAt(m0, m, src, dst, L, 512, i);
    PieceIn(m, dst, L, i, 512, true);
    LookupStep(m0, src, L, virt);
    LookupStep(m, dst, L, virt);
    var e, c := m0[src][i], m[dst][i];
    if !Descends(e, L) {
    } else {
      assert Descends(c, L) && !Maps(e, L) && !Maps(c, L);
      CopyTranslates(m0, m, e.frame, c.frame, L - 1, virt);
      OwnedBelow(m, dst, L, i);
    }
  }

  lemma OwnedBelow(m: Memory, f: nat, L: nat, i: nat)
    requires f < |m| && i < 512 && Descends(m[f][i], L) && m[f][i].frame < |m|
    ensures Pieces(m, m[f][i].frame, L - 1, 512, true) <= Piece(m, f, L, i, true)
  {
  }

  lemma {:induction false} CopiedAt(m0: Memory, m: Memory, src: nat, dst: nat, L: nat, n: nat, i: nat)
    requires src < |m0| && dst < |m| && i < n <= 512 && Copied(m0, m, src, dst, L, n)
    ensures EntryCopied(m0, m, src, dst, L, i)
    decreases n
  {
    hide EntryCopied;
    if i >= n - 1 {
    } else {
      CopiedAt(m0, m, src, dst, L, n - 1, i);
    }
  }

  /** A walk that starts with a private entry is the same in the private view. */
  lemma PrivateWalk(m: Memory, root: nat, kroot: nat, virt: nat)
    requires 0 < root < |m| && kroot < |m| && Tree(View(m, root, kroot), root, 4, true)
    requires Ix(virt, 4) < 256 && m[root][Ix(virt, 4)] != m[kroot][Ix(virt, 4)]
    ensures Lookup(View(m, root, kroot), root, 4, virt) == Lookup(m, root, 4, virt)
  {
    var v, i := View(m, root, kroot), Ix(virt, 4);
    hide Ix;
    var e := m[root][i];
    assert v[root][i] == e;
    if Descends(e, 4) {
      BelowRoot(v, m, root, i);
      assert root !in Owned(v, e.frame, 3, true) by {
        PieceIn(v, root, 4, i, 512, true);
        assert Piece(v, root, 4, i, true) == Owned(v, e.frame, 3, true);
      }
      hide Owned, Tree, Mask;
      SubsetOwned(v, e.frame, 3);
      LookupFrame(v, m, e.frame, 3, virt);
    }
  }

  /** The tables alone are among the tables and pages. */
  lemma {:induction false} SubsetOwned(m: Memory, f: nat, L: nat)
    ensures Owned(m, f, L, false) <= Owned(m, f, L, true)
    decreases L, 2
  {
    if f < |m| { SubsetPieces(m, f, L, 512); }
  }

  lemma {:induction false} SubsetPieces(m: Memory, f: nat, L: nat, n: nat)
    requires f < |m| && n <= 512
    ensures Pieces(m, f, L, n, false) <= Pieces(m, f, L, n, true)
    decreases L, 1, n
  {
    if n == 0 {
    } else {
      SubsetPieces(m, f, L, n - 1);
      if Descends(m[f][n - 1], L) { SubsetOwned(m, m[f][n - 1].frame, L - 1); }
    }
  }

  /** A root entry that fork copies: present, and not the kernel's own. */
  predicate PrivateEntry(m: Memory, root: nat, kroot: nat, i: nat)
    requires root < |m| && kroot < |m| && i < 512
  {
    Present(m[root][i]) && m[root][i] != m[kroot][i]
  }

  /** After a successful fork every low-half address means in the child what it meant in the
      parent, page contents included, and each of its pages is the child's own. An address
      without a private entry in the parent means what it means to the kernel, whose tables,
      where it has any, are not free. */
  lemma CloneTranslates(m0: Memory, m: Memory, parent: nat, child: nat, kroot: nat, free: set<nat>, virt: nat)
    requires Forkable(m0, parent, kroot, free) && IsClone(m0, m, parent, child, kroot, free)
    requires Ix(virt, 4) < 256
    requires var i := Ix(virt, 4);
             !PrivateEntry(m0, parent, kroot, i) && Descends(m0[kroot][i], 4) ==>
               Owned(m0, m0[kroot][i].frame, 3, false) !! free
    ensures if PrivateEntry(m0, parent, kroot, Ix(virt, 4)) then
              SameMapping(m0, m, Lookup(m0, parent, 4, virt), Lookup(m, child, 4, virt), Space(m, child, kroot))
            else Lookup(m, child, 4, virt) == Lookup(m0, kroot, 4, virt)
  {
    var i := Ix(virt, 4);
    var v0, v := View(m0, parent, kroot), View(m, child, kroot);
    assert m[kroot] == m0[kroot];
    assert v0[parent][i] == if m0[parent][i] != m0[kroot][i] then m0[parent][i] else ZERO;
    assert v[child][i] == if m[child][i] != m[kroot][i] then m[child][i] else ZERO;
    CopiedAt(v0, v, parent, child, 4, 512, i);
    if PrivateEntry(m0, parent, kroot, i) {
      assert Present(v[child][i]);
      hide Ix, Mask, EntryCopied;
      PrivateWalk(m0, parent, kroot, virt);
      PrivateWalk(m, child, kroot, virt);
      CopyTranslates(v0, v, parent, child, 4, virt);
      ContentsAgree(m0, m, parent, child, kroot, free, virt);
    } else {
      assert m[child][i] == m0[kroot][i];
      hide Ix, Mask, EntryCopied;
      KernelWalk(m0, m, child, kroot, free, virt);
    }
  }

  lemma KernelWalk(m0: Memory, m: Memory, child: nat, kroot: nat, free: set<nat>, virt: nat)
    requires |m| == |m0| && child < |m| && kroot < |m| && m[child][Ix(virt, 4)] == m0[kroot][Ix(virt, 4)]
    requires OnlyIn(m0, m, free)
    requires var e := m0[kroot][Ix(virt, 4)]; Descends(e, 4) ==> Owned(m0, e.frame, 3, false) !! free
    ensures Lookup(m, child, 4, virt) == Lookup(m0, kroot, 4, virt)
  {
    var e := m0[kroot][Ix(virt, 4)];
    hide Ix, Owned;
    if Descends(e, 4) { LookupFrame(m0, m, e.frame, 3, virt); }
  }

  /** The pages compared are not root tables, so the views show their true contents. */
  lemma ContentsAgree(m0: Memory, m: Memory, parent: nat, child: nat, kroot: nat, free: set<nat>, virt: nat)
    requires Forkable(m0, parent, kroot, free) && IsClone(m0, m, parent, child, kroot, free)
    requires var v0, v := View(m0, parent, kroot), View(m, child, kroot);
             SameMapping(v0, v, Lookup(v0, parent, 4, virt), Lookup(v, child, 4, virt), Pieces(v, child, 4, 512, true))
    ensures var v0, v := View(m0, parent, kroot), View(m, child, kroot);
            SameMapping(m0, m, Lookup(v0, parent, 4, virt), Lookup(v, child, 4, virt), Space(m, child, kroot))
  {
    var v0, v := View(m0, parent, kroot), View(m, child, kroot);
    assert Owned(v, child, 4, true) == {child} + Pieces(v, child, 4, 512, true);
    assert child !in Pieces(v, child, 4, 512, true);
    PageInPieces(v0, parent, 4, virt);
    assert parent !in Pieces(v0, parent, 4, 512, true);
    hide Lookup, Ix, Mask, Pieces, Owned, Apart, Copied;
  }

  /** A page the walk ends in is among the frames below the table. */
  lemma {:induction false} PageInPieces(m: Memory, t: nat, L: nat, virt: nat)
    requires L >= 1 && t < |m|
    ensures var r := Lookup(m, t, L, virt); r.Some? && r.value.level == 1 ==>
        r.value.pte.frame in Pieces(m, t, L, 512, true)
    decreases L
  {
    var i := Ix(virt, L);
    hide Ix;
    var e := m[t][i];
    PieceIn(m, t, L, i, 512, true);
    if !Descends(e, L) || e.frame >= |m| {
    } else {
      PageInPieces(m, e.frame, L - 1, virt);
      assert Piece(m, t, L, i, true) == {e.frame} + Pieces(m, e.frame, L - 1, 512, true);
    }
  }

  /** sys_waitpid_impl on an unchanged clone: forking and reaping leaves every frame record
      and every zone counter as it was. */
  method ForkAndReap(k: Machine, parent: nat, kroot: nat) returns (child: nat)
    requires k.Valid() && Forkable(k.mem[..], parent, kroot, FreeSet(k.Pool(), k.Base()))
    modifies k.mem, k.pmm.frames, k.pmm.zoneCursor, k.pmm.zoneFree
    ensures k.Valid() && k.Pool().frames == old(k.Pool()).frames && k.Pool().avail == old(k.Pool()).avail
    ensures OnlyIn(old(k.mem[..]), k.mem[..], old(FreeSet(k.Pool(), k.Base())))
  {
    ghost var p0, base := k.Pool(), k.Base();
    child := CloneAddressSpace(k, parent, kroot);
    if child != 0 {
      hide Copied, Tree, Owned, ClaimAll, ReleaseAll, FreeAll, HeldOnce, FreeSet;
      FreeRecords(p0, base, Space(k.mem[..], child, kroot));
      ReleaseClaim(p0.frames, base, Space(k.mem[..], child, kroot));
      FreeAddressSpace(k, child, kroot);
      SameCounters(p0, k.Pool());
    }
  }
}
