/** The kernel heap (kernel/mm/kmalloc.c): a list of block headers laid out in the heap
    itself, split on allocation and merged on release. */
module Kmalloc {

  const HEADER_SIZE: nat := 32
  const MIN_ALLOC: nat := 16
  const HEAP_MAGIC: nat := 0xE7F00D1DEADBEEF

  /** block_header_t; next is an address, 0 for NULL. */
  datatype Header = Header(magic: nat, size: nat, free: bool, next: nat)

  /** A block as the specification sees it. */
  datatype Block = Block(addr: nat, size: nat, free: bool)

  // ----- the layout -----------------------------------------------------------------------

  function End(b: Block): nat {
    b.addr + HEADER_SIZE + b.size
  }

  /** The blocks fill lo..hi without gap or overlap, in sizes that are positive multiples of 16. */
  predicate Tiles(bs: seq<Block>, lo: nat, hi: nat) {
    if bs == [] then lo == hi
    else bs[0].addr == lo && bs[0].size > 0 && bs[0].size % 16 == 0 && Tiles(bs[1..], End(bs[0]), hi)
  }

  /** No two neighbours are both free. */
  predicate Merged(bs: seq<Block>) {
    forall i :: 0 <= i < |bs| - 1 ==> !(bs[i].free && bs[i + 1].free)
  }

  /** The pointers handed out and not yet freed, with their block sizes. */
  function Live(bs: seq<Block>): map<nat, nat> {
    if bs == [] then map[]
    else
      var rest := Live(bs[1..]);
      if bs[0].free then rest else rest[bs[0].addr + HEADER_SIZE := bs[0].size]
  }

  /** The heap invariant. */
  predicate Good(bs: seq<Block>, lo: nat, hi: nat) {
    bs != [] && lo <= hi && Tiles(bs, lo, hi) && Merged(bs)
  }

  // ----- allocation on lists -----------------------------------------------------------------

  function AlignUp(size: nat): (r: nat)
    ensures r % 16 == 0 && size <= r < size + 16
  {
    (size + 15) / 16 * 16
  }

  predicate Fits(b: Block, size: nat) {
    b.free && b.size >= size
  }

  /** The index of the first free block of at least `size`, or the list's length. */
  function FirstFit(bs: seq<Block>, size: nat): (i: nat)
    ensures i <= |bs|
    ensures i < |bs| ==> Fits(bs[i], size)
    ensures forall j :: 0 <= j < i ==> !Fits(bs[j], size)
  {
    if bs == [] then 0 else if Fits(bs[0], size) then 0 else 1 + FirstFit(bs[1..], size)
  }

  /** Block i given out, split when the rest can hold a header and a minimal payload. */
  function Give(bs: seq<Block>, i: nat, size: nat): seq<Block>
    requires i < |bs| && size <= bs[i].size
  {
    var b := bs[i];
    var remaining := b.size - size;
    if remaining >= HEADER_SIZE + MIN_ALLOC then
      var rest := Block(b.addr + HEADER_SIZE + size, remaining - HEADER_SIZE, true);
      bs[..i] + [Block(b.addr, size, false), rest] + bs[i + 1..]
    else bs[i := b.(free := false)]
  }

  // ----- release on lists ----------------------------------------------------------------------

  /** Join two neighbours. */
  function Join(a: Block, b: Block): Block {
    a.(size := a.size + HEADER_SIZE + b.size)
  }

  /** One scan that merges every run of free blocks. */
  function Coalesce(bs: seq<Block>): (r: seq<Block>)
    ensures |r| <= |bs| && (bs != [] ==> r != [] && r[0].addr == bs[0].addr && r[0].free == bs[0].free)
    decreases |bs|
  {
    if |bs| < 2 then bs
    else if bs[0].free && bs[1].free then Coalesce([Join(bs[0], bs[1])] + bs[2..])
    else [bs[0]] + Coalesce(bs[1..])
  }

  /** Mark block i free and merge. */
  function Release(bs: seq<Block>, i: nat): seq<Block>
    requires i < |bs|
  {
    Coalesce(bs[i := bs[i].(free := true)])
  }

  // ----- facts -----------------------------------------------------------------------------------

  lemma {:induction false} TilesConcat(a: seq<Block>, b: seq<Block>, lo: nat, mid: nat, hi: nat)
    requires Tiles(a, lo, mid) && Tiles(b, mid, hi)
    ensures Tiles(a + b, lo, hi)
  {
    if a == [] {
      assert a + b == b;
    } else {
      assert (a + b)[1..] == a[1..] + b;
      TilesConcat(a[1..], b, End(a[0]), mid, hi);
    }
  }

  /** A tiling splits at any block. */
  lemma {:induction false} TilesSplit(bs: seq<Block>, lo: nat, hi: nat, i: nat)
    requires Tiles(bs, lo, hi) && i < |bs|
    ensures Tiles(bs[..i], lo, bs[i].addr) && Tiles(bs[i + 1..], End(bs[i]), hi)
    ensures lo <= bs[i].addr && End(bs[i]) <= hi && bs[i].size > 0 && bs[i].size % 16 == 0
  {
    if i == 0 {
      TilesGrow(bs[1..], End(bs[0]), hi);
    } else {
      TilesSplit(bs[1..], End(bs[0]), hi, i - 1);
      assert bs[..i][1..] == bs[1..][..i - 1] && bs[i + 1..] == bs[1..][i..];
    }
  }

  lemma {:induction false} TilesGrow(bs: seq<Block>, lo: nat, hi: nat)
    requires Tiles(bs, lo, hi)
    ensures lo <= hi
  {
    if bs == [] {
    } else {
      TilesGrow(bs[1..], End(bs[0]), hi);
    }
  }

  /** Payloads of different blocks are disjoint, and all lie inside the heap. */
  lemma Disjoint(bs: seq<Block>, lo: nat, hi: nat, i: nat, j: nat)
    requires Tiles(bs, lo, hi) && i < j < |bs|
    ensures lo <= bs[i].addr && End(bs[i]) <= bs[j].addr && End(bs[j]) <= hi
  {
    TilesSplit(bs, lo, hi, i);
    TilesSplit(bs[i + 1..], End(bs[i]), hi, j - i - 1);
  }

  /** If everything is free the heap is one block again. */
  lemma AllFree(bs: seq<Block>, lo: nat, hi: nat)
    requires Good(bs, lo, hi) && Live(bs) == map[]
    ensures hi >= lo + HEADER_SIZE && bs == [Block(lo, hi - lo - HEADER_SIZE, true)]
  {
    EmptyLive(bs);
    assert |bs| == 1;
    assert Tiles(bs[1..], End(bs[0]), hi);
  }

  lemma {:induction false} EmptyLive(bs: seq<Block>)
    requires Live(bs) == map[]
    ensures forall i :: 0 <= i < |bs| ==> bs[i].free
  {
    if bs == [] {
    } else {
      assert bs[0].addr + HEADER_SIZE !in Live(bs);
      EmptyLive(bs[1..]);
    }
  }

  lemma {:induction false} LiveConcat(a: seq<Block>, b: seq<Block>, lo: nat, mid: nat, hi: nat)
    requires Tiles(a, lo, mid) && Tiles(b, mid, hi)
    ensures Live(a + b) == Live(a) + Live(b)
    ensures forall p :: p in Live(a) ==> lo < p < mid
    ensures forall p :: p in Live(b) ==> mid < p < hi
  {
    LiveRange(a, lo, mid); LiveRange(b, mid, hi);
    if a == [] {
      assert a + b == b;
    } else {
      assert (a + b)[1..] == a[1..] + b;
      TilesGrow(a[1..], End(a[0]), mid);
      LiveConcat(a[1..], b, End(a[0]), mid, hi);
    }
  }

  lemma {:induction false} LiveRange(bs: seq<Block>, lo: nat, hi: nat)
    requires Tiles(bs, lo, hi)
    ensures forall p :: p in Live(bs) ==> lo < p < hi
  {
    if bs == [] {
    } else {
      TilesGrow(bs[1..], End(bs[0]), hi);
      LiveRange(bs[1..], End(bs[0]), hi);
    }
  }

  // ----- allocation and release as updates of the live map ------------------------------------

  /** What block b becomes when `size` bytes of it are given out. */
  function Middle(b: Block, size: nat): seq<Block>
    requires size <= b.size
  {
    if b.size - size >= HEADER_SIZE + MIN_ALLOC
    then [Block(b.addr, size, false), Block(b.addr + HEADER_SIZE + size, b.size - size - HEADER_SIZE, true)]
    else [b.(free := false)]
  }

  /** The size of the block handed out: exactly what was asked for, or the whole block. */
  function Granted(b: Block, size: nat): (r: nat)
    requires size <= b.size
    ensures size <= r
  {
    if b.size - size >= HEADER_SIZE + MIN_ALLOC then size else b.size
  }

  lemma GiveParts(bs: seq<Block>, i: nat, size: nat)
    requires i < |bs| && size <= bs[i].size
    ensures bs == bs[..i] + [bs[i]] + bs[i + 1..]
    ensures Give(bs, i, size) == bs[..i] + Middle(bs[i], size) + bs[i + 1..]
  {
  }

  /** Giving out a block adds one live pointer and touches no other. */
  lemma GiveGood(bs: seq<Block>, lo: nat, hi: nat, i: nat, size: nat)
    requires Good(bs, lo, hi) && i < |bs| && Fits(bs[i], size) && size > 0 && size % 16 == 0
    ensures Good(Give(bs, i, size), lo, hi)
    ensures var p := bs[i].addr + HEADER_SIZE; var n := Granted(bs[i], size);
            p !in Live(bs) && n < size + HEADER_SIZE + MIN_ALLOC && Live(Give(bs, i, size)) == Live(bs)[p := n]
  {
    hide Tiles, Live, Give, Middle, Merged;
    var b := bs[i];
    TilesSplit(bs, lo, hi, i);
    MidTiles(b, size);
    GiveParts(bs, i, size);
    GiveMerged(bs, i, size);
    Sandwich(bs[..i], [b], bs[i + 1..], lo, b.addr, End(b), hi);
    Sandwich(bs[..i], Middle(b, size), bs[i + 1..], lo, b.addr, End(b), hi);
    assert Give(bs, i, size) != [];
  }

  lemma GiveMerged(bs: seq<Block>, i: nat, size: nat)
    requires Merged(bs) && i < |bs| && Fits(bs[i], size)
    ensures Merged(Give(bs, i, size)) && Give(bs, i, size) != []
  {
    var r := Give(bs, i, size);
    forall k | 0 <= k < |r| - 1 ensures !(r[k].free && r[k + 1].free) {
      if k + 1 < i {
        assert !(bs[k].free && bs[k + 1].free);
      } else if k > i {
        var m := k + |bs| - |r|;
        assert r[k] == bs[m] || k == i + 1;
        assert !(bs[m].free && bs[m + 1].free);
      }
    }
  }

  lemma MidTiles(b: Block, size: nat)
    requires Fits(b, size) && size > 0 && size % 16 == 0 && b.size % 16 == 0
    ensures Tiles([b], b.addr, End(b)) && Live([b]) == map[]
    ensures Tiles(Middle(b, size), b.addr, End(b)) && Middle(b, size) != []
    ensures Granted(b, size) < size + HEADER_SIZE + MIN_ALLOC
    ensures Live(Middle(b, size)) == map[b.addr + HEADER_SIZE := Granted(b, size)]
  {
    hide Live, Tiles;
    OneBlock(b);
    if b.size - size >= HEADER_SIZE + MIN_ALLOC {
      TwoBlocks(Block(b.addr, size, false), Block(b.addr + HEADER_SIZE + size, b.size - size - HEADER_SIZE, true));
    } else {
      OneBlock(b.(free := false));
    }
  }

  lemma TwoBlocks(c: Block, d: Block)
    requires c.size > 0 && c.size % 16 == 0 && d.size > 0 && d.size % 16 == 0 && !c.free && d.free && End(c) == d.addr
    ensures Tiles([c, d], c.addr, End(d)) && Live([c, d]) == map[c.addr + HEADER_SIZE := c.size]
  {
    OneBlock(d);
    assert [c, d][1..] == [d];
  }

  lemma OneBlock(b: Block)
    requires b.size > 0 && b.size % 16 == 0
    ensures Tiles([b], b.addr, End(b))
    ensures Live([b]) == if b.free then map[] else map[b.addr + HEADER_SIZE := b.size]
  {
    assert [b][1..] == [];
    assert Tiles([b][1..], End(b), End(b));
  }

  /** The live map of a list in three parts. */
  lemma Sandwich(a: seq<Block>, m: seq<Block>, c: seq<Block>, lo: nat, p: nat, q: nat, hi: nat)
    requires Tiles(a, lo, p) && Tiles(m, p, q) && Tiles(c, q, hi)
    ensures Live(a + m + c) == Live(a) + Live(m) + Live(c) && Tiles(a + m + c, lo, hi)
    ensures forall x :: x in Live(a) ==> x < p
    ensures forall x :: x in Live(c) ==> q < x
  {
    TilesConcat(a, m, lo, p, q); TilesConcat(a + m, c, lo, q, hi);
    LiveConcat(a, m, lo, p, q); LiveConcat(a + m, c, lo, q, hi);
  }

  /** Merging keeps the tiling and the live map, and leaves no two free neighbours. */
  lemma {:induction false} CoalesceGood(bs: seq<Block>, lo: nat, hi: nat)
    requires Tiles(bs, lo, hi)
    ensures Tiles(Coalesce(bs), lo, hi) && Live(Coalesce(bs)) == Live(bs) && Merged(Coalesce(bs))
    decreases |bs|
  {
    if |bs| < 2 {
    } else if bs[0].free && bs[1].free {
      var cs := [Join(bs[0], bs[1])] + bs[2..];
      assert cs[1..] == bs[2..] && bs[1..][1..] == bs[2..];
      CoalesceGood(cs, lo, hi);
    } else {
      CoalesceGood(bs[1..], End(bs[0]), hi);
      var r := Coalesce(bs[1..]);
      assert ([bs[0]] + r)[1..] == r;
      forall k | 0 <= k < |r| ensures !([bs[0]] + r)[k].free || !([bs[0]] + r)[k + 1].free {
        if k > 0 { assert !(r[k - 1].free && r[k].free); }
      }
    }
  }

  /** Releasing a live block removes its pointer and touches no other. */
  lemma ReleaseGood(bs: seq<Block>, lo: nat, hi: nat, i: nat)
    requires Good(bs, lo, hi) && i < |bs| && !bs[i].free
    ensures Good(Release(bs, i), lo, hi)
    ensures var p := bs[i].addr + HEADER_SIZE; p in Live(bs) && Live(Release(bs, i)) == Live(bs) - {p}
  {
    hide Coalesce, Live, Tiles, Merged;
    var b := bs[i];
    var f := b.(free := true);
    TilesSplit(bs, lo, hi, i);
    OneBlock(b); OneBlock(f);
    assert bs == bs[..i] + [b] + bs[i + 1..] && bs[i := f] == bs[..i] + [f] + bs[i + 1..];
    Sandwich(bs[..i], [b], bs[i + 1..], lo, b.addr, End(b), hi);
    Sandwich(bs[..i], [f], bs[i + 1..], lo, b.addr, End(b), hi);
    CoalesceGood(bs[i := f], lo, hi);
  }

  // ----- freeing undoes allocating ---------------------------------------------------------------

  lemma {:induction false} CoalesceMerged(bs: seq<Block>)
    requires Merged(bs)
    ensures Coalesce(bs) == bs
    decreases |bs|
  {
    if |bs| < 2 {
    } else {
      assert !(bs[0].free && bs[1].free);
      CoalesceMerged(bs[1..]);
    }
  }

  /** Two free blocks in an otherwise merged list are joined in place. */
  lemma {:induction false} CoalescePair(pre: seq<Block>, a: Block, b: Block, post: seq<Block>)
    requires a.free && b.free && Merged(pre + [Join(a, b)] + post)
    ensures Coalesce(pre + [a, b] + post) == pre + [Join(a, b)] + post
    decreases |pre|
  {
    var l, m := pre + [a, b] + post, pre + [Join(a, b)] + post;
    if pre == [] {
      assert [Join(a, b)] + l[2..] == m;
      CoalesceMerged(m);
    } else {
      assert m[1..] == pre[1..] + [Join(a, b)] + post && l[1..] == pre[1..] + [a, b] + post;
      assert !(m[0].free && m[1].free);
      assert Merged(m[1..]);
      CoalescePair(pre[1..], a, b, post);
      assert l[1].free == m[1].free;
      assert m == [m[0]] + m[1..];
    }
  }

  /** Releasing the block just given out restores the list, header for header. */
  lemma ReleaseUndoesGive(bs: seq<Block>, i: nat, size: nat)
    requires Merged(bs) && i < |bs| && Fits(bs[i], size)
    ensures i < |Give(bs, i, size)| && Release(Give(bs, i, size), i) == bs
  {
    hide Coalesce, Merged;
    GiveParts(bs, i, size);
    var b, g := bs[i], Give(bs, i, size);
    if b.size - size >= HEADER_SIZE + MIN_ALLOC {
      var c, d := Block(b.addr, size, true), Block(b.addr + HEADER_SIZE + size, b.size - size - HEADER_SIZE, true);
      assert g[i := g[i].(free := true)] == bs[..i] + [c, d] + bs[i + 1..];
      assert Join(c, d) == b;
      CoalescePair(bs[..i], c, d, bs[i + 1..]);
    } else {
      assert g[i := g[i].(free := true)] == bs;
      CoalesceMerged(bs);
    }
  }

  // ----- runs ------------------------------------------------------------------------------------

  datatype Call = Alloc(size: nat) | Free(ptr: nat)

  /** The block whose payload starts at p, or the list's length. */
  function Find(bs: seq<Block>, p: nat): (i: nat)
    ensures i <= |bs| && (i < |bs| ==> bs[i].addr + HEADER_SIZE == p)
    ensures forall j :: 0 <= j < i ==> bs[j].addr + HEADER_SIZE != p
  {
    if bs == [] then 0 else if bs[0].addr + HEADER_SIZE == p then 0 else 1 + Find(bs[1..], p)
  }

  /** The list after kmalloc(size), and the pointer returned (0 for NULL). */
  function Allocate(bs: seq<Block>, heapSize: nat, size: nat): (seq<Block>, nat) {
    if size == 0 || size > heapSize then (bs, 0)
    else
      var i := FirstFit(bs, AlignUp(size));
      if i == |bs| then (bs, 0) else (Give(bs, i, AlignUp(size)), bs[i].addr + HEADER_SIZE)
  }

  /** The list after kfree(p). */
  function Deallocate(bs: seq<Block>, p: nat): seq<Block> {
    var i := Find(bs, p);
    if i < |bs| && !bs[i].free then Release(bs, i) else bs
  }

  /** kmalloc fails only when no free block is large enough; a pointer it returns is new, inside
      the heap, aligned like the heap, and apart from every payload in use, which is unchanged. */
  lemma AllocateIsFresh(bs: seq<Block>, lo: nat, hi: nat, size: nat)
    requires Good(bs, lo, hi)
    ensures var (r, p) := Allocate(bs, hi - lo, size);
            && Good(r, lo, hi)
            && (p == 0 <==> size == 0 || forall j :: 0 <= j < |bs| ==> !Fits(bs[j], AlignUp(size)))
            && (p == 0 ==> r == bs)
            && (p != 0 ==> p !in Live(bs) && p in Live(r) && Live(r) == Live(bs)[p := Live(r)[p]]
                           && size <= Live(r)[p] < size + 63 && Apart(Live(r), lo, hi))
  {
    hide Tiles, Live, Give, Merged;
    var (r, p) := Allocate(bs, hi - lo, size);
    if size > hi - lo {
      forall j | 0 <= j < |bs| ensures !Fits(bs[j], AlignUp(size)) { TilesSplit(bs, lo, hi, j); }
    } else if p != 0 {
      var i := FirstFit(bs, AlignUp(size));
      GiveGood(bs, lo, hi, i, AlignUp(size));
      LiveApart(r, lo, hi);
    }
  }

  /** Every live payload is inside the heap, aligned like it, and disjoint from the others. */
  ghost predicate Apart(live: map<nat, nat>, lo: nat, hi: nat) {
    && (forall p :: p in live ==> lo + HEADER_SIZE <= p && p + live[p] <= hi && (p - lo) % 16 == 0)
    && (forall p, q :: p in live && q in live && p < q ==> p + live[p] + HEADER_SIZE <= q)
  }

  lemma {:induction false} LiveApart(bs: seq<Block>, lo: nat, hi: nat)
    requires Tiles(bs, lo, hi)
    ensures Apart(Live(bs), lo, hi)
  {
    if bs == [] {
    } else {
      var mid := End(bs[0]);
      LiveApart(bs[1..], mid, hi);
      TilesGrow(bs[1..], mid, hi);
      ApartCons(Live(bs[1..]), bs[0], hi);
    }
  }

  lemma Aligned(x: int, y: int)
    requires x % 16 == 0 && y % 16 == 0
    ensures (x + y) % 16 == 0
  {
  }

  lemma ApartCons(rest: map<nat, nat>, b: Block, hi: nat)
    requires Apart(rest, End(b), hi) && End(b) <= hi && b.size % 16 == 0
    ensures Apart(rest, b.addr, hi) && Apart(rest[b.addr + HEADER_SIZE := b.size], b.addr, hi)
  {
    forall p | p in rest ensures (p - b.addr) % 16 == 0 {
      Aligned(p - End(b), HEADER_SIZE + b.size);
    }
  }

  /** kfree removes exactly its own pointer, and does nothing for any other value. */
  lemma DeallocateIsRemoval(bs: seq<Block>, lo: nat, hi: nat, p: nat)
    requires Good(bs, lo, hi)
    ensures Good(Deallocate(bs, p), lo, hi) && Live(Deallocate(bs, p)) == Live(bs) - {p}
    ensures p !in Live(bs) ==> Deallocate(bs, p) == bs
  {
    hide Tiles, Live, Release, Merged;
    var i := Find(bs, p);
    if i < |bs| && !bs[i].free {
      ReleaseGood(bs, lo, hi, i);
    } else {
      FindLive(bs, lo, hi, p);
      assert Live(bs) - {p} == Live(bs);
    }
  }

  lemma {:induction false} FindLive(bs: seq<Block>, lo: nat, hi: nat, p: nat)
    requires Tiles(bs, lo, hi)
    ensures p in Live(bs) <==> Find(bs, p) < |bs| && !bs[Find(bs, p)].free
  {
    if bs == [] {
    } else {
      LiveRange(bs[1..], End(bs[0]), hi);
      FindLive(bs[1..], End(bs[0]), hi, p);
    }
  }

  /** kmalloc followed by kfree of its result leaves the heap exactly as it was. */
  lemma FreeUndoesAlloc(bs: seq<Block>, lo: nat, hi: nat, size: nat)
    requires Good(bs, lo, hi)
    ensures var (r, p) := Allocate(bs, hi - lo, size); p != 0 ==> Deallocate(r, p) == bs
  {
    hide Tiles, Live, Release, Merged;
    var (r, p) := Allocate(bs, hi - lo, size);
    if p != 0 {
      var i := FirstFit(bs, AlignUp(size));
      GiveParts(bs, i, AlignUp(size));
      ReleaseUndoesGive(bs, i, AlignUp(size));
      forall j | 0 <= j < i ensures r[j].addr + HEADER_SIZE != p {
        Disjoint(bs, lo, hi, j, i);
        assert r[j] == bs[j];
      }
      var f := Find(r, p);
      assert r[i].addr + HEADER_SIZE == p && !r[i].free;
      assert !(f < i) && !(f > i);
    }
  }

  function After(bs: seq<Block>, heapSize: nat, calls: seq<Call>): seq<Block>
    decreases |calls|
  {
    if calls == [] then bs
    else match calls[0]
      case Alloc(size) => After(Allocate(bs, heapSize, size).0, heapSize, calls[1..])
      case Free(ptr) => After(Deallocate(bs, ptr), heapSize, calls[1..])
  }

  /** After any calls at all the heap is whole: blocks tile it, no two free ones adjoin, live
      payloads are apart, and with nothing live it is the single block it started as. */
  lemma {:induction false} RunKeeps(bs: seq<Block>, lo: nat, hi: nat, calls: seq<Call>)
    requires Good(bs, lo, hi)
    ensures Good(After(bs, hi - lo, calls), lo, hi) && Apart(Live(After(bs, hi - lo, calls)), lo, hi)
    ensures Live(After(bs, hi - lo, calls)) == map[] ==>
              hi >= lo + HEADER_SIZE && After(bs, hi - lo, calls) == [Block(lo, hi - lo - HEADER_SIZE, true)]
    decreases |calls|
  {
    hide Tiles, Live, Allocate, Deallocate, Merged, Apart;
    if calls == [] {
      LiveApart(bs, lo, hi);
      if Live(bs) == map[] { AllFree(bs, lo, hi); }
    } else {
      match calls[0]
      case Alloc(size) =>
        AllocateIsFresh(bs, lo, hi, size);
        RunKeeps(Allocate(bs, hi - lo, size).0, lo, hi, calls[1..]);
      case Free(ptr) =>
        DeallocateIsRemoval(bs, lo, hi, ptr);
        RunKeeps(Deallocate(bs, ptr), lo, hi, calls[1..]);
    }
  }

  // ----- the headers in memory -------------------------------------------------------------------

  function Next(bs: seq<Block>, i: nat): nat {
    if i < |bs| then bs[i].addr else 0
  }

  /** The header of every block is in memory and leads to the next one. */
  ghost predicate Chained(hdrs: map<nat, Header>, bs: seq<Block>) {
    forall i {:trigger bs[i]} :: 0 <= i < |bs| ==>
      bs[i].addr in hdrs && hdrs[bs[i].addr] == Header(HEAP_MAGIC, bs[i].size, bs[i].free, Next(bs, i + 1))
  }

  /** A header image that no longer belongs to a block still says free. */
  ghost predicate Stale(hdrs: map<nat, Header>, live: map<nat, nat>) {
    forall a :: a in hdrs && !hdrs[a].free ==> a + HEADER_SIZE in live
  }

  /** Memory without the header images that touch lo..hi. */
  function Overwrite(hdrs: map<nat, Header>, lo: nat, hi: nat): map<nat, Header> {
    map a | a in hdrs && (a + HEADER_SIZE <= lo || a >= hi) :: hdrs[a]
  }

  /** Where the bytes written or handed out by an allocation end. */
  function Top(b: Block, size: nat): nat
    requires size <= b.size
  {
    if b.size - size >= HEADER_SIZE + MIN_ALLOC then b.addr + HEADER_SIZE + size + HEADER_SIZE else End(b)
  }

  /** The headers after block b has been given out. */
  function Rewritten(hdrs: map<nat, Header>, b: Block, size: nat, next: nat): map<nat, Header>
    requires size <= b.size
  {
    var rest := Overwrite(hdrs, b.addr, Top(b, size));
    if b.size - size >= HEADER_SIZE + MIN_ALLOC then
      var split := b.addr + HEADER_SIZE + size;
      rest[split := Header(HEAP_MAGIC, b.size - size - HEADER_SIZE, true, next)]
          [b.addr := Header(HEAP_MAGIC, size, false, split)]
    else rest[b.addr := Header(HEAP_MAGIC, b.size, false, next)]
  }

  lemma GiveChained(hdrs: map<nat, Header>, bs: seq<Block>, lo: nat, hi: nat, k: nat, size: nat)
    requires Tiles(bs, lo, hi) && Chained(hdrs, bs) && k < |bs| && size <= bs[k].size
    ensures Chained(Rewritten(hdrs, bs[k], size, Next(bs, k + 1)), Give(bs, k, size))
  {
    hide Tiles, Chained;
    var b, g := bs[k], Give(bs, k, size);
    var r := Rewritten(hdrs, b, size, Next(bs, k + 1));
    forall i | 0 <= i < |g|
      ensures g[i].addr in r && r[g[i].addr] == Header(HEAP_MAGIC, g[i].size, g[i].free, Next(g, i + 1))
    {
      if i < k {
        Disjoint(bs, lo, hi, i, k);
        ChainedAt(hdrs, bs, i);
      } else if i > k && !(i == k + 1 && |g| > |bs|) {
        var j := i + |bs| - |g|;
        Disjoint(bs, lo, hi, k, j);
        ChainedAt(hdrs, bs, j);
        assert g[i] == bs[j] && Next(g, i + 1) == Next(bs, j + 1);
      }
    }
    ChainedAll(r, g);
  }

  lemma ChainedAt(hdrs: map<nat, Header>, bs: seq<Block>, i: nat)
    requires Chained(hdrs, bs) && i < |bs|
    ensures bs[i].addr in hdrs && hdrs[bs[i].addr] == Header(HEAP_MAGIC, bs[i].size, bs[i].free, Next(bs, i + 1))
  {
  }

  lemma ChainedAll(hdrs: map<nat, Header>, bs: seq<Block>)
    requires forall i :: 0 <= i < |bs| ==>
      bs[i].addr in hdrs && hdrs[bs[i].addr] == Header(HEAP_MAGIC, bs[i].size, bs[i].free, Next(bs, i + 1))
    ensures Chained(hdrs, bs)
  {
  }

  lemma JoinChained(hdrs: map<nat, Header>, bs: seq<Block>, lo: nat, hi: nat, k: nat)
    requires Tiles(bs, lo, hi) && Chained(hdrs, bs) && k + 1 < |bs|
    ensures var b := Join(bs[k], bs[k + 1]); var r := bs[..k] + [b] + bs[k + 2..];
            && Tiles(r, lo, hi)
            && Chained(hdrs[b.addr := Header(HEAP_MAGIC, b.size, b.free, Next(bs, k + 2))], r)
  {
    hide Tiles, Chained;
    var b := Join(bs[k], bs[k + 1]);
    var r := bs[..k] + [b] + bs[k + 2..];
    JoinTiles(bs, lo, hi, k);
    var h := hdrs[b.addr := Header(HEAP_MAGIC, b.size, b.free, Next(bs, k + 2))];
    forall i | 0 <= i < |r|
      ensures r[i].addr in h && h[r[i].addr] == Header(HEAP_MAGIC, r[i].size, r[i].free, Next(r, i + 1))
    {
      if i < k {
        Disjoint(bs, lo, hi, i, k);
        ChainedAt(hdrs, bs, i);
      } else if i > k {
        Disjoint(bs, lo, hi, k, i + 1);
        ChainedAt(hdrs, bs, i + 1);
      }
    }
    ChainedAll(h, r);
  }

  lemma JoinTiles(bs: seq<Block>, lo: nat, hi: nat, k: nat)
    requires Tiles(bs, lo, hi) && k + 1 < |bs|
    ensures Tiles(bs[..k] + [Join(bs[k], bs[k + 1])] + bs[k + 2..], lo, hi)
  {
    hide Tiles;
    var b := Join(bs[k], bs[k + 1]);
    TilesSplit(bs, lo, hi, k);
    TilesSplit(bs, lo, hi, k + 1);
    Adjoin(bs[k + 1..], End(bs[k]), hi);
    OneBlock(b);
    assert End(b) == End(bs[k + 1]) && bs[k + 1 + 1..] == bs[k + 2..];
    TilesConcat(bs[..k], [b], lo, b.addr, End(b));
    TilesConcat(bs[..k] + [b], bs[k + 2..], lo, End(b), hi);
  }

  lemma Adjoin(bs: seq<Block>, lo: nat, hi: nat)
    requires Tiles(bs, lo, hi) && bs != []
    ensures bs[0].addr == lo
  {
  }

  /** g_heap_head, g_heap_start, g_heap_end and the header images in the heap. */
  class Heap {
    const start: nat
    const end: nat
    var head: nat
    var hdrs: map<nat, Header>
    ghost var blocks: seq<Block>

    ghost predicate Valid()
      reads this
    {
      && 0 < start && start % 16 == 0 && end < 0x1_0000_0000_0000_0000 && head == start
      && Good(blocks, start, end) && Chained(hdrs, blocks) && Stale(hdrs, Live(blocks))
    }

    /** kmalloc_init. */
    constructor (heapStart: nat, heapSize: nat)
      requires 0 < heapStart && heapStart % 16 == 0 && heapStart + heapSize < 0x1_0000_0000_0000_0000
      requires heapSize > HEADER_SIZE && heapSize % 16 == 0
      ensures Valid() && start == heapStart && end == heapStart + heapSize
      ensures blocks == [Block(heapStart, heapSize - HEADER_SIZE, true)] && Live(blocks) == map[]
    {
      start, end, head := heapStart, heapStart + heapSize, heapStart;
      hdrs := map[heapStart := Header(HEAP_MAGIC, heapSize - HEADER_SIZE, true, 0)];
      blocks := [Block(heapStart, heapSize - HEADER_SIZE, true)];
      new;
      OneBlock(blocks[0]);
    }

    predicate InHeap(p: int) {
      start <= p < end
    }

    predicate ValidHdr(h: nat)
      reads this
    {
      h != 0 && InHeap(h) && h in hdrs && hdrs[h].magic == HEAP_MAGIC && hdrs[h].size > 0
    }

    /** The header of block k passes every test of the scans. */
    lemma BlockIsValid(k: nat)
      requires Valid() && k < |blocks|
      ensures ValidHdr(blocks[k].addr) && End(blocks[k]) <= end
      ensures hdrs[blocks[k].addr] == Header(HEAP_MAGIC, blocks[k].size, blocks[k].free, Next(blocks, k + 1))
    {
      TilesSplit(blocks, start, end, k);
      ChainedAt(hdrs, blocks, k);
    }

    /** The part of kmalloc that splits and claims the block it found. */
    method Take(cur: nat, size: nat, ghost k: nat) returns (ret: nat)
      requires Valid() && k < |blocks| && cur == blocks[k].addr
      requires Fits(blocks[k], size) && size > 0 && size % 16 == 0
      modifies this
      ensures Valid() && blocks == Give(old(blocks), k, size) && ret == cur + HEADER_SIZE
    {
      hide Tiles, Live, Give, Chained, Merged;
      BlockIsValid(k);
      GiveGood(blocks, start, end, k, size);
      GiveChained(hdrs, blocks, start, end, k, size);
      ghost var was, memory, b := blocks, hdrs, blocks[k];
      var h := hdrs[cur];
      var remaining := h.size - size;
      var split := cur + HEADER_SIZE + size;
      ret := 0;
      if remaining < HEADER_SIZE + MIN_ALLOC || InHeap(split) {
        if remaining >= HEADER_SIZE + MIN_ALLOC {
          var rest := Header(HEAP_MAGIC, remaining - HEADER_SIZE, true, h.next);
          hdrs := Overwrite(hdrs, cur, split + HEADER_SIZE)[split := rest];
          h := h.(next := split, size := size);
        } else {
          hdrs := Overwrite(hdrs, cur, split + remaining);
        }
        hdrs := hdrs[cur := h.(free := false)];
        ret := cur + HEADER_SIZE;
      }
      blocks := Give(was, k, size);
      assert hdrs == Rewritten(memory, b, size, Next(was, k + 1));
      assert Stale(hdrs, Live(blocks));
    }

    /** kmalloc. */
    method Kmalloc(request: nat) returns (ret: nat)
      requires Valid() && request < 0x1_0000_0000_0000_0000
      modifies this
      ensures Valid() && (blocks, ret) == Allocate(old(blocks), end - start, request)
    {
      hide Tiles, Live, Give, Chained, Merged;
      if request == 0 || head == 0 { return 0; }
      if request > end - start { return 0; }
      var size := (request + 15) % 0x1_0000_0000_0000_0000 / 16 * 16;
      if size < MIN_ALLOC { size := MIN_ALLOC; }
      assert size == AlignUp(request);
      var cur := head;
      ghost var k := 0;
      Adjoin(blocks, start, end);
      while cur != 0 && ValidHdr(cur)
        invariant k <= |blocks| && cur == Next(blocks, k) && blocks == old(blocks) && Valid()
        invariant forall j :: 0 <= j < k ==> !Fits(blocks[j], size)
        decreases |blocks| - k
      {
        if k < |blocks| { BlockIsValid(k); }
        var h := hdrs[cur];
        if h.free && h.size >= size {
          ret := Take(cur, size, k);
          return;
        }
        cur := h.next;
        k := k + 1;
      }
      if k < |blocks| { BlockIsValid(k); }
      ret := 0;
    }

    /** kfree, for NULL, any address outside the heap, and any address whose header image has not
        been overwritten since: a live pointer or one freed before. */
    method Kfree(ptr: nat)
      requires Valid() && (InHeap(ptr) && InHeap(ptr - HEADER_SIZE) ==> ptr - HEADER_SIZE in hdrs)
      modifies this
      ensures Valid() && blocks == Deallocate(old(blocks), ptr) && hdrs.Keys == old(hdrs.Keys)
    {
      hide Tiles, Live, Chained, Merged, Release;
      DeallocateIsRemoval(blocks, start, end, ptr);
      FindLive(blocks, start, end, ptr);
      LiveApart(blocks, start, end);
      ghost var i := Find(blocks, ptr);
      if i < |blocks| { BlockIsValid(i); }
      if ptr == 0 { return; }
      if !InHeap(ptr) { return; }
      if !InHeap(ptr - HEADER_SIZE) { return; }
      var hdr := ptr - HEADER_SIZE;
      if !ValidHdr(hdr) || hdrs[hdr].free { return; }
      Merge(hdr, i);
    }

    /** The part of kfree that marks the block free and merges along the list. */
    method Merge(hdr: nat, ghost i: nat)
      requires Valid() && i < |blocks| && hdr == blocks[i].addr && !blocks[i].free
      modifies this
      ensures Valid() && blocks == Release(old(blocks), i) && hdrs.Keys == old(hdrs.Keys)
    {
      hide Tiles, Live, Chained, Merged, Coalesce;
      ReleaseGood(blocks, start, end, i);
      BlockIsValid(i);
      Mark(hdrs, blocks, start, end, i);
      hdrs := hdrs[hdr := hdrs[hdr].(free := true)];
      blocks := blocks[i := blocks[i].(free := true)];
      MergeScan(Live(Release(old(blocks), i)));
    }

    method MergeScan(ghost live: map<nat, nat>)
      requires blocks != [] && 0 < start == head && Tiles(blocks, start, end) && Chained(hdrs, blocks)
      requires Stale(hdrs, live)
      modifies this
      ensures blocks == Coalesce(old(blocks)) && hdrs.Keys == old(hdrs.Keys) && head == old(head)
      ensures Chained(hdrs, blocks) && Stale(hdrs, live)
    {
      hide Tiles, Chained, Coalesce;
      ghost var marked := blocks;
      var cur := head;
      ghost var k := 0;
      Adjoin(blocks, start, end);
      assert blocks[..0] + Coalesce(blocks[0..]) == Coalesce(marked) by { assert blocks[0..] == blocks; }
      while cur != 0 && cur in hdrs && hdrs[cur].next != 0 && ValidHdr(cur) && ValidHdr(hdrs[cur].next)
        invariant k < |blocks| && cur == blocks[k].addr && Tiles(blocks, start, end)
        invariant Chained(hdrs, blocks) && Stale(hdrs, live) && hdrs.Keys == old(hdrs.Keys) && head == old(head)
        invariant Coalesce(marked) == blocks[..k] + Coalesce(blocks[k..])
        decreases |blocks| - k
      {
        Look(hdrs, blocks, start, end, k);
        CoalesceStep(blocks, k);
        var h, n := hdrs[cur], hdrs[hdrs[cur].next];
        if h.free && n.free {
          JoinChained(hdrs, blocks, start, end, k);
          hdrs := hdrs[cur := h.(size := h.size + HEADER_SIZE + n.size, next := n.next)];
          blocks := blocks[..k] + [Join(blocks[k], blocks[k + 1])] + blocks[k + 2..];
        } else {
          cur := h.next;
          k := k + 1;
        }
      }
      Look(hdrs, blocks, start, end, k);
      CoalesceStep(blocks, k);
    }

    /** What the merge scan sees at block k. */
    lemma Look(m: map<nat, Header>, bs: seq<Block>, lo: nat, hi: nat, k: nat)
      requires Tiles(bs, lo, hi) && Chained(m, bs) && k < |bs| && lo > 0
      ensures var a := bs[k].addr;
              a in m && lo <= a < hi && m[a].magic == HEAP_MAGIC && m[a].size > 0 && m[a].size == bs[k].size
              && m[a].free == bs[k].free && m[a].next == Next(bs, k + 1)
      ensures k + 1 == |bs| ||
              (&& lo <= bs[k + 1].addr < hi && bs[k + 1].addr in m && bs[k + 1].size > 0
               && m[bs[k + 1].addr] == Header(HEAP_MAGIC, bs[k + 1].size, bs[k + 1].free, Next(bs, k + 2)))
    {
      TilesSplit(bs, lo, hi, k);
      ChainedAt(m, bs, k);
      if k + 1 < |bs| {
        TilesSplit(bs, lo, hi, k + 1);
        ChainedAt(m, bs, k + 1);
      }
    }
  }

  /** One step of the merge scan, on lists. */
  lemma CoalesceStep(bs: seq<Block>, k: nat)
    requires k < |bs|
    ensures k + 1 == |bs| ==> bs[..k] + Coalesce(bs[k..]) == bs
    ensures k + 1 < |bs| && bs[k].free && bs[k + 1].free ==>
              var r := bs[..k] + [Join(bs[k], bs[k + 1])] + bs[k + 2..];
              bs[..k] + Coalesce(bs[k..]) == r[..k] + Coalesce(r[k..])
    ensures k + 1 < |bs| && !(bs[k].free && bs[k + 1].free) ==>
              bs[..k] + Coalesce(bs[k..]) == bs[..k + 1] + Coalesce(bs[k + 1..])
  {
    if k + 1 < |bs| {
      if bs[k].free && bs[k + 1].free {
        var r := bs[..k] + [Join(bs[k], bs[k + 1])] + bs[k + 2..];
        assert r[k..] == [Join(bs[k], bs[k + 1])] + bs[k..][2..];
      } else {
        assert bs[k..][1..] == bs[k + 1..];
        assert bs[..k + 1] == bs[..k] + [bs[k]];
      }
    }
  }

  /** Marking a block free keeps the chain. */
  lemma Mark(hdrs: map<nat, Header>, bs: seq<Block>, lo: nat, hi: nat, i: nat)
    requires Tiles(bs, lo, hi) && Chained(hdrs, bs) && i < |bs|
    ensures var r := bs[i := bs[i].(free := true)];
            Tiles(r, lo, hi) && bs[i].addr in hdrs && Chained(hdrs[bs[i].addr := hdrs[bs[i].addr].(free := true)], r)
  {
    hide Tiles, Chained;
    var b := bs[i];
    var f := b.(free := true);
    var r := bs[i := f];
    TilesSplit(bs, lo, hi, i);
    OneBlock(f);
    assert r == bs[..i] + [f] + bs[i + 1..];
    TilesConcat(bs[..i], [f], lo, b.addr, End(f)); TilesConcat(bs[..i] + [f], bs[i + 1..], lo, End(f), hi);
    ChainedAt(hdrs, bs, i);
    var h := hdrs[b.addr := hdrs[b.addr].(free := true)];
    forall j | 0 <= j < |r|
      ensures r[j].addr in h && h[r[j].addr] == Header(HEAP_MAGIC, r[j].size, r[j].free, Next(r, j + 1))
    {
      ChainedAt(hdrs, bs, j);
      if j < i { Disjoint(bs, lo, hi, j, i); } else if j > i { Disjoint(bs, lo, hi, i, j); }
    }
    ChainedAll(h, r);
  }
}
