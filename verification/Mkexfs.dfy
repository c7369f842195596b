/** The image writer (tools/mkexfs.py), and the theorem that the checker finds nothing wrong with
    what it writes. */
module Mkexfs {
  import opened Exfs
  import T = ExfsTree

  // ----- layout ----------------------------------------------------------------------------------

  function BitmapSize(total: nat): nat {
    var n := (total + BITS_PER_BLK - 1) / BITS_PER_BLK;
    if n > 1 then n else 1
  }

  function DataStart(total: nat): nat {
    1 + BitmapSize(total) + INODE_BLOCKS
  }

  /** The journal and, after it, the provenance region end the volume. */
  function Journal(total: nat): int {
    total - PROVENANCE_SIZE - JOURNAL_SIZE
  }

  function Range(lo: nat, hi: nat): (r: seq<nat>)
    requires lo <= hi
    ensures |r| == hi - lo && forall i :: 0 <= i < |r| ==> r[i] == lo + i
  {
    seq(hi - lo, i requires 0 <= i < hi - lo => lo + i)
  }

  function MakeInode(mode: nat, size: nat, direct: seq<nat>, indirect: nat, double: nat): Inode
    requires |direct| <= DIRECT
  {
    Inode(mode, size, Pad(direct, DIRECT), indirect, double)
  }

  predicate Positive(s: seq<nat>) {
    forall i :: 0 <= i < |s| ==> s[i] > 0
  }

  // ----- files without, with one and with two levels of pointers ----------------------------------

  lemma PlaceDirect(blocks: map<nat, Block>, total: nat, n: Inode, direct: seq<nat>)
    requires |direct| <= DIRECT && Positive(direct) && n == MakeInode(n.mode, n.size, direct, 0, 0)
    ensures Owned(blocks, total, n) == direct && Listed(blocks, total, n) == direct
  {
    NumsPad(direct, DIRECT);
  }

  lemma PlaceSingle(blocks: map<nat, Block>, total: nat, n: Inode, direct: seq<nat>, single: seq<nat>)
    requires |direct| <= DIRECT && Positive(direct) && n == MakeInode(n.mode, n.size, direct, n.indirect, 0)
    requires n.indirect > 0 && Resolve(blocks, total, n.indirect) == single
    ensures Owned(blocks, total, n) == direct + single + [n.indirect] && Listed(blocks, total, n) == direct + single
  {
    NumsPad(direct, DIRECT);
  }

  lemma PlaceDouble(blocks: map<nat, Block>, total: nat, n: Inode, direct: seq<nat>, single: seq<nat>, l1: seq<nat>)
    requires |direct| <= DIRECT && Positive(direct) && n == MakeInode(n.mode, n.size, direct, n.indirect, n.double)
    requires n.indirect > 0 && Resolve(blocks, total, n.indirect) == single
    requires 0 < n.double < total && Resolve(blocks, total, n.double) == l1
    ensures Owned(blocks, total, n) == direct + single + ([n.double] + Level2(blocks, total, l1, true)) + [n.indirect]
    ensures Listed(blocks, total, n) == direct + single + Level2(blocks, total, l1, false)
  {
    NumsPad(direct, DIRECT);
  }

  /** A placed list of blocks: found in order, and every block from lo to hi held once besides. */
  predicate Placed(blocks: map<nat, Block>, total: nat, n: Inode, bs: seq<nat>, lo: nat, hi: nat) {
    && lo <= hi && |n.direct| == DIRECT
    && Listed(blocks, total, n) == bs
    && multiset(Owned(blocks, total, n)) == multiset(bs) + multiset(Range(lo, hi))
    && n.indirect < hi && n.double < hi
  }

  class Maker {
    const total: nat
    var used: set<nat>
    var blocks: map<nat, Block>
    var inodes: seq<Inode>
    ghost var next: nat

    /** The blocks in use are a prefix of the data region and everything outside it; nothing has
        been written at or past `next`. */
    ghost predicate Valid()
      reads this
    {
      && |inodes| == MAX_INODES
      && DataStart(total) <= next && (next == DataStart(total) || next <= Journal(total))
      && (forall b: nat :: b in used <==> b < next || Journal(total) <= b < total)
      && (forall b :: b in blocks ==> b < next)
    }

    /** alloc_block: the first free block of the data region. */
    method AllocBlock() returns (ok: bool, b: nat)
      requires Valid()
      modifies this`used, this`next
      ensures Valid() && (ok <==> old(next) < Journal(total))
      ensures if ok then b == old(next) && next == b + 1 else next == old(next) && used == old(used)
    {
      b := DataStart(total);
      while b < total - PROVENANCE_SIZE && b in used
        invariant DataStart(total) <= b && (b <= next || Journal(total) <= next)
        invariant next == old(next) && Valid()
        decreases total - b
      {
        b := b + 1;
      }
      ok := b < total - PROVENANCE_SIZE;
      if ok {
        used := used + {b};
        next := b + 1;
      }
    }

    /** _write_ptr_block. */
    method WritePtrBlock(ptrs: seq<nat>) returns (ok: bool, b: nat)
      requires Valid() && |ptrs| <= INDIRECT_PTRS && Positive(ptrs)
      modifies this`used, this`next, this`blocks
      ensures Valid() && old(next) <= next && Agree(old(blocks), blocks, old(next))
      ensures ok ==> b == old(next) && next == b + 1 && 0 < b < total && Resolve(blocks, total, b) == ptrs
    {
      ok, b := AllocBlock();
      if ok {
        blocks := blocks[b := Ptrs(Pad(ptrs, INDIRECT_PTRS))];
        NumsPad(ptrs, INDIRECT_PTRS);
      }
    }

    /** The level-two pointer blocks of _place_blocks. */
    method WriteGroups(rest: seq<nat>) returns (ok: bool, l1: seq<nat>)
      requires Valid() && Positive(rest) && |rest| <= INDIRECT_PTRS * INDIRECT_PTRS
      modifies this`used, this`next, this`blocks
      ensures Valid() && old(next) <= next && Agree(old(blocks), blocks, old(next))
      ensures ok ==> l1 == Range(old(next), next) && Positive(l1) && |l1| <= INDIRECT_PTRS
      ensures ok ==> Level2(blocks, total, l1, false) == rest
      ensures ok ==> multiset(Level2(blocks, total, l1, true)) == multiset(rest) + multiset(l1)
    {
      hide Level2, Agree, Range, Journal;
      ok, l1 := true, [];
      var i := 0;
      AgreeSelf(blocks, next);
      RangeEmpty(next);
      GroupsStart(blocks, total, rest);
      while i < |rest|
        invariant i <= |rest| && Valid() && old(next) <= next && Agree(old(blocks), blocks, old(next)) && ok
        invariant l1 == Range(old(next), next)
        invariant (i < |rest| ==> i == INDIRECT_PTRS * |l1|) && INDIRECT_PTRS * |l1| <= |rest| + INDIRECT_PTRS - 1
        invariant Level2(blocks, total, l1, false) == rest[..i]
        invariant multiset(Level2(blocks, total, l1, true)) == multiset(rest[..i]) + multiset(l1)
      {
        var j := if i + INDIRECT_PTRS < |rest| then i + INDIRECT_PTRS else |rest|;
        ghost var was, n := blocks, next;
        var p;
        ok, p := WritePtrBlock(rest[i..j]);
        AgreeTrans(old(blocks), was, blocks, old(next), n);
        if !ok { return; }
        RangeBelow(old(next), n);
        RangeStep(old(next), n);
        GroupAdded(was, blocks, total, l1, p, n, rest, i, j);
        l1 := l1 + [p];
        i := j;
      }
      assert rest[..i] == rest;
      RangeBelow(old(next), next);
    }

    /** _place_blocks. */
    method PlaceBlocks(bs: seq<nat>, ghost mode: nat, ghost size: nat)
        returns (ok: bool, direct: seq<nat>, indirect: nat, double: nat)
      requires Valid() && Positive(bs)
      modifies this`used, this`next, this`blocks
      ensures Valid() && old(next) <= next && Agree(old(blocks), blocks, old(next))
      ensures ok ==> |direct| <= DIRECT
      ensures ok ==> Placed(blocks, total, MakeInode(mode, size, direct, indirect, double), bs, old(next), next)
    {
      hide Level2, Agree, Range, Journal, Placed, Resolve, Owned, Listed;
      AgreeSelf(blocks, next);
      ok, direct, indirect, double := true, [], 0, 0;
      if |bs| > DIRECT + INDIRECT_PTRS + INDIRECT_PTRS * INDIRECT_PTRS {
        ok := false;
        return;
      }
      direct := bs[..if |bs| < DIRECT then |bs| else DIRECT];
      var rest := bs[|direct|..];
      if rest == [] {
        DirectPlaced(blocks, total, MakeInode(mode, size, direct, 0, 0), bs, next);
        return;
      }
      var single := rest[..if |rest| < INDIRECT_PTRS then |rest| else INDIRECT_PTRS];
      ok, indirect := WritePtrBlock(single);
      if !ok { return; }
      rest := rest[|single|..];
      assert bs == direct + single + rest;
      if rest == [] {
        SinglePlaced(blocks, total, MakeInode(mode, size, direct, indirect, 0), bs, direct, single);
        return;
      }
      ghost var b1, n1 := blocks, next;
      var l1;
      ok, l1 := WriteGroups(rest);
      AgreeTrans(old(blocks), b1, blocks, old(next), n1);
      if !ok { return; }
      ghost var b2, n2 := blocks, next;
      ok, double := WritePtrBlock(l1);
      AgreeTrans(old(blocks), b2, blocks, old(next), n2);
      if !ok { return; }
      DoublePlaced(b1, b2, blocks, total, n1, n2, bs, direct, single, rest, l1,
        MakeInode(mode, size, direct, indirect, double));
    }

    /** Every block from the start of the data region to `next` is held by one inode, once. */
    ghost predicate Sound()
      reads this
    {
      Accounted(blocks, total, inodes, next)
    }

    /** The data blocks of write_file_to_disk. */
    method WriteData(data: seq<nat>) returns (ok: bool, bs: seq<nat>)
      requires Valid()
      modifies this`used, this`next, this`blocks
      ensures Valid() && old(next) <= next && Agree(old(blocks), blocks, old(next))
      ensures ok ==> bs == Range(old(next), next) && |bs| == Chunks(|data|) && data <= Bytes(blocks, bs)
    {
      hide Agree, Range, Journal, Bytes;
      AgreeSelf(blocks, next);
      RangeEmpty(next);
      ok, bs := true, [];
      var i := 0;
      assert Bytes(blocks, bs) == data[..0] by { NoBytes(blocks); }
      while i < |data|
        invariant Valid() && old(next) <= next && Agree(old(blocks), blocks, old(next)) && ok
        invariant bs == Range(old(next), next) && i == BLOCK_SIZE * |bs| && i < |data| + BLOCK_SIZE
        invariant i <= |data| ==> Bytes(blocks, bs) == data[..i]
        invariant i > |data| ==> data <= Bytes(blocks, bs)
        decreases |data| - i
      {
        var j := if i + BLOCK_SIZE < |data| then i + BLOCK_SIZE else |data|;
        ghost var was, n := blocks, next;
        var b;
        ok, b := AllocBlock();
        if !ok { return; }
        blocks := blocks[b := Data(Pad(data[i..j], BLOCK_SIZE))];
        AgreeFresh(was, b, blocks[b]);
        AgreeTrans(old(blocks), was, blocks, old(next), n);
        RangeBelow(old(next), n);
        RangeStep(old(next), n);
        ChunkAdded(was, blocks, bs, b, data, i, j);
        bs := bs + [b];
        i := i + BLOCK_SIZE;
      }
      ChunkCount(|data|, |bs|);
    }

    /** write_file_to_disk. */
    method WriteFile(ino: nat, data: seq<nat>) returns (ok: bool)
      requires Valid() && Sound() && 0 < ino < MAX_INODES && !inodes[ino].InUse()
      modifies this
      ensures Valid() && Agree(old(blocks), blocks, old(next)) && old(next) <= next
      ensures ok ==> Sound() && inodes == old(inodes)[ino := inodes[ino]]
      ensures ok ==> Stored(blocks, total, inodes[ino], old(next), next, data)
    {
      hide Agree, Range, Journal, Bytes, Placed, Accounted, Stored, Owned, Listed;
      var bs;
      ok, bs := WriteData(data);
      if !ok { return; }
      ghost var b1, n1 := blocks, next;
      RangeBelow(old(next), n1);
      var direct, indirect, double;
      ok, direct, indirect, double := PlaceBlocks(bs, 0x1ED, |data|);
      AgreeTrans(old(blocks), b1, blocks, old(next), n1);
      if !ok { return; }
      var n := MakeInode(0x1ED, |data|, direct, indirect, double);
      FileStored(b1, blocks, total, n, old(next), n1, next, data);
      inodes := inodes[ino := n];
      StoredHolds(blocks, total, n, old(next), next, data);
      AccountedSet(old(blocks), blocks, total, old(inodes), old(next), next, ino, n);
    }

    /** A directory with one block: alloc_block, make_inode, write_inode. */
    method NewDir(ino: nat, mode: nat) returns (ok: bool, b: nat)
      requires Valid() && Sound() && ino < MAX_INODES && inodes[ino] == ZERO_INODE && mode > 0
      modifies this
      ensures Valid() && blocks == old(blocks) && old(next) <= next
      ensures ok ==> Sound() && b == old(next) && next == b + 1
      ensures ok ==> inodes == old(inodes)[ino := MakeInode(mode, 0, [b], 0, 0)]
    {
      hide Journal, Accounted, Owned, Listed, Range, Agree;
      ok, b := AllocBlock();
      if !ok { return; }
      var n := MakeInode(mode, 0, [b], 0, 0);
      inodes := inodes[ino := n];
      ZeroHolds(blocks, total);
      PlaceDirect(blocks, total, n, [b]);
      RangeEmpty(b); RangeStep(b, b);
      assert [] + [b] == [b];
      AgreeSelf(blocks, b);
      AccountedSet(blocks, blocks, total, old(inodes), b, next, ino, n);
    }

    /** write_block on the block of a directory. */
    method WriteDir(b: nat, es: seq<Dirent>)
      requires Valid() && Sound() && b < next && Read(blocks, b) == Zero && |es| <= DIRENTS_PER_BLOCK
      modifies this`blocks
      ensures Valid() && Sound() && blocks == old(blocks)[b := DirBlock(es)]
    {
      hide Journal, Accounted;
      blocks := blocks[b := DirBlock(es)];
      DirSimilar(old(blocks), b, es, next);
      AccountedSimilar(old(blocks), blocks, total, inodes, next);
    }

    /** The fixed part of the tree. */
    method MakeDirs() returns (ok: bool)
      requires Valid() && Sound() && next == DataStart(total) && blocks == map[]
      requires forall i :: 0 <= i < MAX_INODES ==> inodes[i] == ZERO_INODE
      modifies this
      ensures Valid()
      ensures ok ==> Sound() && next == DataStart(total) + 6 && Skeleton(blocks, total, inodes)
      ensures ok ==> forall i :: 0 <= i < MAX_INODES && (i == 1 || i >= 7) ==> inodes[i] == ZERO_INODE
    {
      hide Journal, Accounted, DataStart;
      var root, vars, b;
      ok, root := NewDir(0, 0x1ED);
      if !ok { return; }
      ok, vars := NewDir(2, 0x1ED);
      if !ok { return; }
      ok, b := NewDir(3, 0x1ED);
      if !ok { return; }
      ok, b := NewDir(4, 0x1ED);
      if !ok { return; }
      ok, b := NewDir(5, 0x1FF);
      if !ok { return; }
      ok, b := NewDir(6, 0x1ED);
      if !ok { return; }
      WriteDir(root, T.RootEntries());
      WriteDir(vars, T.VarEntries());
    }

    /** The loop over the files: data, pointers and inode on the image, entry in a directory block. */
    method AddFiles(files: seq<File>) returns (ok: bool, packs: seq<seq<Dirent>>, ghost bounds: seq<nat>)
      requires Valid() && Sound() && next == DataStart(total) + 6 && Skeleton(blocks, total, inodes)
      requires forall i :: 0 <= i < MAX_INODES && (i == 1 || i >= 7) ==> inodes[i] == ZERO_INODE
      modifies this
      ensures Valid()
      ensures ok ==> Sound() && next >= DataStart(total) + 6 && Skeleton(blocks, total, inodes) && Packed(packs, files)
      ensures ok ==> 7 + |files| <= MAX_INODES && AllStored(blocks, total, inodes, files, bounds, next)
      ensures ok ==> forall i :: 0 <= i < MAX_INODES && (i == 1 || i >= 7 + |files|) ==> inodes[i] == ZERO_INODE
    {
      hide Journal, Accounted, DataStart, Stored, Skeleton, Agree, Packed;
      ok, packs, bounds := true, [[]], [next];
      PackedNone(files);
      var k := 0;
      while k < |files|
        invariant k <= |files| && 7 + k <= MAX_INODES && Valid() && Sound() && ok && next >= DataStart(total) + 6
        invariant Skeleton(blocks, total, inodes) && Packed(packs, files[..k])
        invariant AllStored(blocks, total, inodes, files[..k], bounds, next) && bounds[k] == next
        invariant forall i :: 0 <= i < MAX_INODES && (i == 1 || i >= 7 + k) ==> inodes[i] == ZERO_INODE
      {
        // With more files than inodes the run ends at the limit on the blocks of /bin.
        if 7 + k == MAX_INODES || |files[k].name| > 0xFFFF {
          ok := false;
          return;
        }
        ghost var was, n, tab := blocks, next, inodes;
        assert !ZERO_INODE.InUse();
        ok := WriteFile(7 + k, files[k].data);
        if !ok { return; }
        SkeletonKeep(was, blocks, total, tab, inodes, n);
        AllStoredMore(was, blocks, total, tab, inodes, files, k, bounds, n, next);
        PackedMore(packs, files, k);
        packs := AddEntry(packs, Dirent(7 + k, Clip(files[k].name), 0));
        bounds := bounds + [next];
        k := k + 1;
      }
      assert files[..k] == files;
    }

    /** The blocks and the inode of /bin. */
    method AddBin(packs: seq<seq<Dirent>>, ghost files: seq<File>, ghost bounds: seq<nat>) returns (ok: bool)
      requires Valid() && Sound() && next >= DataStart(total) + 6 && Skeleton(blocks, total, inodes)
      requires Packed(packs, files)
      requires 7 + |files| <= MAX_INODES && AllStored(blocks, total, inodes, files, bounds, next)
      requires inodes[1] == ZERO_INODE
      modifies this
      ensures Valid()
      ensures ok ==> Sound() && next >= DataStart(total) + 6 && Skeleton(blocks, total, inodes)
      ensures ok ==> AllStored(blocks, total, inodes, files, bounds, next) && inodes == old(inodes)[1 := inodes[1]]
      ensures ok ==> inodes[1].InUse() && Entries(blocks, total, Listed(blocks, total, inodes[1])) == FileEntries(files)
    {
      hide Journal, Accounted, DataStart, Stored, Skeleton, Agree, Owned, Listed, Range, Entries, Packed, AllStored;
      ghost var was, n0 := blocks, next;
      AgreeSelf(blocks, next);
      RangeEmpty(next);
      PackedSizes(packs, files);
      NoEntries(blocks, total);
      DataStartPositive(total);
      ok := true;
      var nums: seq<nat> := [];
      var i := 0;
      while i < |packs|
        invariant i <= |packs| && Valid() && ok && n0 <= next && nums == Range(n0, next) && inodes == old(inodes)
        invariant Agree(was, blocks, n0) && Entries(blocks, total, nums) == Flat(packs[..i])
      {
        var b;
        ghost var before, n := blocks, next;
        ok, b := AllocBlock();
        if !ok { return; }
        blocks := blocks[b := DirBlock(packs[i])];
        AgreeFresh(before, b, blocks[b]);
        AgreeTrans(was, before, blocks, n0, n);
        RangeBelow(n0, n);
        RangeStep(n0, n);
        BelowJournal(total, b);
        PackAdded(before, blocks, total, nums, b, packs, i);
        nums := nums + [b];
        i := i + 1;
      }
      assert packs[..i] == packs;
      if |nums| > DIRECT {
        ok := false;
        return;
      }
      var n := MakeInode(0x1ED, 0, nums, 0, 0);
      RangeBelow(n0, next);
      PlaceDirect(blocks, total, n, nums);
      inodes := inodes[1 := n];
      ZeroHolds(was, total);
      AccountedSet(was, blocks, total, old(inodes), n0, next, 1, n);
      SkeletonKeep(was, blocks, total, old(inodes), inodes, n0);
      AllStoredKeep(was, blocks, total, old(inodes), inodes, files, bounds, n0, next);
      PackedFlat(packs, files);
    }

    /** The bitmap. */
    method WriteBitmap() returns (bits: seq<bool>)
      ensures |bits| == BitmapSize(total) * BITS_PER_BLK
      ensures forall b :: 0 <= b < |bits| ==> (bits[b] <==> b in used && b < total)
    {
      bits := [];
      var bb := 0;
      while bb < BitmapSize(total)
        invariant bb <= BitmapSize(total) && |bits| == bb * BITS_PER_BLK
        invariant forall b :: 0 <= b < |bits| ==> (bits[b] <==> b in used && b < total)
      {
        var base := bb * BITS_PER_BLK;
        bits := bits
          + seq(BITS_PER_BLK, k requires 0 <= k < BITS_PER_BLK reads this => base + k in used && base + k < total);
        bb := bb + 1;
      }
    }

    constructor (size: nat)
      ensures Valid() && Sound() && total == size && next == DataStart(total) && blocks == map[]
      ensures forall i :: 0 <= i < MAX_INODES ==> inodes[i] == ZERO_INODE
    {
      total := size;
      used := {};
      blocks := map[];
      inodes := seq(MAX_INODES, _ => ZERO_INODE);
      next := DataStart(size);
      new;
      var b := 0;
      while b < DataStart(size)
        invariant b <= DataStart(size) && (forall x :: x in used <==> 0 <= x < b)
        invariant blocks == map[] && inodes == seq(MAX_INODES, _ => ZERO_INODE) && next == DataStart(size)
      {
        used := used + {b};
        b := b + 1;
      }
      b := if Journal(size) > 0 then Journal(size) else 0;
      while b < size
        invariant Journal(size) <= b && (b <= size || b == Journal(size))
        invariant forall x :: x in used <==> 0 <= x < DataStart(size) || (Journal(size) <= x < b && x >= 0)
        invariant blocks == map[] && inodes == seq(MAX_INODES, _ => ZERO_INODE) && next == DataStart(size)
      {
        used := used + {b};
        b := b + 1;
      }
      hide Owned, Refs;
      RangeEmpty(next);
      ZeroHolds(blocks, total);
      NothingHeld(blocks, total, inodes);
    }

    /** The whole tool. When it completes, the checker finds the image clean exactly if the files have
        different names, and every file is there: consecutive blocks, found in order through the
        pointers, holding its bytes. */
    method Make(files: seq<File>) returns (ok: bool, img: Image, ghost bounds: seq<nat>)
      requires Valid() && Sound() && next == DataStart(total) && blocks == map[]
      requires forall i :: 0 <= i < MAX_INODES ==> inodes[i] == ZERO_INODE
      modifies this
      ensures ok ==> (Clean(img) <==> Distinct(FileEntries(files)))
      ensures ok ==> img.total == total && AllStored(img.blocks, img.total, img.inodes, files, bounds, total)
    {
      hide Accounted, DataStart, Stored, Skeleton, Agree, Owned, Listed, Range, Entries, Packed, Clean, Distinct,
        FileEntries;
      img, bounds := Image(0, 0, 0, 0, 0, 0, false, [], [], map[]), [];
      ok := MakeDirs();
      if !ok { return; }
      var packs;
      ok, packs, bounds := AddFiles(files);
      if !ok { return; }
      ok := AddBin(packs, files, bounds);
      if !ok { return; }
      var bits := WriteBitmap();
      img := Image(EXFS_MAGIC, total, DataStart(total), total - PROVENANCE_SIZE, Journal(total), JOURNAL_SIZE, false,
        bits, inodes, blocks);
      MadeClean(img, next, used, files, bounds);
    }
  }

  lemma {:induction false} NothingHeld(blocks: map<nat, Block>, total: nat, inodes: seq<Inode>)
    requires forall i :: 0 <= i < |inodes| ==> inodes[i] == ZERO_INODE
    ensures Refs(blocks, total, inodes) == [] && AllBelow(blocks, total, inodes, DataStart(total))
    decreases |inodes|
  {
    hide Owned;
    ZeroHolds(blocks, total);
    if inodes == [] {
    } else {
      NothingHeld(blocks, total, inodes[..|inodes| - 1]);
    }
  }

  lemma {:induction false} OwnedInRefs(blocks: map<nat, Block>, total: nat, inodes: seq<Inode>, k: nat, b: nat)
    requires k < |inodes| && Counts(k, inodes[k]) && b in Owned(blocks, total, inodes[k])
    ensures b in Refs(blocks, total, inodes)
    decreases |inodes|
  {
    hide Owned;
    var last := |inodes| - 1;
    if k >= last {
    } else {
      OwnedInRefs(blocks, total, inodes[..last], k, b);
    }
  }

  lemma RangeOnce(refs: seq<nat>, lo: nat, hi: nat)
    requires lo <= hi && multiset(refs) == multiset(Range(lo, hi))
    ensures forall b :: b in refs <==> lo <= b < hi
    ensures forall b :: lo <= b < hi ==> multiset(refs)[b] == 1
  {
    RangeBelow(lo, hi);
    forall b ensures b in refs <==> lo <= b < hi {
      assert b in refs <==> b in multiset(refs);
      assert b in multiset(Range(lo, hi)) <==> b in Range(lo, hi);
    }
    forall b | lo <= b < hi ensures multiset(refs)[b] == 1 { OnceIn(lo, b, hi); }
  }

  lemma OnceIn(lo: nat, b: nat, hi: nat)
    requires lo <= b < hi
    ensures multiset(Range(lo, hi))[b] == 1
  {
    hide Range;
    RangeConcat(lo, b, hi); RangeConcat(b, b + 1, hi);
    RangeEmpty(b); RangeStep(b, b);
    RangeBelow(lo, b); RangeBelow(b + 1, hi);
    assert [] + [b] == [b];
    assert b !in multiset(Range(lo, b)) && b !in multiset(Range(b + 1, hi));
  }

  /** What the writer leaves passes every check on blocks. */
  lemma MadeBlocks(img: Image, next: nat, used: set<nat>)
    requires img.journal >= next >= img.dataStart == DataStart(img.total)
    requires Accounted(img.blocks, img.total, img.inodes, next)
    requires img.provenance == img.total - PROVENANCE_SIZE >= img.journal + JOURNAL_SIZE == img.provenance
    requires img.journalSize == JOURNAL_SIZE
    requires |img.bits| >= img.total
    requires forall b :: 0 <= b < |img.bits| ==> (img.bits[b] <==> b in used && b < img.total)
    requires forall b: nat :: b in used <==> b < next || img.journal <= b < img.total
    ensures BlocksClean(img)
    ensures forall ino :: 0 <= ino < |img.inodes| && Counts(ino, img.inodes[ino]) ==> InRange(img, img.inodes[ino])
  {
    hide Owned, Refs, Range, DataStart;
    RangeOnce(Refs(img.blocks, img.total, img.inodes), DataStart(img.total), next);
    DataStartPositive(img.total);
    forall ino | 0 <= ino < |img.inodes| && Counts(ino, img.inodes[ino]) ensures InRange(img, img.inodes[ino]) {
      assert Below(img.blocks, img.total, img.inodes[ino], next);
      forall b | b in Owned(img.blocks, img.total, img.inodes[ino]) ensures 0 < b < img.total {
        OwnedInRefs(img.blocks, img.total, img.inodes, ino, b);
      }
    }
  }

  lemma DirContents(img: Image, ino: nat, mode: nat, b: nat, es: seq<Dirent>)
    requires ino < |img.inodes| && img.inodes[ino] == MakeInode(mode, 0, [b], 0, 0) && 0 < b < img.total
    requires |es| <= DIRENTS_PER_BLOCK && forall i :: 0 <= i < |es| ==> es[i].ino != 0
    requires Read(img.blocks, b) == DirBlock(es) || (es == [] && Read(img.blocks, b) == Zero)
    ensures Contents(img, ino) == es
  {
    PlaceDirect(img.blocks, img.total, img.inodes[ino], [b]);
    assert [b][1..] == [];
    assert Contents(img, ino) == Occupied(DirOf(Read(img.blocks, b))) + Entries(img.blocks, img.total, []);
    OccupiedPad(es, seq(DIRENTS_PER_BLOCK - |es|, _ => Dirent(0, [], 0)));
  }

  lemma MadeShaped(img: Image, files: seq<File>)
    requires Skeleton(img.blocks, img.total, img.inodes) && DataStart(img.total) + 6 <= img.total
    requires 7 + |files| <= MAX_INODES
    requires img.inodes[1].InUse() && (forall f :: 7 <= f < 7 + |files| ==> img.inodes[f].InUse())
    requires forall i :: 7 + |files| <= i < MAX_INODES ==> !img.inodes[i].InUse()
    requires Contents(img, 1) == FileEntries(files)
    ensures T.Shaped(img, FileEntries(files))
  {
    hide Contents, Entries, Listed, DataStart, DirBlock;
    var d := DataStart(img.total);
    DataStartPositive(img.total);
    DirContents(img, 0, 0x1ED, d, T.RootEntries());
    DirContents(img, 2, 0x1ED, d + 1, T.VarEntries());
    DirContents(img, 3, 0x1ED, d + 2, []); DirContents(img, 4, 0x1ED, d + 3, []);
    DirContents(img, 5, 0x1FF, d + 4, []); DirContents(img, 6, 0x1ED, d + 5, []);
  }

  lemma MadeClean(img: Image, next: nat, used: set<nat>, files: seq<File>, bounds: seq<nat>)
    requires DataStart(img.total) + 6 <= next <= Journal(img.total)
    requires img == Image(EXFS_MAGIC, img.total, DataStart(img.total), img.total - PROVENANCE_SIZE, Journal(img.total),
                          JOURNAL_SIZE, false, img.bits, img.inodes, img.blocks)
    requires Accounted(img.blocks, img.total, img.inodes, next) && Skeleton(img.blocks, img.total, img.inodes)
    requires |img.bits| == BitmapSize(img.total) * BITS_PER_BLK
    requires forall b :: 0 <= b < |img.bits| ==> (img.bits[b] <==> b in used && b < img.total)
    requires forall b: nat :: b in used <==> b < next || Journal(img.total) <= b < img.total
    requires 7 + |files| <= MAX_INODES && AllStored(img.blocks, img.total, img.inodes, files, bounds, next)
    requires img.inodes[1].InUse() && (forall i :: 7 + |files| <= i < MAX_INODES ==> !img.inodes[i].InUse())
    requires Contents(img, 1) == FileEntries(files)
    ensures Clean(img) <==> Distinct(FileEntries(files))
    ensures AllStored(img.blocks, img.total, img.inodes, files, bounds, img.total)
  {
    hide Owned, Refs, Range, DataStart, Stored, Accounted, Skeleton, BlocksClean, TreeClean, InRange, Contents,
      T.Shaped, Distinct, Read;
    BitmapCovers(img.total);
    MadeBlocks(img, next, used);
    forall f | 7 <= f < 7 + |files| ensures img.inodes[f].InUse() {
      var k := f - 7;
      StoredHolds(img.blocks, img.total, img.inodes[7 + k], bounds[k], bounds[k + 1], files[k].data);
    }
    MadeShaped(img, files);
    T.TreeCleanIff(img, FileEntries(files));
  }

  lemma BitmapCovers(total: nat)
    ensures BitmapSize(total) * BITS_PER_BLK >= total
  {
  }

  datatype File = File(name: seq<nat>, data: seq<nat>)

  /** What the name field of an entry keeps of a name. */
  function Clip(name: seq<nat>): seq<nat> {
    if |name| > NAME_FIELD then name[..NAME_FIELD] else name
  }

  function FileEntries(files: seq<File>): (es: seq<Dirent>)
    ensures |es| == |files| && forall k :: 0 <= k < |es| ==> es[k] == Dirent(7 + k, Clip(files[k].name), 0)
  {
    seq(|files|, k requires 0 <= k < |files| => Dirent(7 + k, Clip(files[k].name), 0))
  }

  /** _bin_dir_add: a new block once the last is full. */
  function AddEntry(packs: seq<seq<Dirent>>, e: Dirent): seq<seq<Dirent>>
    requires packs != []
  {
    var last := |packs| - 1;
    if |packs[last]| >= DIRENTS_PER_BLOCK then packs + [[e]] else packs[last := packs[last] + [e]]
  }

  function Flat(packs: seq<seq<Dirent>>): seq<Dirent> {
    if packs == [] then [] else Flat(packs[..|packs| - 1]) + packs[|packs| - 1]
  }

  /** The entries of the files, in order, no more than fit in each block. */
  predicate Packed(packs: seq<seq<Dirent>>, files: seq<File>) {
    packs != [] && (forall i :: 0 <= i < |packs| ==> |packs[i]| <= DIRENTS_PER_BLOCK) &&
      Flat(packs) == FileEntries(files)
  }

  lemma PackedNone(files: seq<File>)
    ensures Packed([[]], files[..0])
  {
    var one: seq<seq<Dirent>> := [[]];
    assert one[..0] == [];
  }

  lemma PackedSizes(packs: seq<seq<Dirent>>, files: seq<File>)
    requires Packed(packs, files)
    ensures packs != []
    ensures forall i :: 0 <= i < |packs| ==> |packs[i]| <= DIRENTS_PER_BLOCK && forall j :: 0 <= j < |packs[i]| ==>
        packs[i][j].ino != 0
  {
    forall i, j | 0 <= i < |packs| && 0 <= j < |packs[i]| ensures packs[i][j].ino != 0 { FlatHas(packs, i, j); }
  }

  lemma {:induction false} FlatHas(packs: seq<seq<Dirent>>, i: nat, j: nat)
    requires i < |packs| && j < |packs[i]|
    ensures packs[i][j] in Flat(packs)
    decreases |packs|
  {
    var last := |packs| - 1;
    if i >= last {
    } else {
      FlatHas(packs[..last], i, j);
    }
  }

  lemma PackedFlat(packs: seq<seq<Dirent>>, files: seq<File>)
    requires Packed(packs, files)
    ensures Flat(packs) == FileEntries(files)
  {
  }

  lemma PackedMore(packs: seq<seq<Dirent>>, files: seq<File>, k: nat)
    requires k < |files| && Packed(packs, files[..k])
    ensures packs != [] && Packed(AddEntry(packs, Dirent(7 + k, Clip(files[k].name), 0)), files[..k + 1])
  {
    var e, last := Dirent(7 + k, Clip(files[k].name), 0), |packs| - 1;
    var r := AddEntry(packs, e);
    assert FileEntries(files[..k + 1]) == FileEntries(files[..k]) + [e];
    if |packs[last]| >= DIRENTS_PER_BLOCK {
      assert r[..|r| - 1] == packs;
    } else {
      assert r[..last] == packs[..last];
    }
    assert Flat(r) == Flat(packs) + [e];
  }

  /** The files so far, between consecutive bounds. */
  ghost predicate AllStored(blocks: map<nat, Block>, total: nat, inodes: seq<Inode>, files: seq<File>,
      bounds: seq<nat>, next: nat) {
    && |bounds| == |files| + 1 && 7 + |files| <= |inodes| && (forall f :: 0 <= f < |bounds| ==> bounds[f] <= next)
    && forall f :: 0 <= f < |files| ==> Stored(blocks, total, inodes[7 + f], bounds[f], bounds[f + 1], files[f].data)
  }

  lemma StoredKeep(was: map<nat, Block>, blocks: map<nat, Block>, total: nat, n: Inode, lo: nat, hi: nat,
      data: seq<nat>, bound: nat)
    requires Stored(was, total, n, lo, hi, data) && Agree(was, blocks, bound) && hi <= bound
    ensures Stored(blocks, total, n, lo, hi, data)
  {
    hide Owned, Listed, Range, Bytes, Chunks;
    assert Similar(was, blocks, hi);
    HoldsBelow(was, total, n, lo, hi);
    OwnedAgree(was, blocks, total, n, hi);
    RangeBelow(lo, lo + Chunks(|data|));
    BytesAgree(was, blocks, Listed(was, total, n), hi);
  }

  lemma AllStoredKeep(was: map<nat, Block>, blocks: map<nat, Block>, total: nat, tab: seq<Inode>, inodes: seq<Inode>,
                      files: seq<File>, bounds: seq<nat>, n: nat, next: nat)
    requires AllStored(was, total, tab, files, bounds, n) && Agree(was, blocks, n) && n <= next
    requires |inodes| == |tab| && forall i :: 7 <= i < 7 + |files| ==> inodes[i] == tab[i]
    ensures AllStored(blocks, total, inodes, files, bounds, next)
  {
    hide Agree, Stored;
    forall f | 0 <= f < |files| ensures Stored(blocks, total, inodes[7 + f], bounds[f], bounds[f + 1], files[f].data) {
      StoredKeep(was, blocks, total, tab[7 + f], bounds[f], bounds[f + 1], files[f].data, n);
    }
  }

  lemma AllStoredMore(was: map<nat, Block>, blocks: map<nat, Block>, total: nat, tab: seq<Inode>, inodes: seq<Inode>,
                      files: seq<File>, k: nat, bounds: seq<nat>, n: nat, next: nat)
    requires k < |files| && AllStored(was, total, tab, files[..k], bounds, n) && Agree(was, blocks, n) && n <= next
    requires bounds[k] == n
    requires 7 + k < |tab| == |inodes| && inodes == tab[7 + k := inodes[7 + k]]
    requires Stored(blocks, total, inodes[7 + k], n, next, files[k].data)
    ensures AllStored(blocks, total, inodes, files[..k + 1], bounds + [next], next)
  {
    hide Agree, Stored;
    AllStoredKeep(was, blocks, total, tab, inodes, files[..k], bounds, n, next);
    var bs := bounds + [next];
    forall f | 0 <= f < k + 1 ensures Stored(blocks, total, inodes[7 + f], bs[f], bs[f + 1], files[..k + 1][f].data) {
      if f < k { assert files[..k][f] == files[f]; }
    }
  }

  lemma SkeletonKeep(was: map<nat, Block>, blocks: map<nat, Block>, total: nat, tab: seq<Inode>, inodes: seq<Inode>,
      n: nat)
    requires Skeleton(was, total, tab) && Agree(was, blocks, n) && n >= DataStart(total) + 6
    requires |inodes| == |tab| && inodes[0] == tab[0] && forall i :: 2 <= i <= 6 ==> inodes[i] == tab[i]
    ensures Skeleton(blocks, total, inodes)
  {
    hide DataStart;
  }

  lemma NoEntries(blocks: map<nat, Block>, total: nat)
    ensures Entries(blocks, total, []) == []
  {
  }

  lemma DataStartPositive(total: nat)
    ensures DataStart(total) > 0
  {
  }

  lemma BelowJournal(total: nat, b: nat)
    requires b < Journal(total)
    ensures b < total
  {
  }

  lemma {:induction false} OccupiedPad(es: seq<Dirent>, nulls: seq<Dirent>)
    requires (forall i :: 0 <= i < |es| ==> es[i].ino != 0) && forall i :: 0 <= i < |nulls| ==> nulls[i].ino == 0
    ensures Occupied(es + nulls) == es
    decreases |es| + |nulls|
  {
    if es != [] {
      assert (es + nulls)[1..] == es[1..] + nulls;
      OccupiedPad(es[1..], nulls);
    } else if nulls != [] {
      assert es + nulls == nulls && nulls[1..] == [] + nulls[1..];
      OccupiedPad([], nulls[1..]);
    }
  }

  lemma {:induction false} EntriesAgree(was: map<nat, Block>, blocks: map<nat, Block>, total: nat, bs: seq<nat>, n: nat)
    requires Agree(was, blocks, n) && forall b :: b in bs ==> b < n
    ensures Entries(was, total, bs) == Entries(blocks, total, bs)
  {
    if bs == [] {
    } else {
      assert bs[0] in bs && forall b :: b in bs[1..] ==> b in bs;
      EntriesAgree(was, blocks, total, bs[1..], n);
    }
  }

  lemma {:induction false} EntriesAppend(blocks: map<nat, Block>, total: nat, bs: seq<nat>, p: nat)
    requires 0 < p < total
    ensures Entries(blocks, total, bs + [p]) == Entries(blocks, total, bs) + Occupied(DirOf(Read(blocks, p)))
  {
    if bs == [] {
      assert bs + [p] == [p] && [p][1..] == [];
    } else {
      assert (bs + [p])[1..] == bs[1..] + [p];
      EntriesAppend(blocks, total, bs[1..], p);
    }
  }

  lemma PackAdded(was: map<nat, Block>, blocks: map<nat, Block>, total: nat, nums: seq<nat>, b: nat,
      packs: seq<seq<Dirent>>, i: nat)
    requires i < |packs| && |packs[i]| <= DIRENTS_PER_BLOCK
    requires forall j :: 0 <= j < |packs[i]| ==> packs[i][j].ino != 0
    requires blocks == was[b := DirBlock(packs[i])] && (forall x :: x in nums ==> x < b) && 0 < b < total
    requires Entries(was, total, nums) == Flat(packs[..i])
    ensures Entries(blocks, total, nums + [b]) == Flat(packs[..i + 1])
  {
    hide Entries, Agree;
    AgreeFresh(was, b, blocks[b]);
    EntriesAgree(was, blocks, total, nums, b);
    EntriesAppend(blocks, total, nums, b);
    OccupiedPad(packs[i], seq(DIRENTS_PER_BLOCK - |packs[i]|, _ => Dirent(0, [], 0)));
    assert packs[..i + 1][..i] == packs[..i];
  }

  const ZERO_INODE: Inode := Inode(0, 0, Pad([], DIRECT), 0, 0)

  lemma ZeroHolds(blocks: map<nat, Block>, total: nat)
    ensures Owned(blocks, total, ZERO_INODE) == [] && !ZERO_INODE.InUse()
  {
    NumsPad([], DIRECT);
  }

  /** A directory block: the entries, then empty ones. */
  function DirBlock(es: seq<Dirent>): Block
    requires |es| <= DIRENTS_PER_BLOCK
  {
    Dir(es + seq(DIRENTS_PER_BLOCK - |es|, _ => Dirent(0, [], 0)))
  }

  lemma DirSimilar(was: map<nat, Block>, b: nat, es: seq<Dirent>, n: nat)
    requires Read(was, b) == Zero && |es| <= DIRENTS_PER_BLOCK
    ensures Similar(was, was[b := DirBlock(es)], n)
  {
  }

  lemma AccountedSimilar(was: map<nat, Block>, blocks: map<nat, Block>, total: nat, inodes: seq<Inode>, n: nat)
    requires Accounted(was, total, inodes, n) && Similar(was, blocks, n)
    ensures Accounted(blocks, total, inodes, n)
  {
    hide Refs, AllBelow, Similar;
    RefsAgree(was, blocks, total, inodes, n);
  }

  /** The inodes and blocks of the fixed directories. */
  ghost predicate Skeleton(blocks: map<nat, Block>, total: nat, inodes: seq<Inode>) {
    var d := DataStart(total);
    && |inodes| == MAX_INODES
    && inodes[0] == MakeInode(0x1ED, 0, [d], 0, 0) && Read(blocks, d) == DirBlock(T.RootEntries())
    && inodes[2] == MakeInode(0x1ED, 0, [d + 1], 0, 0) && Read(blocks, d + 1) == DirBlock(T.VarEntries())
    && inodes[3] == MakeInode(0x1ED, 0, [d + 2], 0, 0) && Read(blocks, d + 2) == Zero
    && inodes[4] == MakeInode(0x1ED, 0, [d + 3], 0, 0) && Read(blocks, d + 3) == Zero
    && inodes[5] == MakeInode(0x1FF, 0, [d + 4], 0, 0) && Read(blocks, d + 4) == Zero
    && inodes[6] == MakeInode(0x1ED, 0, [d + 5], 0, 0) && Read(blocks, d + 5) == Zero
  }

  /** How many blocks a file of this size takes. */
  function Chunks(size: nat): nat {
    (size + BLOCK_SIZE - 1) / BLOCK_SIZE
  }

  lemma ChunkCount(size: nat, n: nat)
    requires size <= BLOCK_SIZE * n < size + BLOCK_SIZE
    ensures n == Chunks(size)
  {
  }

  lemma NoBytes(blocks: map<nat, Block>)
    ensures Bytes(blocks, []) == []
  {
  }

  lemma AgreeFresh(was: map<nat, Block>, b: nat, v: Block)
    ensures Agree(was, was[b := v], b)
  {
  }

  lemma ChunkAdded(was: map<nat, Block>, blocks: map<nat, Block>, bs: seq<nat>, b: nat, data: seq<nat>, i: nat, j: nat)
    requires i < j <= |data| && j == (if i + BLOCK_SIZE < |data| then i + BLOCK_SIZE else |data|)
    requires blocks == was[b := Data(Pad(data[i..j], BLOCK_SIZE))] && (forall x :: x in bs ==> x < b)
    requires Bytes(was, bs) == data[..i]
    ensures i + BLOCK_SIZE <= |data| ==> Bytes(blocks, bs + [b]) == data[..i + BLOCK_SIZE]
    ensures data[..j] <= Bytes(blocks, bs + [b])
  {
    hide Bytes;
    AgreeFresh(was, b, blocks[b]);
    AgreeSimilar(was, blocks, b);
    BytesAgree(was, blocks, bs, b);
    BytesAppend(blocks, bs, b);
    var c := Pad(data[i..j], BLOCK_SIZE);
    assert Bytes(blocks, bs + [b]) == data[..i] + c;
    assert data[..j] == data[..i] + data[i..j];
    if i + BLOCK_SIZE <= |data| { assert c == data[i..j]; }
  }

  /** A file on the image: its blocks in order from lo, its bytes in them, and everything from lo to
      hi held by it once. */
  predicate Stored(blocks: map<nat, Block>, total: nat, n: Inode, lo: nat, hi: nat, data: seq<nat>) {
    && lo + Chunks(|data|) <= hi && n.InUse() && n.size == |data| && n.indirect < hi && n.double < hi
    && Listed(blocks, total, n) == Range(lo, lo + Chunks(|data|))
    && data <= Bytes(blocks, Listed(blocks, total, n))
    && multiset(Owned(blocks, total, n)) == multiset(Range(lo, hi))
  }

  lemma FileStored(b1: map<nat, Block>, blocks: map<nat, Block>, total: nat, n: Inode, lo: nat, n1: nat, hi: nat,
      data: seq<nat>)
    requires lo <= n1 <= hi && Agree(b1, blocks, n1) && Placed(blocks, total, n, Range(lo, n1), n1, hi)
    requires n.mode != 0 && n.size == |data| && n1 - lo == Chunks(|data|) && data <= Bytes(b1, Range(lo, n1))
    ensures Stored(blocks, total, n, lo, hi, data)
  {
    hide Owned, Listed, Bytes, Agree, Range, Chunks;
    RangeBelow(lo, n1);
    AgreeSimilar(b1, blocks, n1);
    BytesAgree(b1, blocks, Range(lo, n1), n1);
    RangeConcat(lo, n1, hi);
  }

  lemma RangeConcat(lo: nat, mid: nat, hi: nat)
    requires lo <= mid <= hi
    ensures Range(lo, mid) + Range(mid, hi) == Range(lo, hi)
    ensures multiset(Range(lo, mid)) + multiset(Range(mid, hi)) == multiset(Range(lo, hi))
  {
    assert Range(lo, mid) + Range(mid, hi) == Range(lo, hi);
  }

  lemma StoredHolds(blocks: map<nat, Block>, total: nat, n: Inode, lo: nat, hi: nat, data: seq<nat>)
    requires Stored(blocks, total, n, lo, hi, data)
    ensures lo <= hi && n.InUse() && n.indirect < hi && n.double < hi
    ensures multiset(Owned(blocks, total, n)) == multiset(Range(lo, hi))
  {
  }

  ghost predicate Accounted(blocks: map<nat, Block>, total: nat, inodes: seq<Inode>, next: nat) {
    && DataStart(total) <= next && AllBelow(blocks, total, inodes, next)
    && multiset(Refs(blocks, total, inodes)) == multiset(Range(DataStart(total), next))
  }

  lemma HoldsBelow(blocks: map<nat, Block>, total: nat, n: Inode, lo: nat, hi: nat)
    requires lo <= hi && n.indirect < hi && n.double < hi
    requires multiset(Owned(blocks, total, n)) == multiset(Range(lo, hi))
    ensures Below(blocks, total, n, hi)
  {
    hide Owned;
    forall b | b in Owned(blocks, total, n) ensures b < hi {
      assert b in multiset(Owned(blocks, total, n));
      assert b in multiset(Range(lo, hi));
      RangeBelow(lo, hi);
    }
  }

  /** One more inode, holding exactly the new blocks. */
  lemma AccountedSet(was: map<nat, Block>, blocks: map<nat, Block>, total: nat, inodes: seq<Inode>, n0: nat, n1: nat,
      k: nat, n: Inode)
    requires Accounted(was, total, inodes, n0) && Agree(was, blocks, n0) && n0 <= n1 && k < |inodes|
    requires !Counts(k, inodes[k]) || Owned(was, total, inodes[k]) == []
    requires n.InUse() && n.indirect < n1 && n.double < n1
    requires multiset(Owned(blocks, total, n)) == multiset(Range(n0, n1))
    ensures Accounted(blocks, total, inodes[k := n], n1)
  {
    hide Owned, Agree, Range, Refs, DataStart, Below, Similar;
    AgreeSimilar(was, blocks, n0);
    RefsAgree(was, blocks, total, inodes, n0);
    if Counts(k, inodes[k]) { OwnedAgree(was, blocks, total, inodes[k], n0); }
    RefsSet(blocks, total, inodes, k, n);
    RangeConcat(DataStart(total), n0, n1);
    HoldsBelow(blocks, total, n, n0, n1);
    forall i | 0 <= i < |inodes| && i != k && Counts(i, inodes[i]) ensures Below(blocks, total, inodes[i], n1) {
      BelowMore(blocks, total, inodes[i], n0, n1);
    }
  }

  lemma BelowMore(blocks: map<nat, Block>, total: nat, n: Inode, n0: nat, n1: nat)
    requires Below(blocks, total, n, n0) && n0 <= n1
    ensures Below(blocks, total, n, n1)
  {
  }

  /** One more group: the list of data blocks grows by it, the list of blocks held also by its
      pointer block. */
  lemma GroupAdded(was: map<nat, Block>, blocks: map<nat, Block>, total: nat, l1: seq<nat>, p: nat, n: nat,
      rest: seq<nat>, i: nat, j: nat)
    requires i <= j <= |rest| && Agree(was, blocks, n) && p == n && (forall b :: b in l1 ==> b < n)
    requires Resolve(blocks, total, p) == rest[i..j]
    requires Level2(was, total, l1, false) == rest[..i]
    requires multiset(Level2(was, total, l1, true)) == multiset(rest[..i]) + multiset(l1)
    ensures Level2(blocks, total, l1 + [p], false) == rest[..j]
    ensures multiset(Level2(blocks, total, l1 + [p], true)) == multiset(rest[..j]) + multiset(l1 + [p])
  {
    hide Level2, Resolve;
    AgreeSimilar(was, blocks, n);
    Level2Agree(was, blocks, total, l1, false, n); Level2Agree(was, blocks, total, l1, true, n);
    Level2Append(blocks, total, l1, p, false); Level2Append(blocks, total, l1, p, true);
    assert rest[..j] == rest[..i] + rest[i..j];
  }

  lemma GroupsStart(blocks: map<nat, Block>, total: nat, rest: seq<nat>)
    ensures Level2(blocks, total, [], false) == rest[..0]
    ensures multiset(Level2(blocks, total, [], true)) == multiset(rest[..0]) + multiset([])
  {
  }

  lemma AgreeSelf(b: map<nat, Block>, n: nat)
    ensures Agree(b, b, n)
  {
  }

  lemma AgreeTrans(b1: map<nat, Block>, b2: map<nat, Block>, b3: map<nat, Block>, n1: nat, n2: nat)
    requires Agree(b1, b2, n1) && Agree(b2, b3, n2) && n1 <= n2
    ensures Agree(b1, b3, n1)
  {
  }

  lemma RangeEmpty(n: nat)
    ensures Range(n, n) == []
  {
  }

  lemma RangeStep(lo: nat, hi: nat)
    requires lo <= hi
    ensures Range(lo, hi + 1) == Range(lo, hi) + [hi]
  {
  }

  lemma RangeBelow(lo: nat, hi: nat)
    requires lo <= hi
    ensures forall b :: b in Range(lo, hi) <==> lo <= b < hi
    ensures lo > 0 ==> Positive(Range(lo, hi))
  {
    forall b | lo <= b < hi ensures b in Range(lo, hi) { assert Range(lo, hi)[b - lo] == b; }
  }

  lemma DirectPlaced(blocks: map<nat, Block>, total: nat, n: Inode, bs: seq<nat>, hi: nat)
    requires |bs| <= DIRECT && Positive(bs) && n == MakeInode(n.mode, n.size, bs, 0, 0) && hi > 0
    ensures Placed(blocks, total, n, bs, hi, hi)
  {
    hide Owned, Listed, Range;
    RangeEmpty(hi);
    PlaceDirect(blocks, total, n, bs);
  }

  lemma SinglePlaced(blocks: map<nat, Block>, total: nat, n: Inode, bs: seq<nat>, direct: seq<nat>, single: seq<nat>)
    requires |direct| <= DIRECT && Positive(direct) && n == MakeInode(n.mode, n.size, direct, n.indirect, 0)
    requires n.indirect > 0 && Resolve(blocks, total, n.indirect) == single && bs == direct + single
    ensures Placed(blocks, total, n, bs, n.indirect, n.indirect + 1)
  {
    hide Owned, Listed, Range, Resolve;
    RangeEmpty(n.indirect);
    RangeStep(n.indirect, n.indirect);
    PlaceSingle(blocks, total, n, direct, single);
    assert [] + [n.indirect] == [n.indirect];
  }

  lemma Sums(direct: seq<nat>, single: seq<nat>, double: nat, l2: seq<nat>, indirect: nat, rest: seq<nat>, l1: seq<nat>)
    requires multiset(l2) == multiset(rest) + multiset(l1)
    ensures multiset(direct + single + ([double] + l2) + [indirect]) ==
        multiset(direct + single + rest) + multiset([indirect] + l1 + [double])
  {
  }

  /** The two levels together. */
  lemma DoublePlaced(b1: map<nat, Block>, b2: map<nat, Block>, b3: map<nat, Block>, total: nat, n1: nat, n2: nat,
                     bs: seq<nat>, direct: seq<nat>, single: seq<nat>, rest: seq<nat>, l1: seq<nat>, n: Inode)
    requires Agree(b1, b2, n1) && Agree(b2, b3, n2) && 0 < n1 <= n2 && bs == direct + single + rest
    requires |direct| <= DIRECT && Positive(direct) && n == MakeInode(n.mode, n.size, direct, n1 - 1, n2)
    requires 0 < n.indirect < total && 0 < n2 < total
    requires Resolve(b1, total, n.indirect) == single && Resolve(b3, total, n2) == l1 && l1 == Range(n1, n2)
    requires Level2(b2, total, l1, false) == rest
    requires multiset(Level2(b2, total, l1, true)) == multiset(rest) + multiset(l1)
    ensures Placed(b3, total, n, bs, n1 - 1, n2 + 1)
  {
    hide Level2, Nums, Owned, Listed, Range, Resolve, Agree;
    ResolveAgree(b1, b2, total, n.indirect, n1);
    ResolveAgree(b2, b3, total, n.indirect, n2);
    RangeBelow(n1, n2);
    AgreeSimilar(b2, b3, n2);
    Level2Agree(b2, b3, total, l1, false, n2); Level2Agree(b2, b3, total, l1, true, n2);
    PlaceDouble(b3, total, n, direct, single, l1);
    Sums(direct, single, n.double, Level2(b3, total, l1, true), n.indirect, rest, l1);
    RangeEnds(n1, n2);
  }

  lemma ResolveAgree(b1: map<nat, Block>, b2: map<nat, Block>, total: nat, p: nat, n: nat)
    requires Agree(b1, b2, n) && p < n
    ensures Resolve(b1, total, p) == Resolve(b2, total, p)
  {
  }

  lemma RangeEnds(n1: nat, n2: nat)
    requires 0 < n1 <= n2
    ensures Range(n1 - 1, n2 + 1) == [n1 - 1] + Range(n1, n2) + [n2]
  {
  }
}
