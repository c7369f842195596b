/** ExFS images as the checker sees them (tools/fsck.py), with blocks and inodes as typed values
    instead of packed bytes. */
module Exfs {

  const BLOCK_SIZE: nat := 4096
  const BITS_PER_BLK: nat := 32768
  const MAX_INODES: nat := 4096
  const INODE_BLOCKS: nat := 256
  const DIRECT: nat := 12
  const INDIRECT_PTRS: nat := 512
  const DIRENTS_PER_BLOCK: nat := 15
  const PROVENANCE_SIZE: nat := 16
  const JOURNAL_SIZE: nat := 17
  const EXFS_MAGIC: nat := 0x45584653
  const NAME_FIELD: nat := 256
  const MAX_DEPTH: nat := 64

  /** A name is a string of bytes; ino 0 marks an empty entry. */
  datatype Dirent = Dirent(ino: nat, name: seq<nat>, ftype: nat)

  datatype Block = Zero | Data(bytes: seq<nat>) | Ptrs(ptrs: seq<nat>) | Dir(entries: seq<Dirent>)

  datatype Inode = Inode(mode: nat, size: nat, direct: seq<nat>, indirect: nat, double: nat) {
    predicate InUse() { mode != 0 || size != 0 }
  }

  /** The superblock's fields, the journal header's state, the bitmap, the inode table and the
      blocks written; every other block is zero. */
  datatype Image = Image(magic: nat, total: nat, dataStart: nat, provenance: nat, journal: nat, journalSize: nat,
                         pending: bool, bits: seq<bool>, inodes: seq<Inode>, blocks: map<nat, Block>)

  // ----- reading -------------------------------------------------------------------------------

  function Read(blocks: map<nat, Block>, b: nat): Block {
    if b in blocks then blocks[b] else Zero
  }

  function PtrsOf(b: Block): seq<nat> {
    if b.Ptrs? then b.ptrs else []
  }

  function BytesOf(b: Block): seq<nat> {
    if b.Data? then b.bytes else []
  }

  /** The entries that are not zero. */
  function Nums(s: seq<nat>): (r: seq<nat>)
    ensures forall x :: x in r ==> x != 0 && x in s
  {
    if s == [] then [] else if s[0] != 0 then [s[0]] + Nums(s[1..]) else Nums(s[1..])
  }

  /** resolve_indirect. */
  function Resolve(blocks: map<nat, Block>, total: nat, p: nat): seq<nat> {
    if p == 0 || p >= total then [] else Nums(PtrsOf(Read(blocks, p)))
  }

  /** The level-two pointer blocks, themselves included or not. */
  function Level2(blocks: map<nat, Block>, total: nat, l1: seq<nat>, self: bool): seq<nat> {
    if l1 == [] then []
    else (if self then [l1[0]] else []) + Resolve(blocks, total, l1[0]) + Level2(blocks, total, l1[1..], self)
  }

  function Level1(blocks: map<nat, Block>, total: nat, double: nat): seq<nat> {
    Resolve(blocks, total, double)
  }

  /** Every block an inode holds, in the order of the inode scan. */
  function Owned(blocks: map<nat, Block>, total: nat, n: Inode): seq<nat> {
    Nums(n.direct) + Resolve(blocks, total, n.indirect)
    + (if 0 < n.double < total then [n.double] + Level2(blocks, total, Level1(blocks, total, n.double), true) else [])
    + (if n.indirect != 0 then [n.indirect] else [])
  }

  /** The data blocks of an inode, in the order of walk_dir. */
  function Listed(blocks: map<nat, Block>, total: nat, n: Inode): seq<nat> {
    Nums(n.direct) + Resolve(blocks, total, n.indirect)
    + (if 0 < n.double < total then Level2(blocks, total, Level1(blocks, total, n.double), false) else [])
  }

  /** The bytes of a list of blocks. */
  function Bytes(blocks: map<nat, Block>, bs: seq<nat>): seq<nat> {
    if bs == [] then []
    else BytesOf(Read(blocks, bs[0])) + Bytes(blocks, bs[1..])
  }

  // ----- the checks on blocks -----------------------------------------------------------------------

  /** The inodes the scan looks at: the root always, the others when in use. */
  predicate Counts(ino: nat, n: Inode) {
    ino == 0 || n.InUse()
  }

  /** All references, inode by inode. */
  function Refs(blocks: map<nat, Block>, total: nat, inodes: seq<Inode>): seq<nat> {
    if inodes == [] then []
    else
      var last := |inodes| - 1;
      Refs(blocks, total, inodes[..last])
      + if Counts(last, inodes[last]) then Owned(blocks, total, inodes[last]) else []
  }

  predicate Reserved(img: Image, b: nat) {
    || b < img.dataStart
    || (img.journalSize != 0 && img.journal <= b < img.journal + img.journalSize)
    || img.provenance <= b < img.total
  }

  /** The superblock's regions are in order. */
  predicate Ordered(img: Image) {
    && img.dataStart < img.provenance <= img.total
    && (img.journalSize != 0 ==> img.journal + img.journalSize <= img.provenance)
  }

  predicate AllIn(total: nat, list: seq<nat>) {
    forall b :: b in list ==> 0 < b < total
  }

  predicate InRange(img: Image, n: Inode) {
    && (n.indirect == 0 || n.indirect < img.total) && (n.double == 0 || n.double < img.total)
    && AllIn(img.total, Owned(img.blocks, img.total, n))
  }

  // ----- the directory walk --------------------------------------------------------------------------

  function DirOf(b: Block): seq<Dirent> {
    if b.Dir? then b.entries else []
  }

  function Occupied(es: seq<Dirent>): (r: seq<Dirent>) {
    if es == [] then [] else if es[0].ino != 0 then [es[0]] + Occupied(es[1..]) else Occupied(es[1..])
  }

  /** The entries of a directory. */
  function Entries(blocks: map<nat, Block>, total: nat, bs: seq<nat>): seq<Dirent> {
    if bs == [] then []
    else (if 0 < bs[0] < total then Occupied(DirOf(Read(blocks, bs[0]))) else []) + Entries(blocks, total, bs[1..])
  }

  /** What the walk collects: inodes reached, and whether it met a repeated name, an entry for an
      unused inode, or too deep a tree. */
  datatype Walked = Walked(reached: set<nat>, dup: bool, dangling: bool, deep: bool) {
    function Join(w: Walked): Walked {
      Walked(reached + w.reached, dup || w.dup, dangling || w.dangling, deep || w.deep)
    }
  }

  predicate Used(inodes: seq<Inode>, ino: nat) {
    ino < |inodes| && Counts(ino, inodes[ino])
  }

  /** walk_dir. */
  function Walk(img: Image, ino: nat, depth: nat): Walked
    decreases MAX_DEPTH + 1 - depth, 1, 0
  {
    if depth > MAX_DEPTH then Walked({}, false, false, true)
    else if !Used(img.inodes, ino) then Walked({}, false, false, false)
    else
      Walked({ino}, false, false, false)
      .Join(WalkEntries(img, Contents(img, ino), {}, depth))
  }

  function WalkEntries(img: Image, es: seq<Dirent>, seen: set<seq<nat>>, depth: nat): Walked
    requires depth <= MAX_DEPTH
    decreases MAX_DEPTH + 1 - depth, 0, |es|
  {
    if es == [] then Walked({}, false, false, false)
    else
      var e := es[0];
      var here :=
        if !Used(img.inodes, e.ino) then Walked({}, false, true, false)
        else if e.ftype == 1 then Walk(img, e.ino, depth + 1)
        else Walked({e.ino}, false, false, false);
      Walked({}, e.name in seen, false, false).Join(here).Join(WalkEntries(img, es[1..], seen + {e.name}, depth))
  }

  // ----- a clean image ------------------------------------------------------------------------------------

  /** Every block is held at most once, and the bitmap marks exactly the reserved and held ones. */
  predicate BlocksClean(img: Image) {
    var refs := Refs(img.blocks, img.total, img.inodes);
    && (forall b :: b in refs ==> multiset(refs)[b] == 1)
    && img.total <= |img.bits|
    && (forall b :: 0 <= b < img.total ==> (img.bits[b] <==> Reserved(img, b) || b in refs))
  }

  /** A path of directories, each named by an entry of the one before. */
  predicate Trail(img: Image, p: seq<nat>) {
    && p != [] && (forall k :: 0 <= k < |p| ==> Used(img.inodes, p[k]))
    && (forall k :: 0 <= k < |p| - 1 ==> Subdirectory(img, p[k], p[k + 1]))
  }

  predicate Subdirectory(img: Image, d: nat, ino: nat) {
    exists j :: 0 <= j < |Contents(img, d)| && Contents(img, d)[j].ino == ino && Contents(img, d)[j].ftype == 1
  }

  /** The directory itself, or what an entry of it that is no directory names. */
  predicate Holds(img: Image, d: nat, ino: nat) {
    ino == d || (Used(img.inodes, ino) && exists j :: 0 <= j < |Contents(img, d)| && Names(Contents(img, d)[j], ino))
  }

  predicate Names(e: Dirent, ino: nat) {
    e.ino == ino && e.ftype != 1
  }

  function Contents(img: Image, ino: nat): seq<Dirent> {
    if ino < |img.inodes| then Entries(img.blocks, img.total, Listed(img.blocks, img.total, img.inodes[ino])) else []
  }

  predicate Distinct(es: seq<Dirent>) {
    forall i, j :: 0 <= i < j < |es| ==> es[i].name != es[j].name
  }

  predicate AllUsed(img: Image, es: seq<Dirent>) {
    forall j :: 0 <= j < |es| ==> Used(img.inodes, es[j].ino)
  }

  /** No path from the root is longer than 65 directories, no directory on one has a name twice or an
      entry for an unused inode, and every inode in use is in the tree. */
  ghost predicate TreeClean(img: Image) {
    && (forall p :: Trail(img, p) && p[0] == 0 ==>
          |p| <= MAX_DEPTH + 1 && Distinct(Contents(img, p[|p| - 1])) && AllUsed(img, Contents(img, p[|p| - 1])))
    && (forall ino :: 0 < ino < |img.inodes| && img.inodes[ino].InUse() ==>
          exists p :: Trail(img, p) && p[0] == 0 && Holds(img, p[|p| - 1], ino))
  }

  /** fsck reports no error and no warning. */
  ghost predicate Clean(img: Image) {
    && img.magic == EXFS_MAGIC && Ordered(img) && !(img.journalSize != 0 && img.pending)
    && (forall ino :: 0 <= ino < |img.inodes| && Counts(ino, img.inodes[ino]) ==> InRange(img, img.inodes[ino]))
    && BlocksClean(img) && TreeClean(img)
  }

  // ----- facts ---------------------------------------------------------------------------------------------

  function Pad(s: seq<nat>, n: nat): (r: seq<nat>)
    requires |s| <= n
    ensures |r| == n && s <= r
  {
    s + seq(n - |s|, _ => 0)
  }

  lemma {:induction false} NumsConcat(a: seq<nat>, b: seq<nat>)
    ensures Nums(a + b) == Nums(a) + Nums(b)
  {
    if a == [] {
      assert a + b == b;
    } else {
      assert (a + b)[1..] == a[1..] + b;
      NumsConcat(a[1..], b);
    }
  }

  lemma {:induction false} NumsZeros(z: seq<nat>)
    requires forall i :: 0 <= i < |z| ==> z[i] == 0
    ensures Nums(z) == []
  {
    if z == [] {
    } else {
      NumsZeros(z[1..]);
    }
  }

  lemma {:induction false} NumsAll(s: seq<nat>)
    requires forall i :: 0 <= i < |s| ==> s[i] != 0
    ensures Nums(s) == s
  {
    if s == [] {
    } else {
      NumsAll(s[1..]);
    }
  }

  lemma NumsPad(s: seq<nat>, n: nat)
    requires |s| <= n && forall i :: 0 <= i < |s| ==> s[i] != 0
    ensures Nums(Pad(s, n)) == s
  {
    NumsConcat(s, seq(n - |s|, _ => 0));
    NumsZeros(seq(n - |s|, _ => 0));
    NumsAll(s);
  }

  /** Two stores hold the same blocks below n. */
  predicate Agree(blocks: map<nat, Block>, blocks': map<nat, Block>, n: nat) {
    forall b :: 0 <= b < n ==> Read(blocks, b) == Read(blocks', b)
  }

  /** Two stores hold the same pointers and data below n. */
  predicate Similar(blocks: map<nat, Block>, blocks': map<nat, Block>, n: nat) {
    forall b :: 0 <= b < n ==>
      PtrsOf(Read(blocks, b)) == PtrsOf(Read(blocks', b)) && BytesOf(Read(blocks, b)) == BytesOf(Read(blocks', b))
  }

  lemma AgreeSimilar(blocks: map<nat, Block>, blocks': map<nat, Block>, n: nat)
    requires Agree(blocks, blocks', n)
    ensures Similar(blocks, blocks', n)
  {
  }

  lemma {:induction false} Level2Agree(blocks: map<nat, Block>, blocks': map<nat, Block>, total: nat, l1: seq<nat>,
      self: bool, n: nat)
    requires Similar(blocks, blocks', n) && forall b :: b in l1 ==> b < n
    ensures Level2(blocks, total, l1, self) == Level2(blocks', total, l1, self)
  {
    if l1 == [] {
    } else {
      assert l1[0] in l1 && forall b :: b in l1[1..] ==> b in l1;
      Level2Agree(blocks, blocks', total, l1[1..], self, n);
    }
  }

  lemma {:induction false} Level2Append(blocks: map<nat, Block>, total: nat, l1: seq<nat>, p: nat, self: bool)
    ensures Level2(blocks, total, l1 + [p], self)
         == Level2(blocks, total, l1, self) + ((if self then [p] else []) + Resolve(blocks, total, p))
  {
    if l1 == [] {
      assert [p][1..] == [] && l1 + [p] == [p];
    } else {
      assert (l1 + [p])[1..] == l1[1..] + [p];
      Level2Append(blocks, total, l1[1..], p, self);
    }
  }

  /** Every pointer block of an inode lies below n. */
  predicate Below(blocks: map<nat, Block>, total: nat, inode: Inode, n: nat) {
    inode.indirect < n && inode.double < n && forall b :: b in Owned(blocks, total, inode) ==> b < n
  }

  /** What an inode holds depends only on the blocks below its bound. */
  lemma OwnedAgree(blocks: map<nat, Block>, blocks': map<nat, Block>, total: nat, inode: Inode, n: nat)
    requires Similar(blocks, blocks', n) && Below(blocks, total, inode, n)
    ensures Owned(blocks', total, inode) == Owned(blocks, total, inode)
    ensures Listed(blocks', total, inode) == Listed(blocks, total, inode)
    ensures Below(blocks', total, inode, n)
  {
    if 0 < inode.double < total {
      var l1 := Level1(blocks, total, inode.double);
      Level2Has(blocks, total, l1);
      assert forall b :: b in l1 ==> b in Owned(blocks, total, inode);
      Level2Agree(blocks, blocks', total, l1, true, n);
      Level2Agree(blocks, blocks', total, l1, false, n);
    }
  }

  lemma {:induction false} Level2Has(blocks: map<nat, Block>, total: nat, l1: seq<nat>)
    ensures forall b :: b in l1 ==> b in Level2(blocks, total, l1, true)
  {
    if l1 == [] {
    } else {
      Level2Has(blocks, total, l1[1..]);
    }
  }

  lemma {:induction false} BytesAgree(blocks: map<nat, Block>, blocks': map<nat, Block>, bs: seq<nat>, n: nat)
    requires Similar(blocks, blocks', n) && forall b :: b in bs ==> b < n
    ensures Bytes(blocks, bs) == Bytes(blocks', bs)
  {
    if bs == [] {
    } else {
      assert bs[0] in bs && forall b :: b in bs[1..] ==> b in bs;
      BytesAgree(blocks, blocks', bs[1..], n);
    }
  }

  lemma {:induction false} BytesAppend(blocks: map<nat, Block>, bs: seq<nat>, p: nat)
    ensures Bytes(blocks, bs + [p]) == Bytes(blocks, bs) + BytesOf(Read(blocks, p))
  {
    if bs == [] {
      assert bs + [p] == [p] && [p][1..] == [];
    } else {
      assert (bs + [p])[1..] == bs[1..] + [p];
      BytesAppend(blocks, bs[1..], p);
    }
  }

  /** Every inode that counts keeps to the blocks below n. */
  predicate AllBelow(blocks: map<nat, Block>, total: nat, inodes: seq<Inode>, n: nat) {
    forall i :: 0 <= i < |inodes| && Counts(i, inodes[i]) ==> Below(blocks, total, inodes[i], n)
  }

  lemma {:induction false} RefsAgree(blocks: map<nat, Block>, blocks': map<nat, Block>, total: nat,
      inodes: seq<Inode>, n: nat)
    requires Similar(blocks, blocks', n) && AllBelow(blocks, total, inodes, n)
    ensures Refs(blocks', total, inodes) == Refs(blocks, total, inodes) && AllBelow(blocks', total, inodes, n)
    decreases |inodes|
  {
    hide Below, Owned, Listed, Similar;
    if inodes == [] {
    } else {
      var last := |inodes| - 1;
      RefsAgree(blocks, blocks', total, inodes[..last], n);
      if Counts(last, inodes[last]) { OwnedAgree(blocks, blocks', total, inodes[last], n); }
      forall i | 0 <= i < |inodes| && Counts(i, inodes[i]) ensures Below(blocks', total, inodes[i], n) {
        if i < last { assert inodes[..last][i] == inodes[i]; }
      }
    }
  }

  /** Filling an inode that held nothing adds just what it holds. */
  lemma {:induction false} RefsSet(blocks: map<nat, Block>, total: nat, inodes: seq<Inode>, k: nat, n: Inode)
    requires k < |inodes| && Counts(k, n) && (!Counts(k, inodes[k]) || Owned(blocks, total, inodes[k]) == [])
    ensures multiset(Refs(blocks, total, inodes[k := n])) ==
        multiset(Refs(blocks, total, inodes)) + multiset(Owned(blocks, total, n))
    decreases |inodes|
  {
    hide Owned, Refs, Counts;
    var last, filled := |inodes| - 1, inodes[k := n];
    RefsLast(blocks, total, inodes);
    RefsLast(blocks, total, filled);
    if k == last {
      assert filled[..last] == inodes[..last];
      assert !Counts(k, inodes[k]) || multiset(Owned(blocks, total, inodes[k])) == multiset{};
    } else {
      assert filled[..last] == inodes[..last][k := n] && filled[last] == inodes[last];
      RefsSet(blocks, total, inodes[..last], k, n);
    }
  }

  lemma RefsLast(blocks: map<nat, Block>, total: nat, inodes: seq<Inode>)
    requires inodes != []
    ensures var last := |inodes| - 1;
            multiset(Refs(blocks, total, inodes)) == multiset(Refs(blocks, total, inodes[..last]))
              + if Counts(last, inodes[last]) then multiset(Owned(blocks, total, inodes[last])) else multiset{}
  {
  }
}
