/** The checker itself (tools/fsck.py): its loops find exactly the images that are not clean, and
    its repair gives back exactly the leaked blocks. */
module Fsck {
  import opened Exfs
  import W = ExfsWalk

  // ----- the scan of the inodes ----------------------------------------------------------------

  /** resolve_indirect, appending to a list. */
  method ResolveInto(img: Image, p: nat, list: seq<nat>) returns (r: seq<nat>, errors: nat)
    ensures r == list + Resolve(img.blocks, img.total, p) && (errors == 0 <==> p < img.total || p == 0)
  {
    r, errors := list, 0;
    if p == 0 { return; }
    if p >= img.total { return r, 1; }
    var ptrs := PtrsOf(Read(img.blocks, p));
    var i := 0;
    while i < |ptrs|
      invariant i <= |ptrs| && r == list + Nums(ptrs[..i])
    {
      NumsConcat(ptrs[..i], [ptrs[i]]);
      assert ptrs[..i + 1] == ptrs[..i] + [ptrs[i]];
      OneNum(ptrs[i]);
      if ptrs[i] != 0 { r := r + [ptrs[i]]; }
      i := i + 1;
    }
    assert ptrs[..i] == ptrs;
  }

  lemma OneNum(p: nat)
    ensures Nums([p]) == if p != 0 then [p] else []
  {
    assert [p][1..] == [];
  }

  /** The loop over the level-one pointers: a pointer out of range is also in the list. */
  method ScanDouble(img: Image, n: Inode, list: seq<nat>) returns (r: seq<nat>, errors: nat)
    requires 0 < n.double < img.total
    ensures r == list + Level2(img.blocks, img.total, Level1(img.blocks, img.total, n.double), true)
    ensures errors != 0 ==> !AllIn(img.total, Level1(img.blocks, img.total, n.double))
  {
    hide Level2, Resolve, Level1;
    var l1 := Level1(img.blocks, img.total, n.double);
    r, errors := list, 0;
    var i := 0;
    NoLevel2(img.blocks, img.total);
    assert l1[..0] == [];
    while i < |l1|
      invariant i <= |l1| && r == list + Level2(img.blocks, img.total, l1[..i], true)
      invariant errors != 0 ==> !AllIn(img.total, l1)
    {
      var bad;
      Level2Append(img.blocks, img.total, l1[..i], l1[i], true);
      assert l1[..i + 1] == l1[..i] + [l1[i]];
      ghost var before := r;
      r, bad := ResolveInto(img, l1[i], r + [l1[i]]);
      assert r == before + ([l1[i]] + Resolve(img.blocks, img.total, l1[i]));
      if bad != 0 { assert l1[i] in l1; }
      errors := errors + bad;
      i := i + 1;
    }
    assert l1[..i] == l1;
  }

  lemma NoLevel2(blocks: map<nat, Block>, total: nat)
    ensures Level2(blocks, total, [], true) == []
  {
  }

  /** The blocks of one inode, as the scan collects them, and its complaints about pointers. */
  method ScanInode(img: Image, n: Inode) returns (list: seq<nat>, errors: nat)
    ensures list == Owned(img.blocks, img.total, n)
    ensures errors == 0 && AllIn(img.total, list) <==> InRange(img, n)
  {
    hide Level2, Resolve, Level1, AllIn;
    list, errors := ResolveInto(img, n.indirect, Nums(n.direct));
    if n.double != 0 {
      if n.double >= img.total {
        errors := errors + 1;
      } else {
        var bad;
        list, bad := ScanDouble(img, n, list + [n.double]);
        Level1Held(img, n);
        errors := errors + bad;
      }
    }
    if n.indirect != 0 { list := list + [n.indirect]; }
    assert list == Owned(img.blocks, img.total, n);
  }

  lemma Level1Held(img: Image, n: Inode)
    requires 0 < n.double < img.total
    ensures AllIn(img.total, Owned(img.blocks, img.total, n)) ==>
        AllIn(img.total, Level1(img.blocks, img.total, n.double))
  {
    hide Level2, Level1, Resolve, Nums;
    var l1 := Level1(img.blocks, img.total, n.double);
    Level2Has(img.blocks, img.total, l1);
    forall b | b in l1 ensures b in Owned(img.blocks, img.total, n) {
      assert b in [n.double] + Level2(img.blocks, img.total, l1, true);
    }
  }

  // ----- who holds which block -------------------------------------------------------------------------

  /** The table of references: for each block in range, one entry per reference. */
  ghost predicate Counted(table: map<nat, seq<nat>>, total: nat, refs: seq<nat>) {
    && (forall b :: b in table <==> b in refs && 0 < b < total)
    && (forall b :: b in table ==> |table[b]| == multiset(refs)[b])
  }

  /** Adding one inode's blocks to the table; a block out of range is an error and is left out. */
  method Record(table: map<nat, seq<nat>>, total: nat, list: seq<nat>, ino: nat, ghost refs: seq<nat>)
    returns (r: map<nat, seq<nat>>, errors: nat)
    requires Counted(table, total, refs)
    ensures Counted(r, total, refs + list) && (errors == 0 <==> AllIn(total, list))
  {
    r, errors := table, 0;
    var i := 0;
    assert refs + list[..0] == refs;
    while i < |list|
      invariant i <= |list| && Counted(r, total, refs + list[..i]) && (errors == 0 <==> AllIn(total, list[..i]))
    {
      var b := list[i];
      CountedMore(r, total, refs + list[..i], b, ino);
      assert refs + list[..i + 1] == refs + list[..i] + [b];
      AllInMore(total, list, i);
      if b == 0 || b >= total {
        errors := errors + 1;
      } else {
        r := r[b := (if b in r then r[b] else []) + [ino]];
      }
      i := i + 1;
    }
    assert list[..i] == list;
  }

  lemma AllInMore(total: nat, list: seq<nat>, i: nat)
    requires i < |list|
    ensures AllIn(total, list[..i + 1]) <==> AllIn(total, list[..i]) && 0 < list[i] < total
  {
    assert list[..i + 1] == list[..i] + [list[i]];
    if AllIn(total, list[..i + 1]) {
      forall b | b in list[..i] ensures 0 < b < total { assert b in list[..i + 1]; }
      assert list[i] in list[..i + 1];
    }
  }

  lemma CountedMore(table: map<nat, seq<nat>>, total: nat, refs: seq<nat>, b: nat, ino: nat)
    requires Counted(table, total, refs)
    ensures 0 < b < total ==> Counted(table[b := (if b in table then table[b] else []) + [ino]], total, refs + [b])
    ensures !(0 < b < total) ==> Counted(table, total, refs + [b])
  {
    assert multiset(refs + [b]) == multiset(refs) + multiset{b};
    if b !in table && 0 < b < total { assert b !in multiset(refs); }
  }

  /** The loop over the inode table. */
  method ScanInodes(img: Image) returns (table: map<nat, seq<nat>>, errors: nat)
    ensures Counted(table, img.total, Refs(img.blocks, img.total, img.inodes))
    ensures errors == 0 <==> forall k :: 0 <= k < |img.inodes| && Counts(k, img.inodes[k]) ==>
        InRange(img, img.inodes[k])
  {
    hide Counted, InRange, Owned;
    table, errors := map[], 0;
    NoneCounted(img.total);
    var k := 0;
    NoRefs(img);
    while k < |img.inodes|
      invariant k <= |img.inodes| && Counted(table, img.total, Refs(img.blocks, img.total, img.inodes[..k]))
      invariant errors == 0 <==> forall j :: 0 <= j < k && Counts(j, img.inodes[j]) ==> InRange(img, img.inodes[j])
    {
      RefsStep(img, k);
      if Counts(k, img.inodes[k]) {
        var list, bad := ScanInode(img, img.inodes[k]);
        errors := errors + bad;
        table, bad := Record(table, img.total, list, k, Refs(img.blocks, img.total, img.inodes[..k]));
        errors := errors + bad;
      }
      k := k + 1;
    }
    assert img.inodes[..k] == img.inodes;
  }

  lemma NoneCounted(total: nat)
    ensures Counted(map[], total, [])
  {
  }

  lemma NoRefs(img: Image)
    ensures Refs(img.blocks, img.total, img.inodes[..0]) == []
  {
  }

  lemma RefsStep(img: Image, k: nat)
    requires k < |img.inodes|
    ensures var refs := Refs(img.blocks, img.total, img.inodes[..k]);
            var more := Refs(img.blocks, img.total, img.inodes[..k + 1]);
            more == if Counts(k, img.inodes[k]) then refs + Owned(img.blocks, img.total, img.inodes[k]) else refs
  {
    assert img.inodes[..k + 1][..k] == img.inodes[..k];
    assert Refs(img.blocks, img.total, img.inodes[..k]) + [] == Refs(img.blocks, img.total, img.inodes[..k]);
  }

  lemma {:induction false} Level2Nonzero(blocks: map<nat, Block>, total: nat, l1: seq<nat>)
    requires 0 !in l1
    ensures 0 !in Level2(blocks, total, l1, true)
  {
    if l1 == [] {
    } else {
      assert l1[0] in l1 && forall b :: b in l1[1..] ==> b in l1;
      Level2Nonzero(blocks, total, l1[1..]);
    }
  }

  lemma OwnedNonzero(blocks: map<nat, Block>, total: nat, n: Inode)
    ensures 0 !in Owned(blocks, total, n)
  {
    hide Level2;
    Level2Nonzero(blocks, total, Level1(blocks, total, n.double));
  }

  lemma {:induction false} RefsNonzero(blocks: map<nat, Block>, total: nat, inodes: seq<Inode>)
    ensures 0 !in Refs(blocks, total, inodes)
  {
    if inodes == [] {
    } else {
      var last := |inodes| - 1;
      hide Owned;
      RefsNonzero(blocks, total, inodes[..last]);
      OwnedNonzero(blocks, total, inodes[last]);
    }
  }

  // ----- the bitmap ------------------------------------------------------------------------------------------

  /** A used bit for a block that is neither reserved nor held. */
  predicate Leaked(img: Image, b: nat) {
    b < |img.bits| && img.bits[b] && !Reserved(img, b) && b !in Refs(img.blocks, img.total, img.inodes)
  }

  /** A clear bit for one that is. */
  predicate Unmarked(img: Image, b: nat) {
    b < |img.bits| && !img.bits[b] && (Reserved(img, b) || b in Refs(img.blocks, img.total, img.inodes))
  }

  /** The cross-check: the leaked blocks in order, and how many are not marked. */
  method CrossCheck(img: Image, table: map<nat, seq<nat>>) returns (leaked: seq<nat>, errors: nat)
    requires img.total <= |img.bits| && Counted(table, img.total, Refs(img.blocks, img.total, img.inodes))
    ensures forall b :: b in leaked <==> 0 <= b < img.total && Leaked(img, b)
    ensures errors == 0 <==> forall b :: 0 <= b < img.total ==> !Unmarked(img, b)
  {
    hide Refs;
    RefsNonzero(img.blocks, img.total, img.inodes);
    leaked, errors := [], 0;
    var b := 0;
    while b < img.total
      invariant b <= img.total && (forall x :: x in leaked <==> 0 <= x < b && Leaked(img, x))
      invariant errors == 0 <==> forall x :: 0 <= x < b ==> !Unmarked(img, x)
    {
      assert b in table <==> b in Refs(img.blocks, img.total, img.inodes);
      assert Unmarked(img, b) <==> !img.bits[b] && (Reserved(img, b) || b in table);
      if Reserved(img, b) {
        if !img.bits[b] { errors := errors + 1; }
      } else if b in table {
        if !img.bits[b] { errors := errors + 1; }
      } else if img.bits[b] {
        leaked := leaked + [b];
      }
      b := b + 1;
    }
  }

  // ----- the directory walk -------------------------------------------------------------------------------------

  lemma JoinAssociates(a: Walked, b: Walked, c: Walked)
    ensures a.Join(b).Join(c) == a.Join(b.Join(c))
  {
    assert a.reached + b.reached + c.reached == a.reached + (b.reached + c.reached);
  }

  /** One entry of the walk. */
  lemma WalkCons(img: Image, es: seq<Dirent>, seen: set<seq<nat>>, depth: nat, here: Walked)
    requires depth <= MAX_DEPTH && es != []
    requires here == if !Used(img.inodes, es[0].ino) then Walked({}, false, true, false)
                     else if es[0].ftype == 1 then Walk(img, es[0].ino, depth + 1)
                     else Walked({es[0].ino}, false, false, false)
    ensures WalkEntries(img, es, seen, depth)
         == Walked({}, es[0].name in seen, false, false).Join(here)
            .Join(WalkEntries(img, es[1..], seen + {es[0].name}, depth))
  {
  }

  lemma WalkNone(img: Image, seen: set<seq<nat>>, depth: nat, w: Walked)
    requires depth <= MAX_DEPTH
    ensures w.Join(WalkEntries(img, [], seen, depth)) == w
  {
    assert w.reached + {} == w.reached;
  }

  lemma WalkStops(img: Image, ino: nat, depth: nat)
    ensures depth > MAX_DEPTH ==> Walk(img, ino, depth) == Walked({}, false, false, true)
    ensures depth <= MAX_DEPTH && !Used(img.inodes, ino) ==> Walk(img, ino, depth) == Walked({}, false, false, false)
  {
  }

  /** walk_dir. */
  method WalkDir(img: Image, ino: nat, depth: nat) returns (w: Walked)
    ensures w == Walk(img, ino, depth)
    decreases MAX_DEPTH + 1 - depth
  {
    hide Walk, WalkEntries, Contents, Walked.Join;
    WalkStops(img, ino, depth);
    if depth > MAX_DEPTH { return Walked({}, false, false, true); }
    if !Used(img.inodes, ino) { return Walked({}, false, false, false); }
    var es := Contents(img, ino);
    W.WalkDir(img, ino, depth);
    w := Walked({ino}, false, false, false);
    var seen: set<seq<nat>> := {};
    var i := 0;
    assert es[0..] == es;
    while i < |es|
      invariant i <= |es|
      invariant w.Join(WalkEntries(img, es[i..], seen, depth)) == Walk(img, ino, depth)
    {
      var e := es[i];
      assert es[i..][0] == e && es[i..][1..] == es[i + 1..];
      var here;
      if !Used(img.inodes, e.ino) {
        here := Walked({}, false, true, false);
      } else if e.ftype == 1 {
        here := WalkDir(img, e.ino, depth + 1);
      } else {
        here := Walked({e.ino}, false, false, false);
      }
      WalkCons(img, es[i..], seen, depth, here);
      var name := Walked({}, e.name in seen, false, false);
      JoinAssociates(w, name.Join(here), WalkEntries(img, es[i + 1..], seen + {e.name}, depth));
      w := w.Join(name.Join(here));
      seen := seen + {e.name};
      i := i + 1;
    }
    assert es[i..] == [];
    WalkNone(img, seen, depth, w);
  }

  // ----- the tool ----------------------------------------------------------------------------------------------

  /** fsck without --fix. `fatal` is a wrong magic number, or a bitmap too short to read. */
  method Check(img: Image) returns (fatal: bool, errors: nat, warnings: nat)
    ensures !fatal && errors == 0 && warnings == 0 <==> Clean(img)
  {
    hide Refs, InRange, Walk, Owned, TreeClean;
    fatal, errors, warnings := false, 0, 0;
    if img.magic != EXFS_MAGIC || img.total > |img.bits| {
      fatal := true;
      return;
    }
    if !(img.dataStart < img.provenance <= img.total) { errors := errors + 1; }
    if img.journalSize != 0 && !(img.journal + img.journalSize <= img.provenance) { errors := errors + 1; }
    if img.journalSize != 0 && img.pending { warnings := warnings + 1; }
    var table, bad := ScanInodes(img);
    errors := errors + bad;
    bad := CrossLinked(table, img.total, Refs(img.blocks, img.total, img.inodes));
    errors := errors + bad;
    var leaked;
    leaked, bad := CrossCheck(img, table);
    errors := errors + bad;
    if leaked != [] { warnings := warnings + 1; }
    var w := WalkDir(img, 0, 0);
    if w.dup || w.dangling || w.deep { errors := errors + 1; }
    bad := Orphans(img, w.reached);
    warnings := warnings + bad;
    W.WalkCleanIff(img);
    if errors == 0 || Clean(img) { Verdict(img, leaked, table); }
  }

  /** The loop over the table of references. */
  method CrossLinked(table: map<nat, seq<nat>>, total: nat, ghost refs: seq<nat>) returns (errors: nat)
    requires Counted(table, total, refs)
    ensures errors == 0 <==> forall b :: b in table ==> multiset(refs)[b] == 1
  {
    errors := 0;
    var left := table.Keys;
    while left != {}
      invariant left <= table.Keys
      invariant errors == 0 <==> forall b :: b in table.Keys - left ==> multiset(refs)[b] == 1
      decreases |left|
    {
      var b :| b in left;
      assert multiset(refs)[b] >= 1;
      if |table[b]| > 1 { errors := errors + 1; }
      left := left - {b};
    }
  }

  /** Inodes in use that the walk did not reach. */
  method Orphans(img: Image, reached: set<nat>) returns (n: nat)
    ensures n == 0 <==> forall ino :: 0 < ino < |img.inodes| && img.inodes[ino].InUse() ==> ino in reached
  {
    n := 0;
    var i := 1;
    while i < |img.inodes|
      invariant n == 0 <==> forall ino :: 0 < ino < i && ino < |img.inodes| && img.inodes[ino].InUse() ==>
          ino in reached
    {
      if img.inodes[i].InUse() && i !in reached { n := n + 1; }
      i := i + 1;
    }
  }

  /** With every pointer in range, the checks on the table and the bitmap are the ones of Clean. */
  lemma Verdict(img: Image, leaked: seq<nat>, table: map<nat, seq<nat>>)
    requires img.total <= |img.bits| && Counted(table, img.total, Refs(img.blocks, img.total, img.inodes))
    requires forall b :: b in leaked <==> 0 <= b < img.total && Leaked(img, b)
    requires forall k :: 0 <= k < |img.inodes| && Counts(k, img.inodes[k]) ==> InRange(img, img.inodes[k])
    ensures BlocksClean(img) <==>
            && (forall b :: b in table ==> multiset(Refs(img.blocks, img.total, img.inodes))[b] == 1)
            && leaked == [] && (forall b :: 0 <= b < img.total ==> !Unmarked(img, b))
  {
    hide Refs;
    var refs := Refs(img.blocks, img.total, img.inodes);
    RefsInRange(img, img.inodes);
    assert forall b :: b in table <==> b in refs;
    assert leaked == [] <==> forall b :: 0 <= b < img.total ==> !Leaked(img, b) by {
      if leaked != [] { assert leaked[0] in leaked; }
    }
    forall b | 0 <= b < img.total
      ensures (img.bits[b] <==> Reserved(img, b) || b in refs) <==> !Leaked(img, b) && !Unmarked(img, b)
    {
    }
  }

  lemma {:induction false} RefsInRange(img: Image, inodes: seq<Inode>)
    requires forall k :: 0 <= k < |inodes| && Counts(k, inodes[k]) ==> InRange(img, inodes[k])
    ensures forall b :: b in Refs(img.blocks, img.total, inodes) ==> 0 < b < img.total
    decreases |inodes|
  {
    hide Owned;
    if inodes == [] {
    } else {
      RefsInRange(img, inodes[..|inodes| - 1]);
    }
  }

  // ----- the repair -----------------------------------------------------------------------------------------------

  /** --fix: clear the bits of the leaked blocks. */
  method Fix(img: Image, leaked: seq<nat>) returns (r: Image)
    requires img.total <= |img.bits| && forall b :: b in leaked <==> 0 <= b < img.total && Leaked(img, b)
    ensures r == img.(bits := r.bits) && |r.bits| == |img.bits|
    ensures forall b :: 0 <= b < |img.bits| ==> (r.bits[b] <==> img.bits[b] && !(b < img.total && Leaked(img, b)))
  {
    var bits := img.bits;
    var i := 0;
    while i < |leaked|
      invariant i <= |leaked| && |bits| == |img.bits|
      invariant forall b :: 0 <= b < |bits| ==> (bits[b] <==> img.bits[b] && b !in leaked[..i])
    {
      assert leaked[i] in leaked;
      bits := bits[leaked[i] := false];
      i := i + 1;
    }
    assert leaked[..i] == leaked;
    r := img.(bits := bits);
  }

  /** Every check but the one for leaks. */
  ghost predicate CleanButLeaks(img: Image) {
    && img.magic == EXFS_MAGIC && Ordered(img) && !(img.journalSize != 0 && img.pending)
    && (forall ino :: 0 <= ino < |img.inodes| && Counts(ino, img.inodes[ino]) ==> InRange(img, img.inodes[ino]))
    && (forall b :: b in Refs(img.blocks, img.total, img.inodes) ==>
          multiset(Refs(img.blocks, img.total, img.inodes))[b] == 1)
    && (forall b :: 0 <= b < img.total ==> !Unmarked(img, b)) && TreeClean(img)
  }

  /** The repair takes no block from anyone and leaves nothing leaked: an image is clean afterwards
      exactly when leaked blocks were its only fault. */
  lemma FixReclaims(img: Image, r: Image)
    requires img.total <= |img.bits| && r == img.(bits := r.bits) && |r.bits| == |img.bits|
    requires forall b :: 0 <= b < |img.bits| ==> (r.bits[b] <==> img.bits[b] && !(b < img.total && Leaked(img, b)))
    ensures forall b :: 0 <= b < img.total ==> !Leaked(r, b) && (Unmarked(r, b) <==> Unmarked(img, b))
    ensures Clean(r) <==> CleanButLeaks(img)
  {
    hide Refs, Walk, Owned, TreeClean;
    SameWalk(img, r, 0, 0);
    W.WalkCleanIff(img);
    W.WalkCleanIff(r);
    forall b | 0 <= b < img.total
      ensures !Leaked(r, b) && (Unmarked(r, b) <==> Unmarked(img, b))
      ensures (r.bits[b] <==> Reserved(r, b) || b in Refs(r.blocks, r.total, r.inodes)) <==> !Unmarked(r, b)
    {
    }
    forall n ensures InRange(r, n) == InRange(img, n) {}
  }

  /** The walk does not read the bitmap. */
  lemma {:induction false} SameWalk(img: Image, r: Image, ino: nat, depth: nat)
    requires r == img.(bits := r.bits)
    ensures Walk(r, ino, depth) == Walk(img, ino, depth)
    decreases MAX_DEPTH + 1 - depth, 1, 0
  {
    if depth <= MAX_DEPTH && Used(img.inodes, ino) {
      SameEntries(img, r, Contents(img, ino), {}, depth);
    }
  }

  lemma {:induction false} SameEntries(img: Image, r: Image, es: seq<Dirent>, seen: set<seq<nat>>, depth: nat)
    requires r == img.(bits := r.bits) && depth <= MAX_DEPTH
    ensures WalkEntries(r, es, seen, depth) == WalkEntries(img, es, seen, depth)
    decreases MAX_DEPTH + 1 - depth, 0, |es|
  {
    if es == [] {
    } else {
      SameWalk(img, r, es[0].ino, depth + 1);
      SameEntries(img, r, es[1..], seen + {es[0].name}, depth);
    }
  }
}
