/** The directory tree of a new image, as the checker walks it. */
module ExfsTree {
  import opened Exfs
  import opened ExfsWalk

  function RootEntries(): seq<Dirent> {
    [Dirent(1, [98, 105, 110], 1), Dirent(2, [118, 97, 114], 1), Dirent(5, [116, 109, 112], 1),
     Dirent(6, [98, 105, 103, 100, 105, 114], 1)]
  }

  function VarEntries(): seq<Dirent> {
    [Dirent(3, [108, 111, 103], 1), Dirent(4, [114, 97, 104, 117], 1)]
  }

  /** / holds bin, var, tmp and bigdir; /var holds log and rahu; /bin holds the files; the other
      directories are empty. */
  predicate Shaped(img: Image, es: seq<Dirent>) {
    && |img.inodes| == MAX_INODES && 7 + |es| <= MAX_INODES
    && (forall i :: 0 <= i < 7 + |es| ==> Used(img.inodes, i))
    && (forall i :: 7 + |es| <= i < MAX_INODES ==> !img.inodes[i].InUse())
    && Contents(img, 0) == RootEntries() && Contents(img, 1) == es && Contents(img, 2) == VarEntries()
    && Contents(img, 3) == [] && Contents(img, 4) == [] && Contents(img, 5) == [] && Contents(img, 6) == []
    && (forall f :: 0 <= f < |es| ==> es[f].ino == 7 + f && es[f].ftype == 0)
  }

  lemma WalkEmpty(img: Image, ino: nat, depth: nat)
    requires depth <= MAX_DEPTH && Used(img.inodes, ino) && Contents(img, ino) == []
    ensures Walk(img, ino, depth) == Walked({ino}, false, false, false)
  {
    WalkDir(img, ino, depth);
  }

  /** One entry that is a directory. */
  lemma WalkSub(img: Image, es: seq<Dirent>, seen: set<seq<nat>>, depth: nat)
    requires depth <= MAX_DEPTH && es != [] && Used(img.inodes, es[0].ino) && es[0].ftype == 1 && es[0].name !in seen
    ensures WalkEntries(img, es, seen, depth)
         == Walk(img, es[0].ino, depth + 1).Join(WalkEntries(img, es[1..], seen + {es[0].name}, depth))
  {
  }

  /** Entries that are files: all of them are reached, and a repeated name is noticed. */
  lemma {:induction false} WalkFiles(img: Image, es: seq<Dirent>, seen: set<seq<nat>>, depth: nat)
    requires depth <= MAX_DEPTH && forall f :: 0 <= f < |es| ==> es[f].ftype == 0 && Used(img.inodes, es[f].ino)
    ensures var w := WalkEntries(img, es, seen, depth);
            && !w.dangling && !w.deep && (forall f :: 0 <= f < |es| ==> es[f].ino in w.reached)
            && (!w.dup <==> Distinct(es) && forall f :: 0 <= f < |es| ==> es[f].name !in seen)
    decreases |es|
  {
    if es == [] {
    } else {
      var e, rest := es[0], es[1..];
      WalkFiles(img, rest, seen + {e.name}, depth);
      assert forall f :: 0 <= f < |rest| ==> rest[f] == es[f + 1];
      var w := WalkEntries(img, rest, seen + {e.name}, depth);
      forall f | 0 <= f < |es| ensures es[f].ino in WalkEntries(img, es, seen, depth).reached {
        if f > 0 { assert rest[f - 1].ino in w.reached; }
      }
      DistinctCons(es, seen);
    }
  }

  lemma WalkVar(img: Image, es: seq<Dirent>)
    requires Shaped(img, es)
    ensures Walk(img, 2, 1) == Walked({2, 3, 4}, false, false, false)
  {
    hide Walk, WalkEntries, Entries, Listed;
    var v := VarEntries();
    WalkDir(img, 2, 1);
    WalkSub(img, v, {}, 1);
    WalkSub(img, v[1..], {v[0].name}, 1);
    WalkEmpty(img, 3, 2); WalkEmpty(img, 4, 2);
    WalkNone(img, {v[0].name} + {v[1].name}, 1);
    assert v[1..][1..] == [];
    assert v[0].name[0] != v[1].name[0];
    assert {} + {v[0].name} == {v[0].name};
    assert {2} + ({3} + ({4} + {})) == {2, 3, 4};
  }

  lemma WalkNone(img: Image, seen: set<seq<nat>>, depth: nat)
    requires depth <= MAX_DEPTH
    ensures WalkEntries(img, [], seen, depth) == Walked({}, false, false, false)
  {
  }

  lemma WalkRoot(img: Image, es: seq<Dirent>)
    requires Shaped(img, es)
    ensures var f := Walk(img, 1, 1);
            Walk(img, 0, 0) == Walked({0, 2, 3, 4, 5, 6} + f.reached, f.dup, f.dangling, f.deep)
  {
    hide Walk, WalkEntries, Entries, Listed;
    var r := RootEntries();
    WalkDir(img, 0, 0);
    assert r[0].name[2] == 110 && r[1].name[0] == 118 && r[2].name[0] == 116 && |r[3].name| == 6;
    WalkSub(img, r, {}, 0);
    WalkSub(img, r[1..], {r[0].name}, 0);
    WalkSub(img, r[1..][1..], {r[0].name} + {r[1].name}, 0);
    WalkSub(img, r[1..][1..][1..], {r[0].name} + {r[1].name} + {r[2].name}, 0);
    WalkVar(img, es);
    WalkEmpty(img, 5, 1); WalkEmpty(img, 6, 1);
    WalkNone(img, {r[0].name} + {r[1].name} + {r[2].name} + {r[3].name}, 0);
    assert r[1..][1..][1..][1..] == [];
    assert {} + {r[0].name} == {r[0].name};
    var f := Walk(img, 1, 1).reached;
    assert {0} + (f + ({2, 3, 4} + ({5} + ({6} + {})))) == {0, 2, 3, 4, 5, 6} + f;
  }

  /** The walk finds nothing wrong exactly when the files in /bin have different names. */
  lemma TreeCleanIff(img: Image, es: seq<Dirent>)
    requires Shaped(img, es)
    ensures TreeClean(img) <==> Distinct(es)
  {
    hide Walk, WalkEntries, Entries, Listed, TreeClean;
    WalkCleanIff(img);
    WalkRoot(img, es);
    WalkDir(img, 1, 1);
    WalkFiles(img, es, {}, 1);
    var w := Walk(img, 0, 0);
    forall ino | 0 < ino < |img.inodes| && img.inodes[ino].InUse() ensures ino in w.reached {
      if ino >= 7 { assert es[ino - 7].ino == ino; }
    }
  }
}
