/** What the checker's walk of the directories finds, in terms of the paths from the root. */
module ExfsWalk {
  import opened Exfs

  /** What a walk can report. */
  datatype Fact = Deep | Repeated | Dangling | Reached(ino: nat)

  predicate Has(w: Walked, fact: Fact) {
    match fact
    case Deep => w.deep
    case Repeated => w.dup
    case Dangling => w.dangling
    case Reached(ino) => ino in w.reached
  }

  /** What the entries of one directory give rise to; `seen` are names met before them. */
  predicate Given(img: Image, es: seq<Dirent>, seen: set<seq<nat>>, fact: Fact) {
    match fact
    case Deep => false
    case Repeated => !(Distinct(es) && forall f :: 0 <= f < |es| ==> es[f].name !in seen)
    case Dangling => !AllUsed(img, es)
    case Reached(ino) => Used(img.inodes, ino) && exists j :: 0 <= j < |es| && Names(es[j], ino)
  }

  /** Entry j is a directory below which the walk finds the fact. */
  predicate FoundAt(img: Image, es: seq<Dirent>, j: nat, depth: nat, fact: Fact) {
    j < |es| && Used(img.inodes, es[j].ino) && es[j].ftype == 1 && Has(Walk(img, es[j].ino, depth + 1), fact)
  }

  predicate Found(img: Image, es: seq<Dirent>, depth: nat, fact: Fact) {
    exists j :: 0 <= j < |es| && FoundAt(img, es, j, depth, fact)
  }

  lemma DistinctCons(es: seq<Dirent>, seen: set<seq<nat>>)
    requires es != []
    ensures (Distinct(es) && forall f :: 0 <= f < |es| ==> es[f].name !in seen)
       <==> (&& es[0].name !in seen && Distinct(es[1..])
             && forall f :: 0 <= f < |es[1..]| ==> es[1..][f].name !in seen + {es[0].name})
  {
    var rest := es[1..];
    assert forall f :: 0 <= f < |rest| ==> rest[f] == es[f + 1];
    if Distinct(es) {
      forall i, j | 0 <= i < j < |rest| ensures rest[i].name != rest[j].name {
        assert es[i + 1].name != es[j + 1].name;
      }
    }
    if es[0].name !in seen && Distinct(rest) && forall f :: 0 <= f < |rest| ==> rest[f].name !in seen + {es[0].name} {
      forall i, j | 0 <= i < j < |es| ensures es[i].name != es[j].name {
        if i > 0 {
          assert rest[i - 1].name != rest[j - 1].name;
        } else {
          assert rest[j - 1].name !in seen + {es[0].name};
        }
      }
      forall f | 0 <= f < |es| ensures es[f].name !in seen {
        if f > 0 { assert rest[f - 1].name !in seen + {es[0].name}; }
      }
    }
  }

  lemma GivenCons(img: Image, es: seq<Dirent>, seen: set<seq<nat>>, fact: Fact)
    requires es != []
    ensures Given(img, es, seen, fact) <==>
            || Given(img, es[1..], seen + {es[0].name}, fact)
            || (fact.Repeated? && es[0].name in seen)
            || (fact.Dangling? && !Used(img.inodes, es[0].ino))
            || (fact.Reached? && Names(es[0], fact.ino) && Used(img.inodes, fact.ino))
  {
    hide Used;
    var rest := es[1..];
    assert forall f :: 0 <= f < |rest| ==> rest[f] == es[f + 1];
    assert forall f :: 1 <= f < |es| ==> es[f] == rest[f - 1];
    if fact.Repeated? { DistinctCons(es, seen); }
  }

  lemma FoundCons(img: Image, es: seq<Dirent>, depth: nat, fact: Fact)
    requires es != []
    ensures Found(img, es, depth, fact) <==> FoundAt(img, es, 0, depth, fact) || Found(img, es[1..], depth, fact)
  {
    hide Used, Walk;
    var rest := es[1..];
    if Found(img, es, depth, fact) {
      var j :| 0 <= j < |es| && FoundAt(img, es, j, depth, fact);
      if j > 0 { assert FoundAt(img, rest, j - 1, depth, fact); }
    }
    if Found(img, rest, depth, fact) {
      var j :| 0 <= j < |rest| && FoundAt(img, rest, j, depth, fact);
      assert FoundAt(img, es, j + 1, depth, fact);
    }
  }

  lemma {:induction false} EntriesGive(img: Image, es: seq<Dirent>, seen: set<seq<nat>>, depth: nat, fact: Fact)
    requires depth <= MAX_DEPTH
    ensures Has(WalkEntries(img, es, seen, depth), fact) <==> Given(img, es, seen, fact) || Found(img, es, depth, fact)
    decreases |es|
  {
    hide Used, Walk, Given, Found, Distinct, AllUsed;
    if es == [] {
      NothingGiven(img, seen, depth, fact);
    } else {
      EntriesGive(img, es[1..], seen + {es[0].name}, depth, fact);
      GivenCons(img, es, seen, fact);
      FoundCons(img, es, depth, fact);
    }
  }

  lemma NothingGiven(img: Image, seen: set<seq<nat>>, depth: nat, fact: Fact)
    ensures !Given(img, [], seen, fact) && !Found(img, [], depth, fact)
  {
  }

  lemma WalkDir(img: Image, ino: nat, depth: nat)
    requires depth <= MAX_DEPTH && Used(img.inodes, ino)
    ensures Walk(img, ino, depth) ==
        Walked({ino}, false, false, false).Join(WalkEntries(img, Contents(img, ino), {}, depth))
  {
  }

  /** What is to be seen in directory d alone. */
  predicate Local(img: Image, d: nat, fact: Fact) {
    Given(img, Contents(img, d), {}, fact) || fact == Reached(d)
  }

  lemma WalkGives(img: Image, ino: nat, depth: nat, fact: Fact)
    requires depth <= MAX_DEPTH && Used(img.inodes, ino)
    ensures Has(Walk(img, ino, depth), fact) <==> Local(img, ino, fact) || Found(img, Contents(img, ino), depth, fact)
  {
    hide Walk, WalkEntries, Given, Found, Contents;
    WalkDir(img, ino, depth);
    EntriesGive(img, Contents(img, ino), {}, depth, fact);
  }

  /** A path that shows a fact to a walk that may go n directories deep. */
  predicate Shows(img: Image, p: seq<nat>, fact: Fact, n: nat) {
    Trail(img, p) && if fact.Deep? then |p| == n + 1 else |p| <= n && Local(img, p[|p| - 1], fact)
  }

  /** Whatever a path shows, the walk finds. */
  lemma {:induction false} TrailFound(img: Image, p: seq<nat>, fact: Fact, depth: nat)
    requires depth <= MAX_DEPTH + 1 && Shows(img, p, fact, MAX_DEPTH + 1 - depth)
    ensures Has(Walk(img, p[0], depth), fact)
    decreases |p|
  {
    hide Contents, Local, Used;
    if |p| == 1 {
      if depth <= MAX_DEPTH { WalkGives(img, p[0], depth, fact); }
    } else {
      var rest := p[1..];
      TrailRest(img, p);
      TrailFound(img, rest, fact, depth + 1);
      WalkGives(img, p[0], depth, fact);
      assert Subdirectory(img, p[0], p[1]);
      var es := Contents(img, p[0]);
      var j :| 0 <= j < |es| && es[j].ino == p[1] && es[j].ftype == 1;
      assert FoundAt(img, es, j, depth, fact);
    }
  }

  lemma TrailRest(img: Image, p: seq<nat>)
    requires Trail(img, p) && |p| > 1
    ensures Trail(img, p[1..]) && Subdirectory(img, p[0], p[1])
  {
    var rest := p[1..];
    assert forall k :: 0 <= k < |rest| ==> rest[k] == p[k + 1];
    forall k | 0 <= k < |rest| - 1 ensures Subdirectory(img, rest[k], rest[k + 1]) {
      assert Subdirectory(img, p[k + 1], p[k + 1 + 1]);
    }
  }

  lemma TrailCons(img: Image, ino: nat, q: seq<nat>)
    requires Trail(img, q) && Used(img.inodes, ino) && Subdirectory(img, ino, q[0])
    ensures Trail(img, [ino] + q)
  {
    var p := [ino] + q;
    forall k | 0 <= k < |p| - 1 ensures Subdirectory(img, p[k], p[k + 1]) {
      if k > 0 { assert Subdirectory(img, q[k - 1], q[k - 1 + 1]); }
    }
  }

  /** Whatever the walk finds, some path shows. */
  lemma {:induction false} FoundTrail(img: Image, ino: nat, depth: nat, fact: Fact) returns (p: seq<nat>)
    requires depth <= MAX_DEPTH + 1 && Used(img.inodes, ino) && Has(Walk(img, ino, depth), fact)
    ensures Shows(img, p, fact, MAX_DEPTH + 1 - depth) && p[0] == ino
    decreases MAX_DEPTH + 1 - depth
  {
    hide Contents, Given, Used;
    if depth > MAX_DEPTH {
      p := [ino];
    } else {
      WalkGives(img, ino, depth, fact);
      if Local(img, ino, fact) {
        NotDeep(img, ino, fact);
        p := [ino];
      } else {
        var es := Contents(img, ino);
        var j :| 0 <= j < |es| && FoundAt(img, es, j, depth, fact);
        var q := FoundTrail(img, es[j].ino, depth + 1, fact);
        assert Subdirectory(img, ino, q[0]);
        TrailCons(img, ino, q);
        p := [ino] + q;
      }
    }
  }

  lemma NotDeep(img: Image, d: nat, fact: Fact)
    requires Local(img, d, fact)
    ensures !fact.Deep?
  {
  }

  /** The start of a path is a path. */
  lemma TrailTake(img: Image, p: seq<nat>, n: nat)
    requires Trail(img, p) && 0 < n <= |p|
    ensures Trail(img, p[..n])
  {
    var q := p[..n];
    forall k | 0 <= k < |q| - 1 ensures Subdirectory(img, q[k], q[k + 1]) {
      assert Subdirectory(img, p[k], p[k + 1]);
    }
  }

  /** The walk from the root and the in-use inodes it misses: nothing to report. */
  predicate WalkClean(img: Image) {
    var w := Walk(img, 0, 0);
    && !w.dup && !w.dangling && !w.deep
    && forall ino :: 0 < ino < |img.inodes| && img.inodes[ino].InUse() ==> ino in w.reached
  }

  lemma CleanPath(img: Image, p: seq<nat>)
    requires WalkClean(img) && Trail(img, p) && p[0] == 0
    ensures |p| <= MAX_DEPTH + 1 && Distinct(Contents(img, p[|p| - 1])) && AllUsed(img, Contents(img, p[|p| - 1]))
  {
    hide Walk, Contents;
    if |p| > MAX_DEPTH + 1 {
      TrailTake(img, p, MAX_DEPTH + 2);
      TrailFound(img, p[..MAX_DEPTH + 2], Deep, 0);
    } else if !Distinct(Contents(img, p[|p| - 1])) {
      TrailFound(img, p, Repeated, 0);
    } else if !AllUsed(img, Contents(img, p[|p| - 1])) {
      TrailFound(img, p, Dangling, 0);
    }
  }

  lemma ReachedPath(img: Image, ino: nat)
    requires ino in Walk(img, 0, 0).reached
    ensures exists p :: Trail(img, p) && p[0] == 0 && Holds(img, p[|p| - 1], ino)
  {
    hide Walk, Contents;
    RootUsed(img);
    var p := FoundTrail(img, 0, 0, Reached(ino));
  }

  lemma RootUsed(img: Image)
    ensures Used(img.inodes, 0) || Walk(img, 0, 0) == Walked({}, false, false, false)
  {
  }

  lemma FaultyPath(img: Image, fact: Fact)
    requires Has(Walk(img, 0, 0), fact) && !fact.Reached?
    ensures !TreeClean(img)
  {
    hide Walk, Contents;
    RootUsed(img);
    var p := FoundTrail(img, 0, 0, fact);
  }

  lemma PathReached(img: Image, p: seq<nat>, ino: nat)
    requires Trail(img, p) && p[0] == 0 && |p| <= MAX_DEPTH + 1 && Holds(img, p[|p| - 1], ino)
    ensures ino in Walk(img, 0, 0).reached
  {
    hide Walk, Contents;
    TrailFound(img, p, Reached(ino), 0);
  }

  /** For every image, the walk has nothing to report exactly when the tree is clean. */
  lemma WalkCleanIff(img: Image)
    ensures WalkClean(img) <==> TreeClean(img)
  {
    hide Walk, Contents, Subdirectory, Holds, Distinct, AllUsed;
    var w := Walk(img, 0, 0);
    if WalkClean(img) {
      forall p | Trail(img, p) && p[0] == 0
        ensures |p| <= MAX_DEPTH + 1 && Distinct(Contents(img, p[|p| - 1])) && AllUsed(img, Contents(img, p[|p| - 1]))
      {
        CleanPath(img, p);
      }
      forall ino | 0 < ino < |img.inodes| && img.inodes[ino].InUse()
        ensures exists p :: Trail(img, p) && p[0] == 0 && Holds(img, p[|p| - 1], ino)
      {
        ReachedPath(img, ino);
      }
    }
    if TreeClean(img) {
      if w.deep { FaultyPath(img, Deep); }
      if w.dup { FaultyPath(img, Repeated); }
      if w.dangling { FaultyPath(img, Dangling); }
      forall ino | 0 < ino < |img.inodes| && img.inodes[ino].InUse() ensures ino in w.reached {
        var p :| Trail(img, p) && p[0] == 0 && Holds(img, p[|p| - 1], ino);
        PathReached(img, p, ino);
      }
    }
  }
}
