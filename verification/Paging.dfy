/** x86-64 page tables as the kernel's code sees them: pages of 512 words in
    physical memory, walked from a root table at level 4 down to level 1. */
module Paging {

  /** A 64-bit table word, cut where VMM_ADDR_MASK cuts it: bits 0-11, 12-51, 52-63. */
  datatype Pte = Pte(low: nat, frame: nat, high: nat)

  const ZERO: Pte := Pte(0, 0, 0)

  /** VMM_PRESENT, bit 0. */
  predicate Present(e: Pte) {
    e.low % 2 == 1
  }

  /** VMM_HUGE, bit 7. */
  predicate Huge(e: Pte) {
    e.low / 128 % 2 == 1
  }

  /** A physical page: 512 words, table or data. */
  type Page = p: seq<Pte> | |p| == 512 witness ZeroPage()

  function ZeroPage(): (p: seq<Pte>)
    ensures |p| == 512
  {
    seq(512, _ => ZERO)
  }

  /** Physical memory, by frame number. */
  type Memory = seq<Page>

  /** An entry at level L that names a table of level L - 1. */
  predicate Descends(e: Pte, L: nat) {
    L >= 2 && Present(e) && !(L <= 3 && Huge(e))
  }

  /** An entry at level L that maps memory: a page at level 1, a huge page above. */
  predicate Maps(e: Pte, L: nat) {
    Present(e) && (L == 1 || (2 <= L <= 3 && Huge(e)))
  }

  // ----- what a table owns -------------------------------------------------------------

  /** The frames below entry i of the level-L table f: the tables, and with `data` also
      the pages that level 1 maps. */
  ghost function Piece(m: Memory, f: nat, L: nat, i: nat, data: bool): set<nat>
    requires f < |m| && i < 512
    decreases L, 0
  {
    var e := m[f][i];
    if Descends(e, L) then Owned(m, e.frame, L - 1, data)
    else if L == 1 && data && Present(e) then {e.frame}
    else {}
  }

  ghost function Pieces(m: Memory, f: nat, L: nat, n: nat, data: bool): set<nat>
    requires f < |m| && n <= 512
    decreases L, 1, n
  {
    if n == 0 then {} else Pieces(m, f, L, n - 1, data) + Piece(m, f, L, n - 1, data)
  }

  ghost function Owned(m: Memory, f: nat, L: nat, data: bool): set<nat>
    decreases L, 2
  {
    {f} + if f < |m| then Pieces(m, f, L, 512, data) else {}
  }

  /** The first n entries own disjoint frames, each arranged as a tree. */
  ghost predicate Apart(m: Memory, f: nat, L: nat, n: nat, data: bool)
    requires f < |m| && n <= 512
    decreases L, 1, n
  {
    n == 0 ||
    (&& Apart(m, f, L, n - 1, data)
     && Pieces(m, f, L, n - 1, data) !! Piece(m, f, L, n - 1, data)
     && (Descends(m[f][n - 1], L) ==> Tree(m, m[f][n - 1].frame, L - 1, data)))
  }

  /** f is the root of a tree: no frame below it is reached twice. */
  ghost predicate Tree(m: Memory, f: nat, L: nat, data: bool)
    decreases L, 2
  {
    0 < f < |m| && Apart(m, f, L, 512, data) && f !in Pieces(m, f, L, 512, data)
  }

  /** Two memories agree on the frames of a set. */
  ghost predicate Agree(m: Memory, m': Memory, s: set<nat>) {
    |m| == |m'| && forall x :: x in s && x < |m| ==> m[x] == m'[x]
  }

  lemma {:induction false} PieceIn(m: Memory, f: nat, L: nat, i: nat, n: nat, data: bool)
    requires f < |m| && i < n <= 512
    ensures Piece(m, f, L, i, data) <= Pieces(m, f, L, n, data)
    decreases n
  {
    hide Piece;
    if i >= n - 1 {
    } else {
      PieceIn(m, f, L, i, n - 1, data);
    }
  }

  lemma {:induction false} InSomePiece(m: Memory, f: nat, L: nat, n: nat, data: bool, x: nat) returns (i: nat)
    requires f < |m| && n <= 512 && x in Pieces(m, f, L, n, data)
    ensures i < n && x in Piece(m, f, L, i, data)
    decreases n
  {
    hide Piece;
    if x in Piece(m, f, L, n - 1, data) {
      i := n - 1;
    } else {
      i := InSomePiece(m, f, L, n - 1, data, x);
    }
  }

  /** Apart, entry by entry. */
  lemma {:induction false} ApartAt(m: Memory, f: nat, L: nat, n: nat, data: bool, i: nat, j: nat)
    requires f < |m| && n <= 512 && Apart(m, f, L, n, data) && i < j < n
    ensures Piece(m, f, L, i, data) !! Piece(m, f, L, j, data)
    decreases n
  {
    hide Piece;
    if j < n - 1 {
      ApartAt(m, f, L, n - 1, data, i, j);
    } else {
      PieceIn(m, f, L, i, n - 1, data);
    }
  }

  lemma {:induction false} ApartTree(m: Memory, f: nat, L: nat, n: nat, data: bool, i: nat)
    requires f < |m| && n <= 512 && Apart(m, f, L, n, data) && i < n && Descends(m[f][i], L)
    ensures Tree(m, m[f][i].frame, L - 1, data)
    decreases n
  {
    hide Piece;
    if i >= n - 1 {
    } else {
      ApartTree(m, f, L, n - 1, data, i);
    }
  }

  /** Entry-wise disjoint trees make the table Apart. */
  lemma {:induction false} ApartFrom(m: Memory, f: nat, L: nat, n: nat, data: bool)
    requires f < |m| && n <= 512
    requires forall i, j :: 0 <= i < j < n ==> Piece(m, f, L, i, data) !! Piece(m, f, L, j, data)
    requires forall i :: 0 <= i < n && Descends(m[f][i], L) ==> Tree(m, m[f][i].frame, L - 1, data)
    ensures Apart(m, f, L, n, data)
    decreases n
  {
    hide Piece;
    if n == 0 {
    } else {
      ApartFrom(m, f, L, n - 1, data);
      var before, last := Pieces(m, f, L, n - 1, data), Piece(m, f, L, n - 1, data);
      forall x | x in before ensures x !in last {
        var i := InSomePiece(m, f, L, n - 1, data, x);
      }
    }
  }

  // ----- framing ---------------------------------------------------------------------------

  /** What a table owns, and whether it is a tree, depend only on the tables it owns. */
  lemma {:induction false} OwnedFrame(m: Memory, m': Memory, f: nat, L: nat, data: bool)
    requires Agree(m, m', Owned(m, f, L, data))
    ensures Owned(m', f, L, data) == Owned(m, f, L, data)
    ensures Tree(m', f, L, data) == Tree(m, f, L, data)
    decreases L, 2
  {
    if f < |m| { PiecesFrame(m, m', f, L, 512, data); }
  }

  lemma {:induction false} PiecesFrame(m: Memory, m': Memory, f: nat, L: nat, n: nat, data: bool)
    requires f < |m| && n <= 512 && |m| == |m'| && Agree(m, m', Pieces(m, f, L, n, data))
    requires forall i :: 0 <= i < n ==> m'[f][i] == m[f][i]
    ensures Pieces(m', f, L, n, data) == Pieces(m, f, L, n, data)
    ensures Apart(m', f, L, n, data) == Apart(m, f, L, n, data)
    decreases L, 1, n
  {
    if n == 0 {
    } else {
      PiecesFrame(m, m', f, L, n - 1, data);
      PieceFrame(m, m', f, L, n - 1, data);
    }
  }

  lemma {:induction false} PieceFrame(m: Memory, m': Memory, f: nat, L: nat, i: nat, data: bool)
    requires f < |m| && i < 512 && |m| == |m'| && m[f][i] == m'[f][i] && Agree(m, m', Piece(m, f, L, i, data))
    ensures Piece(m', f, L, i, data) == Piece(m, f, L, i, data)
    ensures Descends(m[f][i], L) ==> Tree(m', m[f][i].frame, L - 1, data) == Tree(m, m[f][i].frame, L - 1, data)
    decreases L, 0
  {
    if Descends(m[f][i], L) { OwnedFrame(m, m', m[f][i].frame, L - 1, data); }
  }

  /** A zeroed table owns nothing but itself. */
  lemma {:induction false} ZeroOwns(m: Memory, f: nat, L: nat, n: nat, data: bool)
    requires f < |m| && n <= 512 && forall i :: 0 <= i < n ==> !Present(m[f][i])
    ensures Pieces(m, f, L, n, data) == {} && Apart(m, f, L, n, data)
    decreases n
  {
    if n == 0 {
    } else {
      ZeroOwns(m, f, L, n - 1, data);
    }
  }

  /** Exchanging what hangs below entry j keeps a tree a tree, if the other entries'
      frames are left alone and the new part is a tree apart from them. */
  lemma SwapChild(m: Memory, m': Memory, t: nat, L: nat, j: nat, data: bool)
    requires Tree(m, t, L, data) && j < 512 && |m| == |m'|
    requires forall i :: 0 <= i < 512 && i != j ==> m'[t][i] == m[t][i]
    requires forall i :: 0 <= i < 512 && i != j ==> Agree(m, m', Piece(m, t, L, i, data))
    requires forall i :: 0 <= i < 512 && i != j ==> Piece(m, t, L, i, data) !! Piece(m', t, L, j, data)
    requires t !in Piece(m', t, L, j, data)
    requires Descends(m'[t][j], L) ==> Tree(m', m'[t][j].frame, L - 1, data)
    ensures Tree(m', t, L, data)
    ensures Owned(m', t, L, data) <= Owned(m, t, L, data) + Piece(m', t, L, j, data)
    ensures forall i :: 0 <= i < 512 && i != j ==> Piece(m', t, L, i, data) == Piece(m, t, L, i, data)
  {
    forall i | 0 <= i < 512 && i != j
      ensures Piece(m', t, L, i, data) == Piece(m, t, L, i, data) <= Pieces(m, t, L, 512, data)
      ensures Descends(m'[t][i], L) ==> Tree(m', m'[t][i].frame, L - 1, data)
    {
      PieceFrame(m, m', t, L, i, data);
      PieceIn(m, t, L, i, 512, data);
      if Descends(m[t][i], L) { ApartTree(m, t, L, 512, data, i); }
    }
    hide Piece, Descends;
    forall i, k | 0 <= i < k < 512 ensures Piece(m', t, L, i, data) !! Piece(m', t, L, k, data) {
      if i != j && k != j { ApartAt(m, t, L, 512, data, i, k); }
    }
    ApartFrom(m', t, L, 512, data);
    forall x | x in Pieces(m', t, L, 512, data)
      ensures x in Pieces(m, t, L, 512, data) || x in Piece(m', t, L, j, data)
    {
      var i := InSomePiece(m', t, L, 512, data, x);
    }
  }

  /** Absent entries from n on add nothing. */
  lemma {:induction false} RestAbsent(m: Memory, f: nat, L: nat, n: nat, k: nat, data: bool)
    requires f < |m| && n <= k <= 512 && forall i :: n <= i < k ==> !Present(m[f][i])
    ensures Pieces(m, f, L, k, data) == Pieces(m, f, L, n, data)
    ensures Apart(m, f, L, k, data) == Apart(m, f, L, n, data)
    decreases k
  {
    if n >= k {
    } else {
      RestAbsent(m, f, L, n, k - 1, data);
    }
  }
}
