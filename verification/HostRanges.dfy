/**
  Fast memory (src/ARMJIT_Memory.cpp): views of the emulated memory in a reserved range of host
  addresses. Free placeholders and views make up the range; mapping a view splits a placeholder
  and unmapping coalesces.

  The host's own calls are assumed to succeed.
*/
module HostRanges {
  import opened Lists

  datatype Piece = Piece(start: nat, size: nat) {
    function End(): nat { start + size }

    predicate Has(x: nat) { start <= x < End() }
  }

  predicate Disjoint(a: Piece, b: Piece) { a.End() <= b.start || b.End() <= a.start }

  // -------- the reserved range --------

  ghost predicate PiecesOk(pieces: set<Piece>, total: nat) {
    && (forall p | p in pieces :: p.size > 0 && p.End() <= total)
    && (forall p, q | p in pieces && q in pieces && p != q :: Disjoint(p, q))
  }

  ghost predicate Covered(pieces: set<Piece>, x: nat) { exists p | p in pieces :: p.Has(x) }

  // No free piece ends where another begins.
  ghost predicate NoneTouch(free: set<Piece>) {
    forall p, q | p in free && q in free :: p.End() != q.start
  }

  /** Free pieces and views partition the range, and free pieces are as large as they can be. */
  ghost predicate Partition(free: set<Piece>, views: set<Piece>, total: nat) {
    && PiecesOk(free, total) && PiecesOk(views, total) && NoneTouch(free)
    && (forall f, v | f in free && v in views :: Disjoint(f, v))
    && (forall x: nat | x < total :: Covered(free, x) || Covered(views, x))
  }

  // Free pieces are as large as they can be: none goes on where one ends.
  lemma EndIsNotFree(free: set<Piece>, total: nat, p: Piece)
    requires PiecesOk(free, total) && NoneTouch(free) && p in free
    ensures !Covered(free, p.End())
  {
    forall q | q in free ensures !q.Has(p.End()) {
      assert q != p ==> Disjoint(p, q);
    }
  }

  // An area without views lies in one free piece.
  lemma AreaInOnePiece(free: set<Piece>, views: set<Piece>, total: nat, area: Piece, p: Piece)
    requires Partition(free, views, total) && area.End() <= total
    requires forall v | v in views :: Disjoint(area, v)
    requires p in free && p.Has(area.start)
    ensures area.End() <= p.End()
  {
    EndIsNotFree(free, total, p);
    assert p.End() < area.End() ==> Covered(free, p.End()) || Covered(views, p.End());
  }

  lemma AreaIsFree(free: set<Piece>, views: set<Piece>, total: nat, area: Piece) returns (p: Piece)
    requires Partition(free, views, total) && area.size > 0 && area.End() <= total
    requires forall v | v in views :: Disjoint(area, v)
    ensures p in free && p.start <= area.start && area.End() <= p.End()
  {
    assert Covered(free, area.start) || Covered(views, area.start);
    p :| p in free && p.Has(area.start);
    AreaInOnePiece(free, views, total, area, p);
  }

  // A free piece with an area taken out of it.
  function Split(free: set<Piece>, p: Piece, area: Piece): set<Piece>
    requires p.start <= area.start && area.End() <= p.End()
  {
    free - {p}
      + (if area.start > p.start then {Piece(p.start, area.start - p.start)} else {})
      + (if area.End() < p.End() then {Piece(area.End(), p.End() - area.End())} else {})
  }

  ghost predicate MaySplit(free: set<Piece>, views: set<Piece>, total: nat, p: Piece, area: Piece) {
    Partition(free, views, total) && area.size > 0 && p in free && p.start <= area.start && area.End() <= p.End()
  }

  lemma SplitPieces(free: set<Piece>, views: set<Piece>, total: nat, p: Piece, area: Piece)
    requires MaySplit(free, views, total, p, area)
    ensures PiecesOk(Split(free, p, area), total) && NoneTouch(Split(free, p, area))
  {
    forall q, r | q in Split(free, p, area) && r in Split(free, p, area)
      ensures q.size > 0 && q.End() <= total && (q != r ==> Disjoint(q, r)) && q.End() != r.start
    {
      PartOf(free, p, area, q);
      PartOf(free, p, area, r);
    }
  }

  lemma PartOf(free: set<Piece>, p: Piece, area: Piece, q: Piece)
    requires p.start <= area.start && area.End() <= p.End()
    ensures q in Split(free, p, area) <==>
      ((q in free && q != p)
       || (q.size > 0 && q.start == p.start && q.End() == area.start)
       || (q.size > 0 && q.start == area.End() && q.End() == p.End()))
  {
  }

  lemma SplitViews(free: set<Piece>, views: set<Piece>, total: nat, p: Piece, area: Piece)
    requires MaySplit(free, views, total, p, area)
    ensures PiecesOk(views + {area}, total)
    ensures forall f, v | f in Split(free, p, area) && v in views + {area} :: Disjoint(f, v)
  {
    forall f, v | f in Split(free, p, area) && v in views + {area} ensures Disjoint(f, v) {
      PartOf(free, p, area, f);
      assert Disjoint(p, v) || v == area;
    }
  }

  lemma SplitCovers(free: set<Piece>, views: set<Piece>, total: nat, p: Piece, area: Piece, x: nat)
    requires MaySplit(free, views, total, p, area) && x < total
    ensures Covered(Split(free, p, area), x) || Covered(views + {area}, x)
  {
    var free', views' := Split(free, p, area), views + {area};
    var left, right := Piece(p.start, area.start - p.start), Piece(area.End(), p.End() - area.End());
    if area.Has(x) {
      assert area in views';
    } else if p.Has(x) {
      var part := if x < area.start then left else right;
      PartOf(free, p, area, part);
      assert part in free' && part.Has(x);
    } else if Covered(free, x) {
      var q :| q in free && q.Has(x);
      PartOf(free, p, area, q);
      assert q in free';
    } else {
      var v :| v in views && v.Has(x);
      assert v in views';
    }
  }

  /** Mapping a view over a part of a free piece. */
  lemma SplitKeepsPartition(free: set<Piece>, views: set<Piece>, total: nat, p: Piece, area: Piece)
    requires MaySplit(free, views, total, p, area)
    ensures Partition(Split(free, p, area), views + {area}, total)
  {
    SplitPieces(free, views, total, p, area);
    SplitViews(free, views, total, p, area);
    forall x: nat | x < total ensures Covered(Split(free, p, area), x) || Covered(views + {area}, x) {
      SplitCovers(free, views, total, p, area, x);
    }
  }

  // The free pieces that end or begin at an area, joined with it.
  ghost predicate Touches(p: Piece, area: Piece) { p.End() == area.start || area.End() == p.start }

  ghost predicate Joined(free: set<Piece>, area: Piece, joined: Piece) {
    && joined.start <= area.start && area.End() <= joined.End()
    && (joined.start == area.start || Piece(joined.start, area.start - joined.start) in free)
    && (joined.End() == area.End() || Piece(area.End(), joined.End() - area.End()) in free)
    && (forall p | p in free && p.End() == area.start :: joined.start == p.start)
    && (forall p | p in free && p.start == area.End() :: joined.End() == p.End())
  }

  ghost function Coalesced(free: set<Piece>, area: Piece, joined: Piece): set<Piece> {
    (set p | p in free && !Touches(p, area)) + {joined}
  }

  ghost predicate MayJoin(free: set<Piece>, views: set<Piece>, total: nat, area: Piece, joined: Piece) {
    Partition(free, views, total) && area in views && Joined(free, area, joined)
  }

  // The joined piece is apart from what it does not absorb.
  lemma JoinedIsApart(free: set<Piece>, views: set<Piece>, total: nat, area: Piece, joined: Piece, p: Piece)
    requires MayJoin(free, views, total, area, joined)
    requires (p in free && !Touches(p, area)) || (p in views && p != area)
    ensures Disjoint(p, joined) && (p in free ==> p.End() != joined.start && joined.End() != p.start)
  {
    var left, right := Piece(joined.start, area.start - joined.start), Piece(area.End(), joined.End() - area.End());
    assert Disjoint(p, area);
    assert joined.start < area.start ==> left in free && Disjoint(p, left);
    assert joined.End() > area.End() ==> right in free && Disjoint(p, right);
  }

  lemma CoalescePieces(free: set<Piece>, views: set<Piece>, total: nat, area: Piece, joined: Piece)
    requires MayJoin(free, views, total, area, joined)
    ensures PiecesOk(Coalesced(free, area, joined), total) && NoneTouch(Coalesced(free, area, joined))
    ensures forall f, v | f in Coalesced(free, area, joined) && v in views - {area} :: Disjoint(f, v)
  {
    hide Partition, Joined;
    forall p, q | p in Coalesced(free, area, joined) && q in Coalesced(free, area, joined)
      ensures p.size > 0 && p.End() <= total && (p != q ==> Disjoint(p, q)) && p.End() != q.start
    {
      CoalescedPair(free, views, total, area, joined, p, q);
    }
    forall f, v | f in Coalesced(free, area, joined) && v in views - {area} ensures Disjoint(f, v) {
      if f == joined {
        JoinedIsApart(free, views, total, area, joined, v);
      } else {
        ApartFromViews(free, views, total, f, v);
      }
    }
  }

  lemma CoalescedPair(free: set<Piece>, views: set<Piece>, total: nat, area: Piece, joined: Piece, p: Piece, q: Piece)
    requires MayJoin(free, views, total, area, joined)
    requires p in Coalesced(free, area, joined) && q in Coalesced(free, area, joined)
    ensures p.size > 0 && p.End() <= total && (p != q ==> Disjoint(p, q)) && p.End() != q.start
  {
    if p != joined {
      JoinedIsApart(free, views, total, area, joined, p);
    }
    if q != joined {
      JoinedIsApart(free, views, total, area, joined, q);
    }
  }

  lemma ApartFromViews(free: set<Piece>, views: set<Piece>, total: nat, f: Piece, v: Piece)
    requires Partition(free, views, total) && f in free && v in views
    ensures Disjoint(f, v)
  {
  }

  lemma CoalesceCovers(free: set<Piece>, views: set<Piece>, total: nat, area: Piece, joined: Piece, x: nat)
    requires MayJoin(free, views, total, area, joined) && x < total
    ensures Covered(Coalesced(free, area, joined), x) || Covered(views - {area}, x)
  {
    if joined.Has(x) {
      assert joined in Coalesced(free, area, joined);
    } else if Covered(free, x) {
      var q :| q in free && q.Has(x);
      assert q in Coalesced(free, area, joined);
    } else {
      var v :| v in views && v.Has(x);
      assert v in views - {area};
    }
  }

  /** Unmapping a view. */
  lemma CoalesceKeepsPartition(free: set<Piece>, views: set<Piece>, total: nat, area: Piece, joined: Piece)
    requires MayJoin(free, views, total, area, joined)
    ensures Partition(Coalesced(free, area, joined), views - {area}, total)
  {
    CoalescePieces(free, views, total, area, joined);
    forall x: nat | x < total ensures Covered(Coalesced(free, area, joined), x) || Covered(views - {area}, x) {
      CoalesceCovers(free, views, total, area, joined, x);
    }
  }

  /** The views alone determine the free pieces: mapping and unmapping again restores them. */
  lemma FreeIsDetermined(free: set<Piece>, free': set<Piece>, views: set<Piece>, total: nat)
    requires Partition(free, views, total) && Partition(free', views, total)
    ensures free == free'
  {
    forall p | p in free ensures p in free' {
      SamePiece(free, free', views, total, p);
    }
    forall p | p in free' ensures p in free {
      SamePiece(free', free, views, total, p);
    }
  }

  lemma SamePiece(free: set<Piece>, free': set<Piece>, views: set<Piece>, total: nat, p: Piece)
    requires Partition(free, views, total) && Partition(free', views, total) && p in free
    ensures p in free'
  {
    var q := AreaIsFree(free', views, total, p);
    var r := AreaIsFree(free, views, total, q);
    assert r == p;
  }

  /** Mapping a view and unmapping it again restores the free pieces. */
  lemma UnmapUndoesMap(free: set<Piece>, views: set<Piece>, total: nat, p: Piece, area: Piece, joined: Piece)
    requires MaySplit(free, views, total, p, area) && Joined(Split(free, p, area), area, joined)
    ensures Coalesced(Split(free, p, area), area, joined) == free
  {
    hide Partition, Split, Coalesced, Joined;
    SplitKeepsPartition(free, views, total, p, area);
    CoalesceKeepsPartition(Split(free, p, area), views + {area}, total, area, joined);
    ViewsApart(free, views, total, p, area);
    assert views + {area} - {area} == views;
    FreeIsDetermined(free, Coalesced(Split(free, p, area), area, joined), views, total);
  }

  lemma ViewsApart(free: set<Piece>, views: set<Piece>, total: nat, p: Piece, area: Piece)
    requires MaySplit(free, views, total, p, area)
    ensures area !in views
  {
    assert forall v | v in views :: Disjoint(p, v);
  }

  // -------- the list of placeholders --------

  function PushPart(s: seq<Piece>, start: nat, end: nat): seq<Piece> {
    if start < end then s + [Piece(start, end - start)] else s
  }

  // A part of a free piece is not on the list without that piece.
  lemma PartIsNew(free: set<Piece>, total: nat, p: Piece, part: Piece)
    requires PiecesOk(free, total) && p in free && part.size > 0 && p.start <= part.start && part.End() <= p.End()
    ensures part !in free - {p}
  {
    assert part in free - {p} ==> Disjoint(part, p);
  }

  /** Splitting the i-th placeholder of the list. */
  lemma SplitList(s: seq<Piece>, views: set<Piece>, total: nat, i: nat, area: Piece)
    requires i < |s| && Distinct(s) && MaySplit(Elements(s), views, total, s[i], area)
    ensures var t := PushPart(PushPart(Without(s, i), s[i].start, area.start), area.End(), s[i].End());
      Distinct(t) && Elements(t) == Split(Elements(s), s[i], area)
  {
    hide Partition, Distinct;
    var p := s[i];
    WithoutIs(s, i);
    var left, right := Piece(p.start, area.start - p.start), Piece(area.End(), p.End() - area.End());
    var u := PushPart(Without(s, i), p.start, area.start);
    if left.size > 0 {
      PartIsNew(Elements(s), total, p, left) by { FreeIsOk(Elements(s), views, total); }
      PushIs(Without(s, i), left);
    }
    if right.size > 0 {
      PartIsNew(Elements(s), total, p, right) by { FreeIsOk(Elements(s), views, total); }
      assert right !in Elements(u);
      PushIs(u, right);
    }
  }

  lemma FreeIsOk(free: set<Piece>, views: set<Piece>, total: nat)
    requires Partition(free, views, total)
    ensures PiecesOk(free, total)
  {
  }

  // Where no free piece has room for an area, a view is in the way.
  lemma NoPlace(free: set<Piece>, views: set<Piece>, total: nat, area: Piece)
    requires Partition(free, views, total) && area.size > 0 && area.End() <= total
    requires forall p | p in free :: !(p.start <= area.start && area.End() <= p.End())
    ensures !(forall v | v in views :: Disjoint(area, v))
  {
    if forall v | v in views :: Disjoint(area, v) {
      var p := AreaIsFree(free, views, total, area);
      assert false;
    }
  }

  // Where a free piece has room for an area, no view is in the way.
  lemma RoomIsFree(free: set<Piece>, views: set<Piece>, total: nat, p: Piece, area: Piece)
    requires MaySplit(free, views, total, p, area)
    ensures forall v | v in views :: Disjoint(area, v)
  {
    assert forall v | v in views :: Disjoint(p, v);
  }

  /**
    Coalescing around an area, while the list is walked: `rest` is what is still on it, and start
    and end are those of the joined piece so far.
  */
  ghost predicate Joining(free: set<Piece>, rest: set<Piece>, area: Piece, start: nat, end: nat) {
    && rest <= free && start <= area.start && area.End() <= end
    && (forall p | p in free && p !in rest :: Touches(p, area))
    && (if start == area.start then forall p | p in free && p.End() == area.start :: p in rest
        else Piece(start, area.start - start) in free - rest)
    && (if end == area.End() then forall p | p in free && p.start == area.End() :: p in rest
        else Piece(area.End(), end - area.End()) in free - rest)
  }

  lemma NothingJoined(free: set<Piece>, views: set<Piece>, total: nat, area: Piece)
    requires Partition(free, views, total) && area in views
    ensures Joining(free, free, area, area.start, area.End())
  {
  }

  // The next piece is the only one on its side.
  lemma JoinStep(free: set<Piece>, views: set<Piece>, total: nat, rest: set<Piece>, area: Piece, start: nat, end: nat, p: Piece)
    requires Partition(free, views, total) && area in views && Joining(free, rest, area, start, end) && p in rest
    ensures p.End() == area.start ==> start == area.start && Joining(free, rest - {p}, area, p.start, end)
    ensures p.start == area.End() ==> end == area.End() && Joining(free, rest - {p}, area, start, p.End())
  {
    hide Partition;
    FreeIsOk(free, views, total);
    AreaIsNotEmpty(free, views, total, area);
    forall q | q in free ensures (q.End() == p.End() || q.start == p.start) ==> q == p {
      assert q != p ==> Disjoint(p, q);
    }
  }

  lemma AreaIsNotEmpty(free: set<Piece>, views: set<Piece>, total: nat, area: Piece)
    requires Partition(free, views, total) && area in views
    ensures area.size > 0 && forall p | p in free :: Disjoint(p, area)
  {
  }

  lemma JoinDone(free: set<Piece>, views: set<Piece>, total: nat, rest: set<Piece>, area: Piece, start: nat, end: nat)
    requires Partition(free, views, total) && area in views && Joining(free, rest, area, start, end)
    requires forall p | p in rest :: !Touches(p, area)
    ensures var joined := Piece(start, end - start);
      MayJoin(free, views, total, area, joined) && rest + {joined} == Coalesced(free, area, joined) && joined !in rest
  {
    hide Partition;
    FreeIsOk(free, views, total);
    AreaIsNotEmpty(free, views, total, area);
    var joined := Piece(start, end - start);
    forall p | p in free && p.End() == area.start ensures joined.start == p.start {
      var left := Piece(start, area.start - start);
      assert start != area.start;
      assert left != p ==> Disjoint(left, p);
    }
    forall p | p in free && p.start == area.End() ensures joined.End() == p.End() {
      var right := Piece(area.End(), end - area.End());
      assert end != area.End();
      assert right != p ==> Disjoint(right, p);
    }
    assert joined in free ==> Disjoint(joined, area);
  }
}
