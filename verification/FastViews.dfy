/**
  Fast memory (src/ARMJIT_Memory.cpp): the windows of emulated memory that are mapped for a CPU,
  with a hole where the ARM9 sees DTCM, and the status of each page.

  The ranges of both CPUs follow each other. The lists of the regions are one list here, and of the
  array of page statuses only the pages that are not unmapped are kept.
*/
module FastViews {
  import opened Bits
  import opened HostRanges
  import L = LocalAddresses

  const SPACE: nat := 0x1_0000_0000
  const TOTAL: nat := 2 * SPACE

  // The sizes of host pages that are supported.
  predicate PageSizeOk(page: nat) { page == 0x1000 || page == 0x4000 }

  predicate Aligned(x: nat, page: nat) {
    if page == 0x1000 then x % 0x1000 == 0 else x % 0x4000 == 0
  }

  /** The registers that place DTCM; off, it has the base 0xFFFFFFFF and no size. */
  datatype Dtcm = Dtcm(base: U32, size: nat) {
    // As the source computes it, in 32 bits.
    function End(): U32 { (base + size) % SPACE }

    predicate Has(x: nat) { base <= x < base + size }

    predicate InRange() {
      base + size <= SPACE && (if size == 0 then base == SPACE - 1 else 0x1000 <= size <= 0x8000_0000)
    }
  }

  /** A mapped window: its addresses, and the offset in the region's memory that they show. */
  datatype View = View(region: L.Region, addr: nat, size: nat, offset: nat, num: nat) {
    function End(): nat { addr + size }

    // Where the window starts in the reserved range.
    function Host(): nat { num * SPACE + addr }

    // Whether the window leaves a hole for DTCM.
    predicate Skips() { num == 0 && region != L.Dtcm }

    // Whether it lies apart from DTCM.
    predicate Apart(d: Dtcm) { d.base >= End() || d.base + d.size <= addr }

    ghost predicate Ok(d: Dtcm, page: nat) {
      && num < 2 && size > 0 && End() <= SPACE && Aligned(addr, page) && Aligned(size, page) && Aligned(offset, page)
      && (Skips() ==> addr > 0 && End() < 0x8000_0000)
      && (Skips() && !Apart(d) ==> addr <= d.base && d.base + d.size <= End() && Aligned(d.base, page) && Aligned(d.size, page))
    }

    // The page at h shows a part of the window.
    ghost predicate Shows(d: Dtcm, page: nat, h: nat) {
      Aligned(h, page) && Host() <= h < Host() + size && !(Skips() && d.Has(h))
    }

    // The part of the region's memory behind h.
    ghost function Behind(h: nat): (L.Region, nat)
      requires Host() <= h
    {
      (region, offset + (h - Host()))
    }

    predicate Hole(d: Dtcm) { Skips() && d.End() >= addr && d.base < End() }
  }

  /** What is mapped for a window: all of it, or what is left and right of DTCM. */
  function Pieces(v: View, d: Dtcm): set<Piece>
  {
    if v.Hole(d) then
      (if d.base > v.addr then {Piece(v.addr, d.base - v.addr)} else {})
      + (if d.End() < v.End() then {Piece(d.End(), v.End() - d.End())} else {})
    else
      {Piece(v.Host(), v.size)}
  }

  lemma AlignedSums(a: nat, b: nat, page: nat)
    requires PageSizeOk(page) && Aligned(a, page) && Aligned(b, page)
    ensures Aligned(a + b, page) && (a <= b ==> Aligned(b - a, page)) && Aligned(SPACE, page)
    ensures a < b ==> a + page <= b
  {
  }

  // Where there is a hole, DTCM lies in the window or ends where the window begins.
  lemma HoleIsInside(v: View, d: Dtcm, page: nat)
    requires v.Ok(d, page) && d.InRange() && v.Hole(d)
    ensures d.size > 0 && d.End() == d.base + d.size
    ensures d.End() == v.addr || (v.addr <= d.base && d.End() <= v.End() && Aligned(d.base, page) && Aligned(d.size, page))
  {
    hide Aligned;
  }

  lemma PiecesAre(v: View, d: Dtcm, page: nat, p: Piece)
    requires v.Ok(d, page) && d.InRange() && PageSizeOk(page) && p in Pieces(v, d)
    ensures p.size > 0 && p.End() <= TOTAL && Aligned(p.start, page) && Aligned(p.size, page)
    ensures forall q | q in Pieces(v, d) && p != q :: Disjoint(p, q)
  {
    hide Aligned, PageSizeOk;
    if v.Hole(d) {
      HoleIsInside(v, d, page);
      AlignedSums(v.addr, v.size, page);
      if d.End() != v.addr {
        AlignedSums(d.base, d.size, page);
        AlignedSums(v.addr, d.base, page);
        AlignedSums(d.End(), v.End(), page);
      }
    } else {
      AlignedSums(v.addr, SPACE, page);
    }
  }

  /** The pieces hold exactly the pages that the window shows. */
  lemma PiecesShow(v: View, d: Dtcm, page: nat, h: nat)
    requires v.Ok(d, page) && d.InRange() && PageSizeOk(page) && Aligned(h, page)
    ensures Covered(Pieces(v, d), h) <==> v.Shows(d, page, h)
  {
    hide Aligned, PageSizeOk;
    if v.Hole(d) {
      HoleIsInside(v, d, page);
      var left, right := Piece(v.addr, if d.base > v.addr then d.base - v.addr else 0), Piece(d.End(), v.End() - d.End());
      assert d.base > v.addr ==> left in Pieces(v, d);
      assert d.End() < v.End() ==> right in Pieces(v, d);
      assert v.Shows(d, page, h) ==> (left.Has(h) && d.base > v.addr) || (right.Has(h) && d.End() < v.End());
    } else {
      assert Piece(v.Host(), v.size) in Pieces(v, d);
    }
  }

  // Away from DTCM, nothing depends on it.
  lemma PiecesFollow(v: View, d: Dtcm, d': Dtcm, page: nat)
    requires v.Ok(d, page) && d.InRange() && d'.InRange()
    requires v.Skips() ==> v.Apart(d) && v.Apart(d')
    ensures Pieces(v, d') == Pieces(v, d) && v.Ok(d', page)
    ensures forall h :: v.Shows(d', page, h) <==> v.Shows(d, page, h)
  {
  }

  // -------- the windows together --------

  ghost function AllPieces(vs: set<View>, d: Dtcm): set<Piece> { set v, p | v in vs && p in Pieces(v, d) :: p }

  ghost predicate NoOverlap(vs: set<View>, d: Dtcm, page: nat) {
    forall v, w, h | v in vs && w in vs && v.Shows(d, page, h) && w.Shows(d, page, h) :: v == w
  }

  ghost predicate ViewsOk(vs: set<View>, d: Dtcm, page: nat) {
    (forall v | v in vs :: v.Ok(d, page)) && NoOverlap(vs, d, page)
  }

  datatype Status = Unmapped | MappedRw | MappedProtected

  function StatusAt(states: map<nat, Status>, h: nat): Status { if h in states then states[h] else Unmapped }

  function StatusFor(hasCode: bool): Status { if hasCode then MappedProtected else MappedRw }

  // The pages of the code index that contain code.
  type Pages = set<(L.Region, nat)>

  ghost predicate Shown(vs: set<View>, d: Dtcm, page: nat, h: nat) { exists v | v in vs :: v.Shows(d, page, h) }

  /** A page is mapped exactly when a window shows it, and protected exactly when there is code behind it. */
  ghost predicate StatesOk(states: map<nat, Status>, vs: set<View>, d: Dtcm, page: nat, code: Pages) {
    && (forall h :: h in states <==> Shown(vs, d, page, h))
    && (forall v, h | v in vs && v.Shows(d, page, h) :: states[h] == StatusFor(v.Behind(h) in code))
  }

  // A new window does not touch the views of the others.
  lemma NewIsApart(vs: set<View>, v: View, d: Dtcm, page: nat, p: Piece, q: Piece)
    requires ViewsOk(vs + {v}, d, page) && v !in vs && d.InRange() && PageSizeOk(page)
    requires p in Pieces(v, d) && q in AllPieces(vs, d)
    ensures Disjoint(p, q)
  {
    var w :| w in vs && q in Pieces(w, d);
    PiecesAre(v, d, page, p);
    PiecesAre(w, d, page, q);
    var h := if p.start > q.start then p.start else q.start;
    PiecesShow(v, d, page, h);
    PiecesShow(w, d, page, h);
    assert p.Has(h) ==> Covered(Pieces(v, d), h);
    assert q.Has(h) ==> Covered(Pieces(w, d), h);
    assert !(v.Shows(d, page, h) && w.Shows(d, page, h));
  }

  lemma AllPiecesGrow(vs: set<View>, v: View, d: Dtcm)
    ensures AllPieces(vs + {v}, d) == AllPieces(vs, d) + Pieces(v, d)
  {
  }

  // Taking one window out takes exactly its pieces out.
  lemma AllPiecesShrink(vs: set<View>, v: View, d: Dtcm, page: nat)
    requires ViewsOk(vs, d, page) && v in vs && d.InRange() && PageSizeOk(page)
    ensures AllPieces(vs - {v}, d) == AllPieces(vs, d) - Pieces(v, d) && Pieces(v, d) <= AllPieces(vs, d)
  {
    assert vs - {v} + {v} == vs;
    AllPiecesGrow(vs - {v}, v, d);
    forall p | p in Pieces(v, d) ensures p !in AllPieces(vs - {v}, d) {
      PiecesAre(v, d, page, p);
      if p in AllPieces(vs - {v}, d) {
        NewIsApart(vs - {v}, v, d, page, p, p);
      }
    }
  }
}
