/**
  Fast memory (src/ARMJIT_Memory.cpp): mapping, unmapping and protecting a window page by page.
*/
module PageSteps {
  import opened Bits
  import opened FastViews
  import opened FastWindows
  import opened HostRanges
  import L = LocalAddresses

  // -------- steps over the pages of a window --------

  // Between the pages of a window, and not inside its hole.
  ghost predicate AtPage(v: View, d: Dtcm, page: nat, offset: nat) {
    offset <= v.size && Aligned(offset, page) && !(v.Skips() && d.base < v.addr + offset < d.base + d.size)
  }

  predicate AtHole(v: View, d: Dtcm, offset: nat) { v.Skips() && v.addr + offset == d.base }

  // The hole, where it is in the window at all, is made of pages.
  lemma HolePages(v: View, d: Dtcm, page: nat, offset: nat)
    requires v.Ok(d, page) && d.InRange() && AtPage(v, d, page, offset) && offset < v.size
    ensures AtHole(v, d, offset) ==> d.size > 0 && Aligned(d.base, page) && Aligned(d.size, page) && offset + d.size <= v.size
    ensures v.Skips() && d.base < v.End() && v.addr < d.base + d.size ==> Aligned(d.base, page) && Aligned(d.size, page)
  {
    hide Aligned;
  }

  /** From page to page: past the hole where it begins, and else past a page that is shown. */
  lemma NextPage(v: View, d: Dtcm, page: nat, offset: nat)
    requires v.Ok(d, page) && d.InRange() && PageSizeOk(page) && AtPage(v, d, page, offset) && offset < v.size
    ensures AtHole(v, d, offset) ==> d.size > 0 && AtPage(v, d, page, offset + d.size)
    ensures !AtHole(v, d, offset) ==> v.Shows(d, page, v.Host() + offset) && AtPage(v, d, page, offset + page)
  {
    hide Aligned, PageSizeOk;
    HolePages(v, d, page, offset);
    AlignedSums(v.addr, offset, page);
    AlignedSums(offset, v.size, page);
    HostAligned(v, page, offset);
    if AtHole(v, d, offset) {
      AlignedSums(offset, d.size, page);
    } else {
      AlignedSums(offset, page, page) by { PageAligned(page); }
      if Aligned(d.base, page) {
        AlignedSums(v.addr + offset, d.base, page);
      }
    }
  }

  lemma PageAligned(page: nat)
    requires PageSizeOk(page)
    ensures Aligned(page, page)
  {
  }

  lemma HostAligned(v: View, page: nat, offset: nat)
    requires PageSizeOk(page) && v.num < 2 && Aligned(v.addr, page) && Aligned(offset, page)
    ensures Aligned(v.Host() + offset, page)
  {
    hide Aligned, PageSizeOk;
    AlignedSums(v.addr, offset, page);
    if v.num == 1 {
      AlignedSums(SPACE, v.addr + offset, page) by { SpaceAligned(page); }
    }
  }

  lemma ZeroAligned(page: nat)
    ensures Aligned(0, page)
  {
  }

  lemma SpaceAligned(page: nat)
    ensures Aligned(SPACE, page)
  {
  }

  // Nothing is shown between one step and the next but the page itself.
  lemma NothingBetween(v: View, d: Dtcm, page: nat, offset: nat, h: nat)
    requires v.Ok(d, page) && d.InRange() && PageSizeOk(page) && AtPage(v, d, page, offset) && offset < v.size
    requires v.Shows(d, page, h) && v.Host() + offset < h
    ensures v.Host() + offset + page <= h
    ensures AtHole(v, d, offset) ==> v.Host() + offset + d.size <= h
  {
    hide Aligned, PageSizeOk;
    HostAligned(v, page, offset);
    AlignedSums(v.Host() + offset, h, page);
  }

  // The pages of the window below an offset have been given their status.
  ghost predicate Marked(was: map<nat, Status>, states: map<nat, Status>, v: View, d: Dtcm, page: nat, code: Pages, offset: nat) {
    && (forall h: nat :: h in states <==> h in was || (v.Shows(d, page, h) && h < v.Host() + offset))
    && (forall h: nat | h in was && !(v.Shows(d, page, h) && h < v.Host() + offset) :: states[h] == was[h])
    && (forall h: nat | v.Shows(d, page, h) && h < v.Host() + offset :: states[h] == StatusFor(v.Behind(h) in code))
  }

  // The pages of the window below an offset have been taken out.
  ghost predicate Cleared(was: map<nat, Status>, states: map<nat, Status>, v: View, d: Dtcm, page: nat, offset: nat) {
    && (forall h: nat :: h in states <==> h in was && !(v.Shows(d, page, h) && h < v.Host() + offset))
    && (forall h: nat | h in states :: states[h] == was[h])
  }

  ghost predicate Stepping(v: View, d: Dtcm, page: nat, offset: nat) {
    v.Ok(d, page) && d.InRange() && PageSizeOk(page) && AtPage(v, d, page, offset) && offset < v.size
  }

  lemma MarkStep(was: map<nat, Status>, states: map<nat, Status>, v: View, d: Dtcm, page: nat, code: Pages, offset: nat)
    requires Stepping(v, d, page, offset) && Marked(was, states, v, d, page, code, offset)
    ensures AtHole(v, d, offset) ==> Marked(was, states, v, d, page, code, offset + d.size)
    ensures !AtHole(v, d, offset) ==>
      Marked(was, states[v.Host() + offset := StatusFor((v.region, v.offset + offset) in code)], v, d, page, code, offset + page)
  {
    hide Aligned, PageSizeOk, StatusFor, View.Shows;
    NextPage(v, d, page, offset);
    ShownIsIn(v, d, page);
    PagePositive(page);
    forall h: nat | v.Shows(d, page, h) && v.Host() + offset < h
      ensures v.Host() + offset + page <= h && (AtHole(v, d, offset) ==> v.Host() + offset + d.size <= h)
    {
      NothingBetween(v, d, page, offset, h);
    }
    assert AtHole(v, d, offset) ==> !v.Shows(d, page, v.Host() + offset) by {
      HoleNotShown(v, d, page, offset);
    }
  }

  lemma HoleNotShown(v: View, d: Dtcm, page: nat, offset: nat)
    requires Stepping(v, d, page, offset)
    ensures AtHole(v, d, offset) ==> !v.Shows(d, page, v.Host() + offset)
  {
    hide Aligned;
  }

  lemma ShownIsIn(v: View, d: Dtcm, page: nat)
    ensures forall h: nat | v.Shows(d, page, h) :: v.Host() <= h < v.Host() + v.size
  {
  }

  lemma PagePositive(page: nat)
    requires PageSizeOk(page)
    ensures page > 0
  {
  }

  lemma ClearStep(was: map<nat, Status>, states: map<nat, Status>, v: View, d: Dtcm, page: nat, offset: nat)
    requires Stepping(v, d, page, offset) && Cleared(was, states, v, d, page, offset)
    ensures AtHole(v, d, offset) ==> Cleared(was, states, v, d, page, offset + d.size)
    ensures !AtHole(v, d, offset) ==> Cleared(was, states - {v.Host() + offset}, v, d, page, offset + page)
  {
    hide Aligned, PageSizeOk, View.Shows;
    NextPage(v, d, page, offset);
    PagePositive(page);
    forall h: nat | v.Shows(d, page, h) && v.Host() + offset < h
      ensures v.Host() + offset + page <= h && (AtHole(v, d, offset) ==> v.Host() + offset + d.size <= h)
    {
      NothingBetween(v, d, page, offset, h);
    }
    HoleNotShown(v, d, page, offset);
  }

  // All pages of a new window have been given their status.
  lemma MarkedAll(was: map<nat, Status>, states: map<nat, Status>, vs: set<View>, v: View, d: Dtcm, page: nat, code: Pages)
    requires StatesOk(was, vs, d, page, code) && Marked(was, states, v, d, page, code, v.size)
    requires NoOverlap(vs + {v}, d, page) && v !in vs
    ensures StatesOk(states, vs + {v}, d, page, code)
  {
    hide Aligned, StatusFor, View.Shows;
    ShownIsIn(v, d, page);
    forall h: nat ensures h in states <==> Shown(vs + {v}, d, page, h) {
      assert v in vs + {v};
      assert forall w | w in vs :: w in vs + {v};
    }
    forall w, h: nat | w in vs && w.Shows(d, page, h) ensures h in was && !v.Shows(d, page, h) {
      assert w in vs + {v} && v in vs + {v};
    }
  }

  // All pages of a window have been taken out.
  lemma ClearedAll(was: map<nat, Status>, states: map<nat, Status>, vs: set<View>, v: View, d: Dtcm, page: nat, code: Pages)
    requires StatesOk(was, vs, d, page, code) && Cleared(was, states, v, d, page, v.size)
    requires NoOverlap(vs, d, page) && v in vs
    ensures StatesOk(states, vs - {v}, d, page, code)
  {
    hide Aligned, StatusFor, View.Shows;
    ShownIsIn(v, d, page);
    forall h: nat ensures h in states <==> Shown(vs - {v}, d, page, h) {
      assert h in was ==> Shown(vs, d, page, h);
      if Shown(vs - {v}, d, page, h) {
        var w :| w in vs - {v} && w.Shows(d, page, h);
        assert w in vs;
        assert !v.Shows(d, page, h);
      }
      if h in was && !v.Shows(d, page, h) {
        var w :| w in vs && w.Shows(d, page, h);
        assert w in vs - {v};
      }
    }
  }

  // -------- the page of an address --------

  // The page of an address that a window was set up for.
  function PageOf(num: nat, addr: nat, page: nat): nat
    requires page > 0
  {
    num * SPACE + BlockOf(addr, page)
  }

  lemma PageBlock(addr: nat, page: nat, x: nat)
    requires PageSizeOk(page) && Aligned(x, page)
    ensures Aligned(BlockOf(addr, page), page) && (x <= addr ==> x <= BlockOf(addr, page))
    ensures x > BlockOf(addr, page) ==> BlockOf(addr, page) + page <= x
  {
  }

  lemma PageIsShown(v: View, addr: nat, d: Dtcm, page: nat)
    requires v.Ok(d, page) && d.InRange() && PageSizeOk(page) && v.addr <= addr < v.End() && !(v.Skips() && d.Has(addr))
    ensures v.Shows(d, page, PageOf(v.num, addr, page))
  {
    hide Aligned, PageSizeOk, BlockOf;
    PagePositive(page);
    PageBlock(addr, page, v.addr);
    HostAligned(v, page, BlockOf(addr, page) - v.addr) by {
      AlignedSums(v.addr, BlockOf(addr, page), page);
    }
    if v.Skips() && !v.Apart(d) {
      AlignedSums(d.base, d.size, page);
      PageBlock(addr, page, d.base);
      PageBlock(addr, page, d.base + d.size);
    }
  }

  // An address of a page that a window shows.
  lemma PageOfShown(v: View, num: nat, x: U32, d: Dtcm, page: nat)
    requires num < 2 && v.Ok(d, page) && d.InRange() && PageSizeOk(page) && v.Shows(d, page, PageOf(num, x, page))
    ensures v.num == num && v.addr <= x < v.End() && !(v.Skips() && d.Has(x))
    ensures v.Behind(PageOf(num, x, page)) == (v.region, v.offset + (BlockOf(x, page) - v.addr))
  {
    hide Aligned, PageSizeOk, BlockOf;
    PagePositive(page);
    AlignedSums(v.addr, v.size, page);
    PageBlock(x, page, v.End());
    if v.Skips() && !v.Apart(d) {
      AlignedSums(d.base, d.size, page);
      PageBlock(x, page, d.base);
      PageBlock(x, page, d.base + d.size);
    }
  }

  // No page of the window is mapped.
  ghost predicate Clear(states: map<nat, Status>, v: View, d: Dtcm, page: nat) {
    forall h: nat | v.Shows(d, page, h) :: h !in states
  }

  // -------- steps of mapping --------

  lemma OkOf(vs: set<View>, v: View, d: Dtcm, page: nat)
    requires ViewsOk(vs, d, page) && v in vs
    ensures v.Ok(d, page)
  {
  }

  // The pieces of a new window are free, and apart from each other.
  lemma NewPieces(vs: set<View>, v: View, d: Dtcm, page: nat)
    requires ViewsOk(vs + {v}, d, page) && v !in vs && d.InRange() && PageSizeOk(page)
    ensures forall p, q | p in Pieces(v, d) && q in AllPieces(vs, d) :: Disjoint(p, q)
    ensures forall p | p in Pieces(v, d) :: p.size > 0 && p.End() <= TOTAL
    ensures forall p, q | p in Pieces(v, d) && q in Pieces(v, d) && p != q :: Disjoint(p, q)
  {
    hide ViewsOk, Pieces, AllPieces;
    forall p, q | p in Pieces(v, d) && q in AllPieces(vs, d) ensures Disjoint(p, q) {
      NewIsApart(vs, v, d, page, p, q);
    }
    OkOf(vs + {v}, v, d, page);
    PiecesApart(v, d, page);
  }

  lemma PiecesApart(v: View, d: Dtcm, page: nat)
    requires v.Ok(d, page) && d.InRange() && PageSizeOk(page)
    ensures forall p | p in Pieces(v, d) :: p.size > 0 && p.End() <= TOTAL
    ensures forall p, q | p in Pieces(v, d) && q in Pieces(v, d) && p != q :: Disjoint(p, q)
  {
    hide Pieces;
    forall p | p in Pieces(v, d)
      ensures p.size > 0 && p.End() <= TOTAL && forall q | q in Pieces(v, d) && p != q :: Disjoint(p, q)
    {
      PiecesAre(v, d, page, p);
    }
  }

  // At the start of a window, nothing has been marked.
  lemma StartMarking(was: map<nat, Status>, v: View, d: Dtcm, page: nat, code: Pages)
    requires v.Ok(d, page)
    ensures AtPage(v, d, page, 0) && Marked(was, was, v, d, page, code, 0)
  {
  }

  lemma NotMarkedYet(was: map<nat, Status>, states: map<nat, Status>, v: View, d: Dtcm, page: nat, code: Pages, offset: nat)
    requires Clear(was, v, d, page) && Marked(was, states, v, d, page, code, offset)
    requires v.Shows(d, page, v.Host() + offset)
    ensures StatusAt(states, v.Host() + offset) == Unmapped
  {
  }

  lemma StartClearing(was: map<nat, Status>, v: View, d: Dtcm, page: nat)
    requires v.Ok(d, page)
    ensures AtPage(v, d, page, 0) && Cleared(was, was, v, d, page, 0)
  {
  }

  lemma StillMapped(was: map<nat, Status>, states: map<nat, Status>, vs: set<View>, v: View, d: Dtcm, page: nat, code: Pages, offset: nat)
    requires StatesOk(was, vs, d, page, code) && v in vs && Cleared(was, states, v, d, page, offset)
    requires v.Shows(d, page, v.Host() + offset)
    ensures StatusAt(states, v.Host() + offset) != Unmapped
  {
  }

  lemma NoOverlapOf(vs: set<View>, d: Dtcm, page: nat)
    requires ViewsOk(vs, d, page)
    ensures NoOverlap(vs, d, page)
  {
  }

  lemma FewerViews(vs: set<View>, v: View, d: Dtcm, page: nat)
    requires ViewsOk(vs, d, page)
    ensures ViewsOk(vs - {v}, d, page)
  {
  }

  // A window without mapped pages overlaps no other, and is not among them.
  lemma ClearIsNew(states: map<nat, Status>, vs: set<View>, v: View, d: Dtcm, page: nat, code: Pages, shown: nat)
    requires StatesOk(states, vs, d, page, code) && ViewsOk(vs, d, page) && v.Ok(d, page) && Clear(states, v, d, page)
    requires v.Shows(d, page, shown)
    ensures ViewsOk(vs + {v}, d, page) && v !in vs
  {
    hide View.Ok, View.Shows;
    assert v in vs ==> Shown(vs, d, page, shown);
    forall w, h | w in vs && v.Shows(d, page, h) ensures !w.Shows(d, page, h) {
      assert w.Shows(d, page, h) ==> Shown(vs, d, page, h);
    }
  }

  lemma ShownIsMapped(states: map<nat, Status>, vs: set<View>, v: View, d: Dtcm, page: nat, code: Pages, h: nat)
    requires StatesOk(states, vs, d, page, code) && v in vs && v.Shows(d, page, h)
    ensures StatusAt(states, h) != Unmapped
  {
  }

  // -------- moving DTCM --------

  predicate Touched(v: View, d: Dtcm) { d.size > 0 && d.base < v.End() && d.base + d.size > v.addr }

  // The windows that go when DTCM moves.
  predicate Moves(v: View, d: Dtcm, d': Dtcm) {
    v.region == L.Dtcm || (v.num == 0 && (Touched(v, d) || Touched(v, d')))
  }

  // The windows that stay do not depend on where DTCM is.
  lemma ViewsFollow(states: map<nat, Status>, vs: set<View>, d: Dtcm, d': Dtcm, page: nat, code: Pages)
    requires ViewsOk(vs, d, page) && DtcmOk(d) && DtcmOk(d') && StatesOk(states, vs, d, page, code)
    requires forall v | v in vs :: !Moves(v, d, d')
    ensures ViewsOk(vs, d', page) && AllPieces(vs, d') == AllPieces(vs, d) && StatesOk(states, vs, d', page, code)
  {
    hide View.Ok, View.Shows, Pieces;
    forall v | v in vs
      ensures v.Ok(d', page) && Pieces(v, d') == Pieces(v, d)
      ensures forall h :: v.Shows(d', page, h) <==> v.Shows(d, page, h)
    {
      StaysApart(v, d, d', page);
      PiecesFollow(v, d, d', page);
    }
    forall h: nat ensures Shown(vs, d', page, h) <==> Shown(vs, d, page, h) {
    }
  }

  lemma StaysApart(v: View, d: Dtcm, d': Dtcm, page: nat)
    requires v.Ok(d, page) && DtcmOk(d) && DtcmOk(d') && !Moves(v, d, d')
    ensures v.Skips() ==> v.Apart(d) && v.Apart(d')
  {
    hide Aligned;
  }

  // -------- protecting a page of code --------

  // The page at h shows the start of a page of a region.
  ghost predicate Flips(v: View, d: Dtcm, page: nat, region: L.Region, start: nat, h: nat) {
    v.Host() <= h && v.Shows(d, page, h) && v.Behind(h) == (region, start)
  }

  // The windows in `done` have given their pages that show this page of code the new status.
  ghost predicate Flipped(was: map<nat, Status>, states: map<nat, Status>, done: set<View>, d: Dtcm, page: nat,
                          region: L.Region, start: nat, protect: bool) {
    && (forall h :: h in states <==> h in was)
    && (forall h | h in was :: states[h] == if IsFlipped(done, d, page, region, start, h) then StatusFor(protect) else was[h])
  }

  ghost predicate IsFlipped(done: set<View>, d: Dtcm, page: nat, region: L.Region, start: nat, h: nat) {
    exists v | v in done :: Flips(v, d, page, region, start, h)
  }

  lemma NothingFlipped(was: map<nat, Status>, d: Dtcm, page: nat, region: L.Region, start: nat, protect: bool)
    ensures Flipped(was, was, {}, d, page, region, start, protect)
  {
  }

  // Where the window shows the page.
  predicate Reaches(v: View, d: Dtcm, region: L.Region, start: nat) {
    v.region == region && v.offset <= start < v.offset + v.size && !(v.Skips() && d.Has(v.addr + (start - v.offset)))
  }

  lemma FlipsWhere(v: View, d: Dtcm, page: nat, region: L.Region, start: nat, h: nat)
    requires v.Ok(d, page) && PageSizeOk(page) && Aligned(start, page)
    ensures Flips(v, d, page, region, start, h) <==>
      Reaches(v, d, region, start) && h == v.num * SPACE + (v.addr + (start - v.offset))
  {
    hide Aligned, PageSizeOk;
    if v.offset <= start {
      AlignedSums(v.offset, start, page);
      HostAligned(v, page, start - v.offset);
    }
  }

  lemma FlipStep(was: map<nat, Status>, states: map<nat, Status>, done: set<View>, vs: set<View>, v: View, d: Dtcm, page: nat,
                 code: Pages, region: L.Region, start: nat, protect: bool)
    requires ViewsOk(vs, d, page) && StatesOk(was, vs, d, page, code) && done <= vs && v in vs - done
    requires PageSizeOk(page) && Aligned(start, page) && (protect <==> (region, start) !in code)
    requires Flipped(was, states, done, d, page, region, start, protect)
    ensures !Reaches(v, d, region, start) ==> Flipped(was, states, done + {v}, d, page, region, start, protect)
    ensures Reaches(v, d, region, start) ==>
      var h := v.num * SPACE + (v.addr + (start - v.offset));
      StatusAt(states, h) == StatusFor(!protect)
      && Flipped(was, states[h := StatusFor(protect)], done + {v}, d, page, region, start, protect)
  {
    hide Flips, ViewsOk, StatesOk, StatusFor, Reaches, Aligned, PageSizeOk;
    OkOf(vs, v, d, page);
    forall h: nat
      ensures Flips(v, d, page, region, start, h) <==>
        Reaches(v, d, region, start) && v.offset <= start && h == v.num * SPACE + (v.addr + (start - v.offset))
    {
      FlipsWhere(v, d, page, region, start, h);
      ReachesFrom(v, d, region, start);
    }
    forall h: nat
      ensures IsFlipped(done + {v}, d, page, region, start, h) <==>
        IsFlipped(done, d, page, region, start, h) || Flips(v, d, page, region, start, h)
    {
      assert v in done + {v} && forall w | w in done :: w in done + {v};
    }
    ReachesFrom(v, d, region, start);
    if Reaches(v, d, region, start) {
      var h := v.num * SPACE + (v.addr + (start - v.offset));
      FlipsOnce(was, done, vs, v, d, page, code, region, start, h);
    }
  }

  lemma ReachesFrom(v: View, d: Dtcm, region: L.Region, start: nat)
    ensures Reaches(v, d, region, start) ==> v.offset <= start
  {
  }

  // A page is shown by one window only, so it has not had its new status yet.
  lemma FlipsOnce(was: map<nat, Status>, done: set<View>, vs: set<View>, v: View, d: Dtcm, page: nat,
                  code: Pages, region: L.Region, start: nat, h: nat)
    requires ViewsOk(vs, d, page) && StatesOk(was, vs, d, page, code) && done <= vs && v in vs - done
    requires Flips(v, d, page, region, start, h)
    ensures h in was && was[h] == StatusFor((region, start) in code) && !IsFlipped(done, d, page, region, start, h)
  {
    hide View.Ok, View.Shows, StatusFor;
  }

  lemma FlippedAll(was: map<nat, Status>, states: map<nat, Status>, vs: set<View>, d: Dtcm, page: nat, code: Pages,
                   region: L.Region, start: nat, protect: bool)
    requires ViewsOk(vs, d, page) && StatesOk(was, vs, d, page, code)
    requires Flipped(was, states, vs, d, page, region, start, protect)
    ensures StatesOk(states, vs, d, page, if protect then code + {(region, start)} else code - {(region, start)})
  {
  }
}
