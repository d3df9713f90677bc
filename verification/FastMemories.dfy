/**
  Fast memory (src/ARMJIT_Memory.cpp, src/CP15.cpp): mapping and unmapping windows as they are
  accessed, the changes of the mapping, and the protection of pages that contain code.

  Of the code index only the pages that contain code are known here. The protection that the host
  gives to runs of pages is not part of this model, only the page statuses.
*/
module FastMemories {
  import opened Bits
  import opened CurrentWindows
  import opened FastViews
  import opened FastWindows
  import opened HostRanges
  import opened Lists
  import opened Options
  import opened PageSteps
  import L = LocalAddresses

  class FastMemory {
    const page: nat
    var placeholders: seq<Piece>
    var mappings: seq<View>
    var states: map<nat, Status>
    var code: Pages
    var dtcm: Dtcm
    // The mapping that the slow path classifies addresses with.
    var mapping: L.Mapping
    // What the host has mapped.
    ghost var views: set<Piece>

    ghost predicate RangeOk()
      reads this`placeholders, this`views
    {
      Distinct(placeholders) && Partition(Elements(placeholders), views, TOTAL)
    }

    /** Everything that is kept, for a set of windows. */
    ghost predicate Inv(vs: set<View>)
      reads this`placeholders, this`states, this`code, this`dtcm, this`views
    {
      && RangeOk() && PageSizeOk(page) && DtcmOk(dtcm) && ViewsOk(vs, dtcm, page)
      && views == AllPieces(vs, dtcm) && StatesOk(states, vs, dtcm, page, code)
    }

    // What every step keeps.
    ghost predicate Structure()
      reads this
    {
      Distinct(mappings) && Inv(Elements(mappings)) && mapping.Valid() && Agrees(mapping, dtcm)
    }

    /** The windows are besides all of the current mapping. */
    ghost predicate Valid()
      reads this
    {
      Structure() && UpToDate()
    }

    ghost predicate UpToDate()
      reads this`mappings, this`mapping
    {
      mapping.Valid() && Current(Elements(mappings), mapping)
    }

    lemma PageSizeIsOk()
      requires Structure()
      ensures PageSizeOk(page)
    {
    }

    constructor (pageSize: nat, m: L.Mapping)
      requires PageSizeOk(pageSize) && m.Valid() && m.dtcm.None?
      ensures Valid() && mappings == [] && code == {} && mapping == m && page == pageSize && dtcm == Dtcm(SPACE - 1, 0) && states == map[]
    {
      page := pageSize;
      placeholders := [Piece(0, TOTAL)];
      mappings, states, code, dtcm, mapping, views := [], map[], {}, Dtcm(SPACE - 1, 0), m, {};
      new;
      assert Piece(0, TOTAL) in Elements(placeholders);
    }

    /**
      A mapped page shows, at each of its addresses, exactly what the slow path accesses there,
      unless ITCM takes precedence; and it is protected exactly if there is code behind it.
    */
    lemma ShowsMemory(num: nat, x: U32) returns (v: View)
      requires Valid() && num < 2 && StatusAt(states, PageOf(num, x, page)) != Unmapped
      ensures v in mappings && v.num == num && v.addr <= x < v.End()
      ensures Accessed(mapping, num, x) == Some((v.region, v.offset + (x - v.addr))) <==> !(num == 0 && x < mapping.itcmSize)
      ensures StatusAt(states, PageOf(num, x, page)) == StatusFor((v.region, v.offset + (BlockOf(x, page) - v.addr)) in code)
    {
      hide View.Ok, View.Shows, NoOverlap, Partition, IsCurrent, DtcmOk, Accessed, BlockOf, Agrees, PageSizeOk;
      var h := PageOf(num, x, page);
      v :| v in Elements(mappings) && v.Shows(dtcm, page, h);
      InRangeOf(dtcm);
      PageOfShown(v, num, x, dtcm, page);
      FastIsSlow(mapping, v, dtcm, x);
    }

    // -------- the reserved range --------

    /** Maps a view; this succeeds exactly where nothing is mapped yet. */
    method MapIntoRange(addr: nat, num: nat, size: nat) returns (ok: bool)
      requires RangeOk() && size > 0 && num * SPACE + addr + size <= TOTAL
      modifies this`placeholders, this`views
      ensures RangeOk()
      ensures var area := Piece(num * SPACE + addr, size);
        && (ok <==> forall v | v in old(views) :: Disjoint(area, v))
        && views == (if ok then old(views) + {area} else old(views))
      ensures !ok ==> placeholders == old(placeholders)
    {
      hide Partition;
      var dst: nat := num * SPACE + addr;
      var area := Piece(dst, size);
      var i := 0;
      while i < |placeholders|
        invariant 0 <= i <= |placeholders| && RangeOk() && views == old(views) && placeholders == old(placeholders)
        invariant forall j | 0 <= j < i :: !(placeholders[j].start <= dst && dst + size <= placeholders[j].End())
      {
        var it := placeholders[i];
        if it.start <= dst && dst + size <= it.End() {
          TakeArea(i, area);
          ok := true;
          return;
        }
        i := i + 1;
      }
      ok := false;
      assert ok <==> forall v | v in views :: Disjoint(area, v) by {
        NoPlace(Elements(placeholders), views, TOTAL, area);
      }
    }

    // Takes an area out of the i-th placeholder, and what is left and right of it goes to the end.
    method TakeArea(i: nat, area: Piece)
      requires RangeOk() && i < |placeholders| && area.size > 0
      requires placeholders[i].start <= area.start && area.End() <= placeholders[i].End()
      modifies this`placeholders, this`views
      ensures RangeOk() && views == old(views) + {area} && forall v | v in old(views) :: Disjoint(area, v)
    {
      hide Partition, Split, Distinct;
      var split := placeholders[i];
      RoomIsFree(Elements(placeholders), views, TOTAL, split, area);
      SplitList(placeholders, views, TOTAL, i, area);
      SplitKeepsPartition(Elements(placeholders), views, TOTAL, split, area);
      placeholders := Without(placeholders, i);
      if area.start > split.start {
        placeholders := placeholders + [Piece(split.start, area.start - split.start)];
      }
      if area.End() < split.End() {
        placeholders := placeholders + [Piece(area.End(), split.End() - area.End())];
      }
      views := views + {area};
    }

    /** Unmaps a view. */
    method UnmapFromRange(addr: nat, num: nat, size: nat)
      requires RangeOk() && Piece(num * SPACE + addr, size) in views
      modifies this`placeholders, this`views
      ensures RangeOk() && views == old(views) - {Piece(num * SPACE + addr, size)}
    {
      hide Partition, Joining, Coalesced, Distinct;
      var dst: nat := num * SPACE + addr;
      ghost var area := Piece(dst, size);
      ghost var free := Elements(placeholders);
      var coalesceStart: nat, coalesceSize: nat := dst, size;
      NothingJoined(free, views, TOTAL, area);
      var i := 0;
      while i < |placeholders|
        invariant 0 <= i <= |placeholders| && Distinct(placeholders) && views == old(views)
        invariant Joining(free, Elements(placeholders), area, coalesceStart, coalesceStart + coalesceSize)
        invariant forall j | 0 <= j < i :: !Touches(placeholders[j], area)
        decreases |placeholders| - i
      {
        var it := placeholders[i];
        JoinStep(free, views, TOTAL, Elements(placeholders), area, coalesceStart, coalesceStart + coalesceSize, it);
        WithoutIs(placeholders, i);
        if it.End() == dst {
          coalesceStart, coalesceSize := it.start, coalesceSize + it.size;
          placeholders := Without(placeholders, i);
        } else if it.start == dst + size {
          coalesceSize := coalesceSize + it.size;
          placeholders := Without(placeholders, i);
        } else {
          i := i + 1;
        }
      }
      JoinDone(free, views, TOTAL, Elements(placeholders), area, coalesceStart, coalesceStart + coalesceSize);
      CoalesceKeepsPartition(free, views, TOTAL, area, Piece(coalesceStart, coalesceSize));
      PushIs(placeholders, Piece(coalesceStart, coalesceSize));
      placeholders := placeholders + [Piece(coalesceStart, coalesceSize)];
      views := views - {area};
    }

    // -------- the pieces of a window --------

    // Maps what a new window shows around DTCM.
    method MapPieces(v: View, ghost vs: set<View>)
      requires RangeOk() && PageSizeOk(page) && dtcm.InRange() && ViewsOk(vs + {v}, dtcm, page) && v !in vs
      requires views == AllPieces(vs, dtcm)
      modifies this`placeholders, this`views
      ensures RangeOk() && views == AllPieces(vs + {v}, dtcm)
    {
      hide Partition, ViewsOk, AllPieces, View.Ok;
      assert v.Ok(dtcm, page) by { OkOf(vs + {v}, v, dtcm, page); }
      NewPieces(vs, v, dtcm, page);
      AllPiecesGrow(vs, v, dtcm);
      if v.Hole(dtcm) {
        if dtcm.base > v.addr {
          var success := MapIntoRange(v.addr, 0, dtcm.base - v.addr);
          assert success;
        }
        if dtcm.End() < v.End() {
          var success := MapIntoRange(dtcm.End(), 0, v.End() - dtcm.End());
          assert success;
        }
      } else {
        var success := MapIntoRange(v.addr, v.num, v.size);
        assert success;
      }
    }

    // Unmaps just those pieces again.
    method UnmapPieces(v: View, ghost vs: set<View>)
      requires RangeOk() && PageSizeOk(page) && dtcm.InRange() && ViewsOk(vs, dtcm, page) && v in vs
      requires views == AllPieces(vs, dtcm)
      modifies this`placeholders, this`views
      ensures RangeOk() && views == AllPieces(vs - {v}, dtcm)
    {
      hide Partition, ViewsOk, AllPieces, View.Ok;
      AllPiecesShrink(vs, v, dtcm, page);
      assert v.Ok(dtcm, page) by { OkOf(vs, v, dtcm, page); }
      PiecesApart(v, dtcm, page);
      if v.Hole(dtcm) {
        if dtcm.base > v.addr {
          UnmapFromRange(v.addr, 0, dtcm.base - v.addr);
        }
        if dtcm.End() < v.End() {
          UnmapFromRange(dtcm.End(), 0, v.End() - dtcm.End());
        }
      } else {
        UnmapFromRange(v.addr, v.num, v.size);
      }
    }

    // -------- page statuses --------

    // Gives the pages of a new window their status, in runs of pages with code and without.
    method MarkPages(v: View)
      requires PageSizeOk(page) && dtcm.InRange() && v.Ok(dtcm, page) && Clear(states, v, dtcm, page)
      modifies this`states
      ensures Marked(old(states), states, v, dtcm, page, code, v.size)
    {
      hide Aligned, PageSizeOk, Marked, View.Ok, View.Shows, Clear;
      PagePositive(page);
      ghost var was := states;
      var offset: nat := 0;
      StartMarking(was, v, dtcm, page, code);
      while offset < v.size
        invariant AtPage(v, dtcm, page, offset) && Marked(was, states, v, dtcm, page, code, offset)
      {
        if AtHole(v, dtcm, offset) {
          MarkStep(was, states, v, dtcm, page, code, offset);
          NextPage(v, dtcm, page, offset);
          offset := offset + dtcm.size;
        } else {
          ghost var section := offset;
          var hasCode := (v.region, v.offset + offset) in code;
          while offset < v.size && ((v.region, v.offset + offset) in code) == hasCode && !AtHole(v, dtcm, offset)
            invariant AtPage(v, dtcm, page, offset) && Marked(was, states, v, dtcm, page, code, offset) && offset >= section
            decreases v.size - offset
          {
            MarkStep(was, states, v, dtcm, page, code, offset);
            NextPage(v, dtcm, page, offset);
            assert StatusAt(states, v.Host() + offset) == Unmapped by {
              NotMarkedYet(was, states, v, dtcm, page, code, offset);
            }
            states := states[v.Host() + offset := if hasCode then MappedProtected else MappedRw];
            offset := offset + page;
          }
        }
      }
    }

    // Takes the pages of a window out again, in runs of the same status.
    method ClearPages(v: View, ghost vs: set<View>)
      requires PageSizeOk(page) && dtcm.InRange() && ViewsOk(vs, dtcm, page) && v in vs
      requires StatesOk(states, vs, dtcm, page, code)
      modifies this`states
      ensures StatesOk(states, vs - {v}, dtcm, page, code)
    {
      hide Aligned, PageSizeOk, Cleared, View.Ok, View.Shows, StatesOk, StatusAt, ViewsOk;
      PagePositive(page);
      OkOf(vs, v, dtcm, page);
      ghost var was := states;
      var offset: nat := 0;
      StartClearing(was, v, dtcm, page);
      while offset < v.size
        invariant AtPage(v, dtcm, page, offset) && Cleared(was, states, v, dtcm, page, offset)
      {
        ClearStep(was, states, v, dtcm, page, offset);
        NextPage(v, dtcm, page, offset);
        if AtHole(v, dtcm, offset) {
          offset := offset + dtcm.size;
        } else {
          ghost var segment := offset;
          var status := StatusAt(states, v.Host() + offset);
          while StatusAt(states, v.Host() + offset) == status && offset < v.size && !AtHole(v, dtcm, offset)
            invariant AtPage(v, dtcm, page, offset) && Cleared(was, states, v, dtcm, page, offset) && offset >= segment
            invariant offset == segment ==> StatusAt(states, v.Host() + offset) == status
            decreases v.size - offset
          {
            ClearStep(was, states, v, dtcm, page, offset);
            NextPage(v, dtcm, page, offset);
            assert StatusAt(states, v.Host() + offset) != Unmapped by {
              StillMapped(was, states, vs, v, dtcm, page, code, offset);
            }
            states := states - {v.Host() + offset};
            offset := offset + page;
          }
        }
      }
      ClearedAll(was, states, vs, v, dtcm, page, code) by { NoOverlapOf(vs, dtcm, page); }
    }

    // -------- mapping and unmapping --------

    // The region of the address is known to fast memory, and its window is made of pages.
    predicate Mappable(num: nat, addr: U32)
      requires mapping.Valid() && num < 2
      reads this`mapping, this`dtcm
    {
      var v := ViewAt(mapping, num, addr);
      v.Some? && page <= v.value.size && (v.value.Hole(dtcm) ==> page <= dtcm.size)
    }

    /**
      Maps the window around an address, and tells whether it did. The pages of the window must
      not be mapped yet, as is asserted page by page.
    */
    method MapAtAddress(num: nat, addr: U32) returns (mapped: bool)
      requires Structure() && num < 2
      requires Mappable(num, addr) ==> Clear(states, ViewAt(mapping, num, addr).value, dtcm, page)
      modifies this`placeholders, this`mappings, this`states, this`views
      ensures Structure() && (mapped <==> Mappable(num, addr))
      ensures mappings == if mapped then old(mappings) + [ViewAt(mapping, num, addr).value] else old(mappings)
      ensures mapped ==> StatusAt(states, PageOf(num, addr, page)) != Unmapped
      ensures !mapped ==> states == old(states) && views == old(views)
    {
      hide StatesOk, ViewsOk, AllPieces, View.Shows, View.Ok, DtcmOk, Agrees, ViewAt, Clear, PageOf, Distinct;
      mapped := false;
      var window := ViewAt(mapping, num, addr);
      if window.None? || window.value.size < page {
        return;
      }
      var v := window.value;
      if v.Hole(dtcm) && dtcm.size < page {
        return;
      }
      ghost var vs := Elements(mappings);
      ViewIsOk(mapping, num, addr, dtcm, page);
      InRangeOf(dtcm);
      PageIsShown(v, addr, dtcm, page);
      ClearIsNew(states, vs, v, dtcm, page, code, PageOf(num, addr, page));
      MapPieces(v, vs);
      MarkPages(v);
      MarkedAll(old(states), states, vs, v, dtcm, page, code) by { NoOverlapOf(vs + {v}, dtcm, page); }
      PushIs(mappings, v);
      mappings := mappings + [v];
      mapped := true;
      ShownIsMapped(states, vs + {v}, v, dtcm, page, code, PageOf(num, addr, page));
    }

    /**
      An access through fast memory has faulted: on its first access a page is mapped with its
      whole window, and none of the assertions there can fail. Otherwise the access is rewritten
      to take the slow path.
    */
    method FaultHandler(num: nat, addr: U32) returns (rewriteToSlowPath: bool)
      requires Valid() && num < 2
      modifies this`placeholders, this`mappings, this`states, this`views
      ensures Valid()
      ensures !rewriteToSlowPath <==> old(StatusAt(states, PageOf(num, addr, page)) == Unmapped) && Mappable(num, addr)
      ensures mappings == if rewriteToSlowPath then old(mappings) else old(mappings) + [ViewAt(mapping, num, addr).value]
      ensures !rewriteToSlowPath ==> StatusAt(states, PageOf(num, addr, page)) != Unmapped
    {
      hide StatesOk, ViewsOk, AllPieces, View.Shows, View.Ok, DtcmOk, Agrees, ViewAt, Clear, PageOf, Distinct,
        Partition, IsCurrent;
      rewriteToSlowPath := true;
      if StatusAt(states, PageOf(num, addr, page)) == Unmapped {
        ghost var vs := Elements(mappings);
        if Mappable(num, addr) {
          UnmappedIsClear(mapping, num, addr, dtcm, page, vs, states, code);
          ViewIsOk(mapping, num, addr, dtcm, page);
        }
        var mapped := MapAtAddress(num, addr);
        rewriteToSlowPath := !mapped;
        if mapped {
          PushIs(old(mappings), ViewAt(mapping, num, addr).value);
          OwnIsCurrent(mapping, num, addr);
        }
      }
    }

    // Unmaps a window; it stays on the list.
    method Unmap(v: View, ghost vs: set<View>)
      requires Inv(vs) && v in vs
      modifies this`placeholders, this`states, this`views
      ensures Inv(vs - {v})
    {
      hide StatesOk, ViewsOk, AllPieces, DtcmOk, Partition;
      InRangeOf(dtcm);
      FewerViews(vs, v, dtcm, page);
      ClearPages(v, vs);
      UnmapPieces(v, vs);
    }

    // Unmaps the i-th window of the list; the last one takes its place.
    method RemoveAt(i: nat)
      requires Structure() && i < |mappings|
      modifies this`placeholders, this`mappings, this`states, this`views
      ensures Structure() && mappings == SwapRemove(old(mappings), i)
      ensures forall v :: v in mappings <==> v in old(mappings) && v != old(mappings[i])
    {
      hide StatesOk, ViewsOk, AllPieces, DtcmOk, Partition, Distinct, SwapRemove;
      SwapRemoveIs(mappings, i);
      ElementsAre(mappings, SwapRemove(mappings, i), mappings[i]);
      Unmap(mappings[i], Elements(mappings));
      mappings := SwapRemove(mappings, i);
    }

    /** Unmaps all windows of the ARM9 where DTCM was or will be, and the windows of DTCM itself. */
    method RemapDTCM(newBase: U32, newSize: nat)
      requires Structure()
      modifies this`placeholders, this`mappings, this`states, this`views
      ensures Structure()
      ensures forall v :: v in mappings <==> v in old(mappings) && !Moves(v, dtcm, Dtcm(newBase, newSize))
    {
      hide StatesOk, ViewsOk, AllPieces, DtcmOk, Partition, Distinct;
      ghost var was, next := mappings, Dtcm(newBase, newSize);
      var i := 0;
      while i < |mappings|
        invariant 0 <= i <= |mappings| && Structure()
        invariant forall v | v in mappings :: v in was
        invariant forall v | v in was && v !in mappings :: Moves(v, dtcm, next)
        invariant forall j | 0 <= j < i :: mappings[j].region == L.Dtcm || !Moves(mappings[j], dtcm, next)
        decreases |mappings| - i
      {
        var v := mappings[i];
        var overlap := Touched(v, dtcm) || Touched(v, Dtcm(newBase, newSize));
        if v.region != L.Dtcm && v.num == 0 && overlap {
          RemoveAt(i);
        } else {
          i := i + 1;
        }
      }
      i := 0;
      while i < |mappings|
        invariant 0 <= i <= |mappings| && Structure()
        invariant forall v | v in mappings :: v in was && (v.region == L.Dtcm || !Moves(v, dtcm, next))
        invariant forall v | v in was && v !in mappings :: Moves(v, dtcm, next)
        invariant forall j | 0 <= j < i :: !Moves(mappings[j], dtcm, next)
        decreases |mappings| - i
      {
        if mappings[i].region == L.Dtcm {
          RemoveAt(i);
        } else {
          i := i + 1;
        }
      }
    }

    /** Moves DTCM to where the registers say; what it does not touch stays mapped as it was. */
    method UpdateDTCMSetting(enabled: bool, setting: U32)
      requires Structure()
      modifies this
      ensures Structure() && (old(Valid()) ==> Valid())
      ensures dtcm == DtcmOf(enabled, setting) && code == old(code) && mapping == old(mapping).(dtcm := mapping.dtcm)
      ensures forall v :: v in mappings <==> v in old(mappings) && !(dtcm != old(dtcm) && Moves(v, old(dtcm), dtcm))
    {
      hide StatesOk, ViewsOk, AllPieces, DtcmOk, Partition, Distinct, DtcmOf, IsCurrent;
      var next := DtcmOf(enabled, setting);
      DtcmSettings(enabled, setting);
      if next != dtcm {
        ghost var m := mapping;
        RemapDTCM(next.base, next.size);
        ViewsFollow(states, Elements(mappings), dtcm, next, page, code);
        mapping := mapping.(dtcm := if next.size == 0 then None else Some(L.Bank(next.base, next.size)));
        if Current(Elements(mappings), m) {
          DtcmKeepsCurrent(Elements(mappings), m, mapping, dtcm, next, page);
        }
        dtcm := next;
      }
    }

    /** Unmaps the windows of the shared area, before NWRAM is mapped anew. */
    method RemapNWRAM(dsi: bool)
      requires Structure()
      modifies this`placeholders, this`mappings, this`states, this`views
      ensures Structure()
      ensures forall v :: v in mappings <==> v in old(mappings) && !(dsi && InSharedArea(v))
    {
      hide StatesOk, ViewsOk, AllPieces, DtcmOk, Partition, Distinct;
      if !dsi {
        return;
      }
      ghost var was := mappings;
      var i := 0;
      while i < |mappings|
        invariant 0 <= i <= |mappings| && Structure()
        invariant forall v | v in mappings :: v in was
        invariant forall v | v in was && v !in mappings :: InSharedArea(v)
        invariant forall j | 0 <= j < i :: !InSharedArea(mappings[j])
        decreases |mappings| - i
      {
        if InSharedArea(mappings[i]) {
          RemoveAt(i);
        } else {
          i := i + 1;
        }
      }
    }

    /** The NWRAM registers of the DSi are written: the windows of the shared area go first. */
    method ChangeNwram(next: L.Mapping)
      requires Structure() && mapping.dsi && next.Valid()
      requires next == mapping.(nwramOn := next.nwramOn, nwramStart := next.nwramStart, nwramEnd := next.nwramEnd, nwramAt := next.nwramAt)
      modifies this
      ensures Structure() && (old(Valid()) ==> Valid()) && mapping == next && dtcm == old(dtcm) && code == old(code)
      ensures forall v :: v in mappings <==> v in old(mappings) && !InSharedArea(v)
    {
      hide StatesOk, ViewsOk, AllPieces, DtcmOk, Partition, Distinct, IsCurrent, Inv;
      RemapNWRAM(true);
      if Current(Elements(mappings), mapping) {
        NwramKeepsCurrent(Elements(mappings), mapping, next);
      }
      mapping := next;
    }

    /** Unmaps the windows that depend on the setting of shared WRAM, before it changes. */
    method RemapSWRAM()
      requires Structure()
      modifies this`placeholders, this`mappings, this`states, this`views
      ensures Structure()
      ensures forall v :: v in mappings <==> v in old(mappings) && !OnSharedWram(v)
    {
      hide StatesOk, ViewsOk, AllPieces, DtcmOk, Partition, Distinct;
      ghost var was := mappings;
      var i := 0;
      while i < |mappings|
        invariant 0 <= i <= |mappings| && Structure()
        invariant forall v | v in mappings :: v in was
        invariant forall v | v in was && v !in mappings :: OnSharedWram(v)
        invariant forall j | 0 <= j < i :: !OnSharedWram(mappings[j])
        decreases |mappings| - i
      {
        if OnSharedWram(mappings[i]) {
          RemoveAt(i);
        } else {
          i := i + 1;
        }
      }
    }

    /** The setting of shared WRAM changes: the windows that depend on it go first. */
    method ChangeSwram(swram9: Option<L.Bank>, swram7: Option<L.Bank>)
      requires Structure() && mapping.(swram9 := swram9, swram7 := swram7).Valid()
      modifies this
      ensures Structure() && (old(Valid()) ==> Valid()) && dtcm == old(dtcm) && code == old(code)
      ensures mapping == old(mapping).(swram9 := swram9, swram7 := swram7)
      ensures forall v :: v in mappings <==> v in old(mappings) && !OnSharedWram(v)
    {
      hide StatesOk, ViewsOk, AllPieces, DtcmOk, Partition, Distinct, IsCurrent, Inv;
      RemapSWRAM();
      if Current(Elements(mappings), mapping) {
        SwramKeepsCurrent(Elements(mappings), mapping, mapping.(swram9 := swram9, swram7 := swram7));
      }
      mapping := mapping.(swram9 := swram9, swram7 := swram7);
    }

    /** Unmaps all windows. */
    method Reset()
      requires Structure()
      modifies this`placeholders, this`mappings, this`states, this`views
      ensures Valid() && mappings == [] && states == map[]
    {
      hide View.Shows, View.Ok, AllPieces, DtcmOk, Partition, IsCurrent, NoOverlap;
      while mappings != []
        invariant Structure()
        decreases |mappings|
      {
        RemoveAt(0);
      }
      assert states.Keys == {};
    }

    // The code index has been emptied while nothing was mapped.
    method ForgetCode()
      requires Structure() && mappings == []
      modifies this`code
      ensures Structure() && code == {}
    {
      hide AllPieces, DtcmOk, Partition;
      code := {};
    }

    // -------- changes that unmap nothing --------

    /** A new size of main RAM unmaps nothing: its windows become stale, exactly if there are any. */
    method ApplyNewRAMSize(size: nat)
      requires Structure() && size < 4
      modifies this`mapping
      ensures Structure() && mapping == old(mapping).(mainRamSize := if size < 2 then 0x40_0000 else 0x100_0000)
      ensures old(Valid()) ==> (Valid() <==> mapping == old(mapping) || forall v | v in mappings :: v.region != L.MainRam)
    {
      hide Inv, Distinct, IsCurrent;
      ghost var m := mapping;
      var bytes := if size < 2 then 0x40_0000 else 0x100_0000;
      ResizedIsValid(mapping, bytes);
      mapping := mapping.(mainRamSize := bytes);
      if Current(Elements(mappings), m) {
        SizeKeepsCurrentIff(Elements(mappings), m, mapping);
        assert (forall v | v in mappings :: v.region != L.MainRam) <==> (forall v | v in Elements(mappings) :: v.region != L.MainRam);
      }
    }

    /** Nor does a new size of ITCM: exactly the windows of the ARM9 that it reaches over become stale. */
    method UpdateITCMSetting(enabled: bool, setting: U32)
      requires Structure()
      modifies this`mapping
      ensures Structure() && mapping == old(mapping).(itcmSize := if enabled then L.ItcmSize(setting / 2 % 32) else 0)
      ensures old(Valid()) ==> (Valid() <==> forall v | v in mappings && v.num == 0 :: mapping.itcmSize < v.End())
    {
      hide Inv, Distinct, IsCurrent, L.ItcmSize;
      ghost var m := mapping;
      var size := if enabled then L.ItcmSize(setting / 2 % 32) else 0;
      ItcmIsValid(mapping, enabled, setting / 2 % 32);
      mapping := mapping.(itcmSize := size);
      if Current(Elements(mappings), m) {
        DtcmIsOk(Elements(mappings));
        ItcmKeepsCurrentIff(Elements(mappings), m, mapping, dtcm);
        assert (forall v | v in mappings && v.num == 0 :: mapping.itcmSize < v.End())
          <==> (forall v | v in Elements(mappings) && v.num == 0 :: mapping.itcmSize < v.End());
      }
    }

    lemma DtcmIsOk(vs: set<View>)
      requires Inv(vs)
      ensures DtcmOk(dtcm)
    {
    }

    // -------- code --------

    /** A page of the code index has got its first block, or lost its last one. */
    method SetCodeProtection(region: L.Region, offset: nat, protect: bool)
      requires Structure()
      requires protect <==> (region, BlockOf(offset, page)) !in code
      modifies this`states, this`code
      ensures Structure()
      ensures code == if protect then old(code) + {(region, BlockOf(offset, page))} else old(code) - {(region, BlockOf(offset, page))}
    {
      hide StatesOk, ViewsOk, AllPieces, DtcmOk, Partition, View.Shows, View.Ok, Flipped, StatusAt;
      var start := BlockOf(offset, page);
      ghost var was := states;
      ghost var vs := Elements(mappings);
      PageBlock(offset, page, 0) by { ZeroAligned(page); }
      NothingFlipped(was, dtcm, page, region, start, protect);
      assert Elements(mappings[..0]) == {};
      var i := 0;
      while i < |mappings|
        invariant 0 <= i <= |mappings| && code == old(code)
        invariant Flipped(was, states, Elements(mappings[..i]), dtcm, page, region, start, protect)
      {
        var v := mappings[i];
        NotBefore(mappings, i);
        PushIs(mappings[..i], v);
        assert mappings[..i + 1] == mappings[..i] + [v];
        FlipStep(was, states, Elements(mappings[..i]), vs, v, dtcm, page, code, region, start, protect);
        if v.region == region && v.offset <= start < v.offset + v.size {
          var effectiveAddr := v.addr + (start - v.offset);
          if !(v.num == 0 && region != L.Dtcm && dtcm.Has(effectiveAddr)) {
            assert StatusAt(states, v.num * SPACE + effectiveAddr) == if protect then MappedRw else MappedProtected;
            states := states[v.num * SPACE + effectiveAddr := if protect then MappedProtected else MappedRw];
          }
        }
        i := i + 1;
      }
      assert mappings[..i] == mappings;
      FlippedAll(was, states, vs, dtcm, page, code, region, start, protect);
      code := if protect then code + {(region, start)} else code - {(region, start)};
    }
  }

  // -------- windows that have become stale --------

  // Main RAM of 4 MB, and nothing else that fast memory knows on the ARM9.
  const SMALL_RAM := L.Mapping(true, 0x40_0000, 0, None, None, None, false, false, false, false,
    _ => false, (_, _) => 0, (_, _) => 0, (_, _, _) => None)

  const SMALL_VIEW := View(L.MainRam, 0x200_0000, 0x40_0000, 0, 0)
  const OFF := Dtcm(SPACE - 1, 0)

  lemma SmallRam()
    ensures SMALL_RAM.Valid() && ViewAt(SMALL_RAM, 0, 0x200_0000) == Some(SMALL_VIEW)
    ensures !SMALL_VIEW.Hole(OFF)
  {
  }

  lemma GrownRam()
    ensures var m := SMALL_RAM.(mainRamSize := 0x100_0000);
      m.Valid() && ViewAt(m, 0, 0x240_0000) == Some(View(L.MainRam, 0x200_0000, 0x100_0000, 0, 0))
    ensures !View(L.MainRam, 0x200_0000, 0x100_0000, 0, 0).Hole(OFF)
  {
  }

  // Of the larger window only the first quarter is mapped.
  lemma PartlyMapped(states: map<nat, Status>, code: Pages)
    requires StatesOk(states, {SMALL_VIEW}, OFF, 0x1000, code)
    ensures StatusAt(states, PageOf(0, 0x240_0000, 0x1000)) == Unmapped
    ensures !Clear(states, View(L.MainRam, 0x200_0000, 0x100_0000, 0, 0), OFF, 0x1000)
  {
    SmallShows();
    hide View.Shows;
    assert Shown({SMALL_VIEW}, OFF, 0x1000, 0x200_0000);
    assert !Shown({SMALL_VIEW}, OFF, 0x1000, 0x240_0000);
  }

  lemma SmallShows()
    ensures SMALL_VIEW.Shows(OFF, 0x1000, 0x200_0000) && !SMALL_VIEW.Shows(OFF, 0x1000, 0x240_0000)
    ensures View(L.MainRam, 0x200_0000, 0x100_0000, 0, 0).Shows(OFF, 0x1000, 0x200_0000)
    ensures PageOf(0, 0x240_0000, 0x1000) == 0x240_0000
  {
  }

  // The window of main RAM is mapped.
  method MapSmallRam() returns (memory: FastMemory)
    ensures fresh(memory) && memory.Valid() && memory.mappings == [SMALL_VIEW] && memory.mapping == SMALL_RAM && memory.page == 0x1000
    ensures memory.dtcm == OFF
  {
    hide View.Ok, View.Shows, NoOverlap, Partition, IsCurrent, DtcmOk, StatesOk, ViewAt;
    SmallRam();
    memory := new FastMemory(0x1000, SMALL_RAM);
    assert StatusAt(memory.states, PageOf(0, 0x200_0000, 0x1000)) == Unmapped;
    assert memory.Mappable(0, 0x200_0000);
    var rewrite := memory.FaultHandler(0, 0x200_0000);
  }

  /**
    After main RAM has grown, the page of an access can be unmapped in a window that has mapped
    pages: what is asserted of the statuses when the window is mapped is false.
  */
  method GrownRamIsPartlyMapped() returns (memory: FastMemory)
    ensures fresh(memory) && memory.Structure() && !memory.Valid()
    ensures StatusAt(memory.states, PageOf(0, 0x240_0000, memory.page)) == Unmapped && memory.Mappable(0, 0x240_0000)
    ensures !Clear(memory.states, ViewAt(memory.mapping, 0, 0x240_0000).value, memory.dtcm, memory.page)
  {
    hide View.Ok, View.Shows, NoOverlap, Partition, IsCurrent, DtcmOk, StatesOk, ViewAt, PageOf, StatusAt;
    memory := MapSmallRam();
    memory.ApplyNewRAMSize(2);
    GrownRam();
    assert Elements(memory.mappings) == {SMALL_VIEW};
    PartlyMapped(memory.states, memory.code);
  }

  /** After ITCM has grown over a mapped window, its pages show main RAM where accesses find ITCM. */
  method GrownItcmIsHidden() returns (memory: FastMemory)
    ensures fresh(memory) && memory.Structure() && !memory.Valid() && SMALL_VIEW in memory.mappings
    ensures Accessed(memory.mapping, 0, 0x200_0000) == Some((L.Itcm, 0))
  {
    hide View.Ok, View.Shows, NoOverlap, Partition, IsCurrent, DtcmOk, StatesOk, ViewAt;
    memory := MapSmallRam();
    LargeItcm();
    memory.UpdateITCMSetting(true, 34);
    assert memory.mappings[0] == SMALL_VIEW;
  }

  lemma LargeItcm()
    ensures L.ItcmSize(34 / 2 % 32) == 0x400_0000
  {
    hide Pow2, L.ItcmSize;
    ItcmSizeIs(17);
    DoubledSize(16);
  }

  lemma ItcmSizeIs(n: nat)
    ensures L.ItcmSize(n) == 0x200 * Pow2(n) % 0x1_0000_0000
  {
  }

  lemma DoubledSize(n: nat)
    requires n == 16
    ensures Pow2(n + 1) == 0x2_0000
  {
    WordSizes();
  }
}
