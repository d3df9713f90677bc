/**
  The JIT block cache (src/ARMJIT.cpp, src/ARMJIT.h).

  Compiled blocks are found by key (CPU, address, Thumb) and through a fast table indexed by
  physical halfword. Physical ranges list the blocks that depend on them, every guest write
  passes a barrier that removes the blocks it may have changed, and removed blocks wait in a
  pool from which an identical trace may take them back. A trace is interpreted while it is
  recorded, so it can overwrite the very code it is recording.

  Every public method keeps `Inv`, so it holds after any run of writes, traces, publications,
  invalidations, remappings and resets.
*/
module BlockCaching {
  import opened CodeIndex
  import opened CodePages
  import opened FastMemories
  import opened Lists
  import opened CompiledBlocks
  import opened TraceRecording
  import opened Publication

  class BlockCache {
    const ranges: nat
    const pageRanges: nat

    // Fast memory, which protects the pages that contain code.
    const memory: FastMemory

    const endsBlock: Decoding

    var args: JitArgs
    var blocks: Blocks
    var keyMap: KeyMap
    var restoreCandidates: Pool
    var index: seq<AddressRange>
    var protectedPages: set<Page>
    var fast: seq<FastEntry>
    var invalidLiterals: set<Local>
    var nextEntry: BlockId

    var mem: Memory
    var compilingBlock: bool
    var compileWriteAddrs: seq<Local>
    var trace: Block
    var pipeline: seq<Fetched>
    var localise: Localisation

    // The instructions of the trace, a merged pair being one, whether the latest ends it, and whether
    // it has neither been followed nor had its literal folded.
    var count: nat
    var endBlock: bool
    var plain: bool

    // The CPU is halted, or has an interrupt pending that it does not mask.
    var interrupted: bool

    ghost var listing: Listing

    // Restored blocks that are not what they were taken for, and fast slots that lead to a block
    // that starts elsewhere.
    ghost var stale: set<BlockId>
    ghost var strays: set<nat>

    // The sizes of the index, and that fast memory knows the pages that contain code.
    ghost predicate GeometryOk()
      reads `index, `protectedPages, memory
    {
      && pageRanges > 0 && ranges % pageRanges == 0 && |index| == ranges <= 18 * REGION_RANGES
      && memory.page == pageRanges * 512 && Guarded()
    }

    ghost predicate Guarded()
      reads this`protectedPages, memory
    {
      memory.Structure() && PagesAgree(protectedPages, memory.code, memory.page)
    }

    // The owners, the index and the fast table agree with each other.
    ghost predicate Core()
      reads `args, `blocks, `keyMap, `restoreCandidates, `index, `protectedPages, `fast, `nextEntry, `listing, `strays, memory
    {
      && GeometryOk() && |fast| == ranges * 256
      && AllBlocksOk(blocks, ranges, args, nextEntry)
      && Owned(blocks, keyMap, restoreCandidates)
      && ListingOk(blocks, keyMap, listing)
      && IndexOk(index, pageRanges, protectedPages, listing, ALL_CLOSED, 0)
      && FastOk(fast, strays, blocks, keyMap)
    }

    ghost function State(): Tables
      reads `blocks, `keyMap, `restoreCandidates, `fast
    {
      Tables(blocks, keyMap, restoreCandidates, fast)
    }

    /** Every live block is what it is taken for, and every fast entry leads to the block it is for. */
    ghost predicate Sound()
      reads `blocks, `keyMap, `fast, `mem
    {
      AllRight(blocks, keyMap, mem, {}) && FastOk(fast, {}, blocks, keyMap)
    }

    // A cache as the first reset leaves it; the fast tables' initial zeroes are never looked up.
    constructor (ranges: nat, memory: FastMemory, args: JitArgs, endsBlock: Decoding)
      requires memory.Valid() && memory.code == {} && ranges <= 18 * REGION_RANGES
      requires memory.page > 0 && ranges * 512 % memory.page == 0
      ensures Inv() && Sound() && !compilingBlock && State() == Tables(map[], map[], map[], fast) && mem == map[]
      ensures this.ranges == ranges && this.memory == memory && this.endsBlock == endsBlock && this.args == args.Clamped()
      ensures invalidLiterals == {} && !interrupted
    {
      this.ranges, this.pageRanges, this.memory, this.args := ranges, memory.page / 512, memory, args.Clamped();
      this.endsBlock := endsBlock;
      blocks, keyMap, restoreCandidates, listing := map[], map[], map[], map[];
      index := seq(ranges, _ => EMPTY_RANGE);
      protectedPages, invalidLiterals := {}, {};
      fast := EmptyTable(ranges * 256);
      nextEntry, mem := 0, map[];
      compilingBlock, compileWriteAddrs, pipeline := false, [], [];
      trace, localise := NewTrace(0, false, 0, 0), _ => 0;
      count, endBlock, plain, interrupted := 0, false, false, false;
      stale, strays := {}, {};
      new;
      memory.PageSizeIsOk();
      WholePages(ranges, memory.page);
      NoPagesAgree(memory.page);
      EmptyIndexOk(index, pageRanges);
      EmptyTablesOk(fast, ranges, this.args);
    }

    // -------- host pages --------

    /** The page of a range gets its first block, or loses its last one. */
    method SetCodeProtection(r: Range, protect: bool)
      requires GeometryOk() && r < ranges && (protect <==> r / pageRanges !in protectedPages)
      modifies this`protectedPages, memory`states, memory`code
      ensures GeometryOk()
      ensures protectedPages == if protect then old(protectedPages) + {r / pageRanges} else old(protectedPages) - {r / pageRanges}
    {
      hide FastMemory.Structure, PagesAgree, RegionAt;
      var region, offset := RegionAt(r / REGION_RANGES), r % REGION_RANGES * 512;
      memory.PageSizeIsOk();
      RangeInPage(r, pageRanges, protectedPages, memory.code, memory.page);
      PagesStep(protectedPages, memory.code, memory.page, region, offset, protect);
      memory.SetCodeProtection(region, offset, protect);
      protectedPages := if protect then protectedPages + {r / pageRanges} else protectedPages - {r / pageRanges};
    }

    // -------- one range --------

    // Adds a block to one of its ranges.
    method AddToRange(id: BlockId, r: Range, mask: Mask)
      requires GeometryOk() && r < ranges && (id, r) !in listing && MaskOk(r, mask)
      requires IndexOk(index, pageRanges, protectedPages, listing, ALL_CLOSED, 0)
      modifies this`index, this`protectedPages, memory`states, memory`code, this`listing
      ensures GeometryOk()
      ensures IndexOk(index, pageRanges, protectedPages, listing, ALL_CLOSED, 0)
      ensures listing == old(listing)[(id, r) := mask]
    {
      hide BlockCache.Guarded;
      var page := r / pageRanges;
      PageInIndex(r, pageRanges, ranges);
      ghost var was := index;
      var hasCode := PageContainsCode(index, pageRanges, page);
      AddKeepsPages(index, pageRanges, protectedPages, r, AddressRange(index[r].blocks + [id], index[r].code + mask));
      AddKeepsLists(index, listing, id, r, mask);
      AddKeepsCode(index, listing, id, r, mask);
      if !hasCode {
        SetCodeProtection(r, true);
      } else {
        assert protectedPages + {page} == protectedPages;
      }
      index := index[r := AddressRange(index[r].blocks + [id], index[r].code + mask)];
      listing := listing[(id, r) := mask];
    }

    // Unprotects the page of r if the last block of the page has just left r.
    method ReleasePage(r: Range, ghost was: seq<AddressRange>)
      requires GeometryOk() && r < ranges == |was| && index == was[r := index[r]] && was[r].blocks != []
      requires PagesOk(was, pageRanges, protectedPages)
      modifies this`protectedPages, memory`states, memory`code
      ensures GeometryOk()
      ensures PagesOk(index, pageRanges, protectedPages)
    {
      hide BlockCache.Guarded;
      var page := r / pageRanges;
      PageInIndex(r, pageRanges, ranges);
      DropKeepsPages(was, pageRanges, protectedPages, r, index[r]);
      var hasCode := PageContainsCode(index, pageRanges, page);
      if !hasCode {
        SetCodeProtection(r, false);
      }
    }

    // Takes a block off one range and recomputes the code mask from its neighbours.
    method DetachAndRecompute(id: BlockId, r: Range)
      requires GeometryOk() && r < ranges && (id, r) in listing && ListingKnown(blocks, listing)
      requires IndexOk(index, pageRanges, protectedPages, listing, ALL_CLOSED, 0)
      modifies this`index, this`protectedPages, memory`states, memory`code, this`listing
      ensures GeometryOk() && ListingKnown(blocks, listing)
      ensures IndexOk(index, pageRanges, protectedPages, listing, ALL_CLOSED, 0)
      ensures listing == old(listing) - {(id, r)}
      ensures Swapped(old(index[r].blocks), index[r].blocks, id)
      ensures forall x | 0 <= x < ranges && x != r :: index[x] == old(index[x])
    {
      hide BlockCache.Guarded;
      ghost var was := index;
      var neighbours, removed := RemoveByValue(index[r].blocks, id);
      assert removed;
      var code: Mask := {};
      for k := 0 to |neighbours|
        invariant forall p | 0 <= p < k ::
          neighbours[p] in blocks && r in blocks[neighbours[p]].masks && blocks[neighbours[p]].masks[r] <= code
        invariant k == 0 ==> code == {}
      {
        assert neighbours[k] in neighbours && (neighbours[k], r) in listing;
        code := code + blocks[neighbours[k]].masks[r];
      }
      var ar := AddressRange(neighbours, code);
      DropKeepsLists(index, listing, id, r, ar);
      assert Covers(ar, r, listing, |neighbours|);
      DropKeepsCode(index, listing, id, r, ar, ALL_CLOSED, 0, ALL_CLOSED, 0);
      index := index[r := ar];
      ReleasePage(r, was);
      listing := listing - {(id, r)};
    }

    // Takes a block off one range during an invalidation; the code mask is cleared only with
    // the last block. Range `open` is being scanned and covers only its first k blocks.
    method DetachOther(id: BlockId, r: Range, ghost open: int, ghost k: nat)
      requires GeometryOk() && r < ranges && (id, r) in listing && ListingKnown(blocks, listing) && r != open
      requires IndexOk(index, pageRanges, protectedPages, listing, open, k)
      modifies this`index, this`protectedPages, memory`states, memory`code, this`listing
      ensures GeometryOk() && ListingKnown(blocks, listing)
      ensures IndexOk(index, pageRanges, protectedPages, listing, open, k)
      ensures listing == old(listing) - {(id, r)}
      ensures forall x | 0 <= x < ranges && x != r :: index[x] == old(index[x])
    {
      hide BlockCache.Guarded;
      ghost var was := index;
      var others, removed := RemoveByValue(index[r].blocks, id);
      assert removed;
      var ar := AddressRange(others, if |others| == 0 then {} else index[r].code);
      DropKeepsLists(index, listing, id, r, ar);
      assert Covers(index[r], r, listing, |index[r].blocks|);
      assert Covers(ar, r, listing, |others|) by {
        forall p | 0 <= p < |others| ensures (others[p], r) in listing && listing[(others[p], r)] <= ar.code {
          assert others[p] in others && others[p] in index[r].blocks;
        }
      }
      DropKeepsCode(index, listing, id, r, ar, open, k, open, k);
      index := index[r := ar];
      SettlePage(r, was);
      listing := listing - {(id, r)};
    }

    // As ReleasePage, looking at the page only when r itself has become empty.
    method SettlePage(r: Range, ghost was: seq<AddressRange>)
      requires GeometryOk() && r < ranges == |was| && index == was[r := index[r]] && was[r].blocks != []
      requires PagesOk(was, pageRanges, protectedPages)
      modifies this`protectedPages, memory`states, memory`code
      ensures GeometryOk()
      ensures PagesOk(index, pageRanges, protectedPages)
    {
      hide BlockCache.Guarded;
      if |index[r].blocks| == 0 {
        ReleasePage(r, was);
      } else {
        DropKeepsPages(was, pageRanges, protectedPages, r, index[r]);
        PageOfRange(r, r / pageRanges, pageRanges);
        assert PageHasCode(index, pageRanges, r / pageRanges);
      }
    }

    // Takes the block at position i off the range that is being scanned.
    method DetachScanned(r: Range, i: nat)
      requires GeometryOk() && r < ranges && i < |index[r].blocks| && ListingKnown(blocks, listing)
      requires IndexOk(index, pageRanges, protectedPages, listing, r, i)
      requires i == 0 ==> index[r].code == {}
      modifies this`index, this`protectedPages, memory`states, memory`code, this`listing
      ensures GeometryOk() && ListingKnown(blocks, listing)
      ensures IndexOk(index, pageRanges, protectedPages, listing, r, i)
      ensures listing == old(listing) - {(old(index[r].blocks[i]), r)}
      ensures index[r] == AddressRange(SwapRemove(old(index[r].blocks), i), old(index[r].code))
    {
      hide BlockCache.Guarded;
      ghost var was := index;
      ghost var id := index[r].blocks[i];
      SwapRemoveElements(index[r].blocks, i);
      var ar := AddressRange(SwapRemove(index[r].blocks, i), index[r].code);
      DropKeepsLists(index, listing, id, r, ar);
      assert Covers(index[r], r, listing, i);
      assert Covers(ar, r, listing, i) by {
        forall p | 0 <= p < i && p < |ar.blocks| ensures ar.blocks[p] == index[r].blocks[p] {
          assert ar.blocks[..i][p] == index[r].blocks[..i][p];
        }
      }
      DropKeepsCode(index, listing, id, r, ar, r, i, r, i);
      index := index[r := ar];
      SettlePage(r, was);
      listing := listing - {(id, r)};
    }

    // -------- removal --------

    /**
      A block that nobody owns any longer is put into the pool; a block that was there with the
      same words is deleted. Afterwards every allocated block has its owner again.
    */
    method RetireJitBlock(id: BlockId)
      requires OwnedBut(blocks, keyMap, restoreCandidates, id)
      modifies this`blocks, this`restoreCandidates
      ensures Owned(blocks, keyMap, restoreCandidates) && Pooled(blocks, restoreCandidates, id)
      ensures SameLive(old(blocks), keyMap, blocks, keyMap)
      ensures restoreCandidates == old(restoreCandidates)[old(blocks[id].Hashed()) := id]
      ensures blocks == RetireBlocks(old(blocks), old(restoreCandidates), id)
    {
      RetireKeepsOwned(blocks, keyMap, restoreCandidates, id);
      var words := blocks[id].Hashed();
      if words in restoreCandidates {
        blocks := blocks - {restoreCandidates[words]};
      }
      restoreCandidates := restoreCandidates[words := id];
    }

    // Takes a block off all its ranges.
    method DetachAll(id: BlockId)
      requires GeometryOk() && ListingKnown(blocks, listing) && id in blocks
      requires ListedIn(listing, id, blocks[id].ranges, ranges)
      requires IndexOk(index, pageRanges, protectedPages, listing, ALL_CLOSED, 0)
      modifies this`index, this`protectedPages, memory`states, memory`code, this`listing
      ensures GeometryOk()
      ensures IndexOk(index, pageRanges, protectedPages, listing, ALL_CLOSED, 0)
      ensures ListingWithout(old(listing), listing, id)
      ensures ListsSwapped(old(index), index, blocks[id].ranges, id)
    {
      hide IndexOk, ListedIn, ListingLess, ListingKnown, ListingWithout, ListsSwapped, Swapped, BlockCache.Guarded;
      var addressRanges := blocks[id].ranges;
      ghost var listing0, index0 := listing, index;
      var j := 0;
      ListingLessNone(listing, id);
      ListsSwappedNone(index, id);
      while j < |addressRanges|
        invariant 0 <= j <= |addressRanges|
        invariant GeometryOk() && ListingKnown(blocks, listing)
        invariant IndexOk(index, pageRanges, protectedPages, listing, ALL_CLOSED, 0)
        invariant ListingLess(listing0, listing, id, addressRanges[..j])
        invariant ListsSwapped(index0, index, addressRanges[..j], id)
      {
        ListingLessNext(listing0, listing, id, addressRanges, ranges, j);
        ghost var was := index;
        DetachAndRecompute(id, addressRanges[j]);
        ListsSwappedNext(index0, was, index, addressRanges, j, id, listing0, ranges);
        j := j + 1;
      }
      assert addressRanges[..j] == addressRanges;
      ListingLessAll(listing0, listing, id, addressRanges, ranges);
    }

    // The state while a block is off the index and still in the maps.
    ghost predicate Detached(id: BlockId, listing0: Listing)
      reads this, memory
    {
      && GeometryOk() && |fast| == ranges * 256
      && AllBlocksOk(blocks, ranges, args, nextEntry)
      && Owned(blocks, keyMap, restoreCandidates) && ListingOk(blocks, keyMap, listing0)
      && IndexOk(index, pageRanges, protectedPages, listing, ALL_CLOSED, 0)
      && FastOk(fast, strays, blocks, keyMap)
      && Live(blocks, keyMap, id) && blocks[id].startAddrLocal / 2 < |fast|
      && ListingWithout(listing0, listing, id)
    }

    // A block that is off the index leaves the key map and the fast table, and is retired.
    method Disown(id: BlockId, ghost listing0: Listing)
      requires Detached(id, listing0)
      modifies this`blocks, this`keyMap, this`restoreCandidates, this`fast
      ensures Core() && OnlyRemoved(old(blocks), old(keyMap), blocks, keyMap, id) && Shed(old(State()), State(), {})
    {
      hide AllBlocksOk, IndexOk, ListingOk, ListingWithout, FastOk, Owned, OwnedBut, OnlyRemoved, SameLive, ClearOwn,
        RetireBlocks, Shed, BlockCache.Guarded;
      var block := blocks[id];
      ghost var t0 := State();
      UnownedByKey(blocks, keyMap, restoreCandidates, id);
      fast := ClearOwn(fast, block, id);
      keyMap := keyMap - {block.Key()};
      RetireJitBlock(id);
      RemovedSameLive(t0.blocks, t0.keyMap, t0.blocks, keyMap, blocks, keyMap, id);
      RetiredAreFewer(t0.blocks, t0.pool, id);
      FewerBlocksOk(t0.blocks, blocks, ranges, args, nextEntry);
      RemovalKeepsListing(t0.blocks, t0.keyMap, blocks, keyMap, listing0, listing, id);
      RemovalKeepsFast(t0.blocks, t0.keyMap, blocks, keyMap, t0.fast, fast, strays, id);
      RemovalSheds(t0, restoreCandidates, fast, id, false, 0);
    }

    method RemoveBlock(id: BlockId)
      requires Core() && Live(blocks, keyMap, id)
      modifies this`blocks, this`keyMap, this`restoreCandidates, this`index, this`protectedPages, memory`states, memory`code, this`fast, this`listing
      ensures Core() && OnlyRemoved(old(blocks), old(keyMap), blocks, keyMap, id) && Shed(old(State()), State(), {})
      ensures ListsSwapped(old(index), index, old(blocks[id].ranges), id)
    {
      hide AllBlocksOk, IndexOk, ListingOk, ListingKnown, ListedIn, ListingWithout, FastOk, Owned, OnlyRemoved,
        ListsSwapped, Shed, BlockCache.Guarded;
      ghost var listing0 := listing;
      LiveBlockFacts(id);
      DetachAll(id);
      Disown(id, listing0);
    }

    lemma LiveBlockFacts(id: BlockId)
      requires Core() && Live(blocks, keyMap, id)
      ensures GeometryOk() && ListingKnown(blocks, listing) && ListedIn(listing, id, blocks[id].ranges, ranges)
      ensures blocks[id].startAddrLocal / 2 < |fast|
    {
    }

    // -------- invalidation --------

    // The state while range r is scanned and its first i blocks have been kept.
    ghost predicate Scanning(r: Range, i: nat)
      reads this, memory
    {
      && GeometryOk() && |fast| == ranges * 256 && r < ranges
      && AllBlocksOk(blocks, ranges, args, nextEntry)
      && Owned(blocks, keyMap, restoreCandidates) && ListingOk(blocks, keyMap, listing)
      && IndexOk(index, pageRanges, protectedPages, listing, r, i)
      && FastOk(fast, strays, blocks, keyMap)
      && i <= |index[r].blocks| && (i == 0 ==> index[r].code == {})
    }

    lemma ScannedBlockFacts(r: Range, i: nat)
      requires Scanning(r, i) && i < |index[r].blocks|
      ensures var id := index[r].blocks[i];
        && ListingKnown(blocks, listing) && Live(blocks, keyMap, id) && (id, r) in listing
        && ListedIn(listing, id, blocks[id].ranges, ranges)
        && blocks[id].startAddrLocal / 2 < |fast|
    {
      var id := index[r].blocks[i];
      assert id in index[r].blocks;
    }

    // Takes a block off all its ranges but the scanned one, which it has left already.
    method DetachOthers(id: BlockId, r: Range, ghost i: nat, ghost listing0: Listing)
      requires GeometryOk() && ListingKnown(blocks, listing) && id in blocks && r < ranges
      requires ListedIn(listing0, id, blocks[id].ranges, ranges) && r in blocks[id].ranges
      requires listing == listing0 - {(id, r)}
      requires IndexOk(index, pageRanges, protectedPages, listing, r, i)
      modifies this`index, this`protectedPages, memory`states, memory`code, this`listing
      ensures GeometryOk() && index[r] == old(index[r])
      ensures IndexOk(index, pageRanges, protectedPages, listing, r, i)
      ensures ListingWithout(listing0, listing, id)
    {
      hide IndexOk, ListedIn, ListingLess, ListingKnown, ListingWithout, BlockCache.Guarded;
      var addressRanges := blocks[id].ranges;
      ghost var was := index[r];
      var j := 0;
      ListingLessNone(listing, id);
      while j < |addressRanges|
        invariant 0 <= j <= |addressRanges|
        invariant GeometryOk() && ListingKnown(blocks, listing) && index[r] == was
        invariant IndexOk(index, pageRanges, protectedPages, listing, r, i)
        invariant ListingLess(listing0 - {(id, r)}, listing, id, addressRanges[..j])
      {
        ListingLessNextOther(listing0, listing, id, addressRanges, ranges, j, r);
        if addressRanges[j] != r {
          DetachOther(id, addressRanges[j], r, i);
        }
        j := j + 1;
      }
      assert addressRanges[..j] == addressRanges;
      ListingLessAllOther(listing0, listing, id, addressRanges, ranges, r);
    }

    // The maps while the scanned range and its block's other ranges are off the index.
    ghost predicate Unlisted(id: BlockId, listing0: Listing)
      reads this
    {
      && |fast| == ranges * 256 && AllBlocksOk(blocks, ranges, args, nextEntry)
      && Owned(blocks, keyMap, restoreCandidates) && ListingOk(blocks, keyMap, listing0)
      && FastOk(fast, strays, blocks, keyMap)
      && Live(blocks, keyMap, id) && blocks[id].startAddrLocal / 2 < |fast|
      && ListingWithout(listing0, listing, id)
    }

    // An invalidated block leaves the fast table and the key map, and is retired or deleted.
    method Discard(id: BlockId, delete: bool, localAddr: Local, ghost listing0: Listing)
      requires Unlisted(id, listing0) && (delete ==> localAddr in blocks[id].literals)
      modifies this`blocks, this`keyMap, this`restoreCandidates, this`fast
      ensures |fast| == ranges * 256 && AllBlocksOk(blocks, ranges, args, nextEntry)
      ensures Owned(blocks, keyMap, restoreCandidates) && ListingOk(blocks, keyMap, listing)
      ensures FastOk(fast, strays, blocks, keyMap) && OnlyRemoved(old(blocks), old(keyMap), blocks, keyMap, id)
      ensures Shed(old(State()), State(), {localAddr}) && (delete ==> id !in blocks)
    {
      hide AllBlocksOk, ListingOk, ListingWithout, FastOk, Owned, OwnedBut, OnlyRemoved, SameLive, Clear,
        RetireBlocks, Shed, BlockCache.Guarded;
      var block := blocks[id];
      ghost var t0 := State();
      UnownedByKey(blocks, keyMap, restoreCandidates, id);
      DeleteKeepsOwned(blocks, keyMap, restoreCandidates, id);
      RetiredAreFewer(blocks, restoreCandidates, id);
      fast := Clear(fast, block.startAddrLocal / 2);
      keyMap := keyMap - {block.Key()};
      if !delete {
        RetireJitBlock(id);
        RemovedSameLive(t0.blocks, t0.keyMap, t0.blocks, keyMap, blocks, keyMap, id);
      } else {
        blocks := blocks - {id};
      }
      FewerBlocksOk(t0.blocks, blocks, ranges, args, nextEntry);
      RemovalKeepsListing(t0.blocks, t0.keyMap, blocks, keyMap, listing0, listing, id);
      RemovalKeepsFast(t0.blocks, t0.keyMap, blocks, keyMap, t0.fast, fast, strays, id);
      RemovalSheds(t0, restoreCandidates, fast, id, delete, localAddr);
      ShedMore(t0, State(), if delete then {localAddr} else {}, {localAddr});
    }

    // The block at position i of the scanned range leaves the cache.
    method InvalidateScanned(r: Range, i: nat, localAddr: Local)
      requires Scanning(r, i) && i < |index[r].blocks| && r == RangeOf(localAddr)
      modifies this`blocks, this`keyMap, this`restoreCandidates, this`index, this`protectedPages, memory`states, memory`code, this`fast,
        this`listing, this`invalidLiterals
      ensures Scanning(r, i) && Shed(old(State()), State(), {localAddr})
      ensures index[r] == AddressRange(SwapRemove(old(index[r].blocks), i), old(index[r].code))
      ensures OnlyRemoved(old(blocks), old(keyMap), blocks, keyMap, old(index[r].blocks[i]))
      ensures Noted(old(State()), old(index[r].blocks[i]), localAddr) != {} ==> old(index[r].blocks[i]) !in blocks
      ensures invalidLiterals == old(invalidLiterals) + Noted(old(State()), old(index[r].blocks[i]), localAddr)
    {
      hide AllBlocksOk, IndexOk, ListingOk, ListingKnown, ListedIn, ListingWithout, FastOk, Owned, OnlyRemoved,
        SwapRemove, Shed, BlockCache.Guarded;
      ScannedBlockFacts(r, i);
      var id := index[r].blocks[i];
      var literalInvalidation := localAddr in blocks[id].literals;
      ghost var listing0 := listing;
      ListedInHas(listing, id, blocks[id].ranges, ranges, r);
      DetachScanned(r, i);
      if literalInvalidation {
        invalidLiterals := invalidLiterals + {localAddr};
      }
      DetachOthers(id, r, i, listing0);
      Discard(id, literalInvalidation, localAddr, listing0);
    }

    // Looks at the block in position i: it stays, or it is invalidated.
    method ScanNext(r: Range, i: nat, localAddr: Local, ghost t0: Tables, ghost invalid0: set<Local>) returns (kept: bool)
      requires Scanning(r, i) && i < |index[r].blocks| && r == RangeOf(localAddr)
      requires Invalidated(t0, State(), localAddr) && invalidLiterals == invalid0 + NotedAll(t0, State(), localAddr)
      requires NoneDepends(blocks, index[r].blocks[..i], localAddr)
      modifies this`blocks, this`keyMap, this`restoreCandidates, this`index, this`protectedPages, memory`states, memory`code, this`fast,
        this`listing, this`invalidLiterals
      ensures Scanning(r, if kept then i + 1 else i)
      ensures |index[r].blocks| == old(|index[r].blocks|) - if kept then 0 else 1
      ensures Invalidated(t0, State(), localAddr) && invalidLiterals == invalid0 + NotedAll(t0, State(), localAddr)
      ensures NoneDepends(blocks, index[r].blocks[..if kept then i + 1 else i], localAddr)
    {
      hide AllBlocksOk, IndexOk, ListingOk, ListingKnown, ListedIn, FastOk, Owned, OnlyRemoved, Invalidated,
        NoneDepends, Shed, NotedAll, BlockCache.Guarded;
      ScannedBlockFacts(r, i);
      var id := index[r].blocks[i];
      assert (id, r) in listing;
      ListedInHas(listing, id, blocks[id].ranges, ranges, r);
      ScannedMask(r, i);
      var mask := blocks[id].masks[r];
      kept := GranuleOf(localAddr) !in mask;
      if kept {
        KeepKeepsIndex(index, pageRanges, protectedPages, listing, r, i, mask);
        NoneDependsMore(blocks, index[r].blocks, i, localAddr);
        index := index[r := AddressRange(index[r].blocks, index[r].code + mask)];
      } else {
        ghost var t1, ids := State(), index[r].blocks;
        ScannedAreLive(r, i);
        ScannedSwap(r, i);
        InvalidateScanned(r, i, localAddr);
        InvalidatedOne(t0, t1, State(), id, localAddr);
        NotedOneMore(t0, t1, State(), id, localAddr);
        NoneDependsKept(t1.blocks, t1.keyMap, blocks, keyMap, ids[..i], id, localAddr);
      }
    }

    lemma ScannedMask(r: Range, i: nat)
      requires Scanning(r, i) && i < |index[r].blocks|
      ensures index[r].blocks[i] in blocks && r in blocks[index[r].blocks[i]].masks
      ensures (index[r].blocks[i], r) in listing
      ensures listing[(index[r].blocks[i], r)] == blocks[index[r].blocks[i]].masks[r]
    {
      assert index[r].blocks[i] in index[r].blocks;
    }

    lemma ScannedAreLive(r: Range, i: nat)
      requires Scanning(r, i)
      ensures forall p | 0 <= p < i :: Live(blocks, keyMap, index[r].blocks[..i][p])
    {
      forall p | 0 <= p < i ensures Live(blocks, keyMap, index[r].blocks[..i][p]) {
        assert index[r].blocks[p] in index[r].blocks;
      }
    }

    lemma ScannedSwap(r: Range, i: nat)
      requires Scanning(r, i) && i < |index[r].blocks|
      ensures SwapRemove(index[r].blocks, i)[..i] == index[r].blocks[..i]
    {
      SwapRemoveElements(index[r].blocks, i);
    }

    /**
      Removes every block that depends on the granule of localAddr, and no other. Blocks that
      folded the literal at localAddr are deleted, the others go to the restore pool.
    */
    method InvalidateByAddr(localAddr: Local)
      requires Core() && RangeOf(localAddr) < ranges
      modifies this`blocks, this`keyMap, this`restoreCandidates, this`index, this`protectedPages, memory`states, memory`code, this`fast,
        this`listing, this`invalidLiterals
      ensures Core() && Invalidated(old(State()), State(), localAddr) && NoLiveDepends(blocks, keyMap, localAddr)
      ensures invalidLiterals == old(invalidLiterals) + NotedAll(old(State()), State(), localAddr)
    {
      hide AllBlocksOk, IndexOk, ListingOk, FastOk, Owned, NoneDepends, NoLiveDepends, Invalidated, NotedAll, BlockCache.Guarded;
      var r := RangeOf(localAddr);
      ghost var t0 := State();
      OpenKeepsIndex(index, pageRanges, protectedPages, listing, r);
      index := index[r := AddressRange(index[r].blocks, {})];
      NoneDependsEmpty(blocks, localAddr);
      InvalidatedNothing(t0, localAddr);
      NotedNothing(t0, localAddr);
      var i := 0;
      while i < |index[r].blocks|
        invariant Scanning(r, i)
        invariant Invalidated(t0, State(), localAddr)
        invariant NoneDepends(blocks, index[r].blocks[..i], localAddr)
        invariant invalidLiterals == old(invalidLiterals) + NotedAll(t0, State(), localAddr)
        decreases |index[r].blocks| - i
      {
        var kept := ScanNext(r, i, localAddr, t0, old(invalidLiterals));
        if kept {
          i := i + 1;
        }
      }
      ScannedIsClosed(index, pageRanges, protectedPages, listing, r);
      assert index[r].blocks[..i] == index[r].blocks;
      ScannedNoneLive(blocks, keyMap, listing, index, localAddr);
    }

    // -------- guest writes --------

    /**
      What every step keeps: the structures agree, every live block that is not stale is what it
      is taken for, and a trace in progress has recorded what is in memory or has been logged as
      overwritten. Without followed branches and folded literals nothing is ever stale or astray.
    */
    ghost predicate Inv()
      reads this, memory
    {
      && Kept() && 1 <= args.maxBlockSize <= MAX_BLOCK_SIZE
      && (compilingBlock ==> Tracing() && CountOk(trace, pipeline[0].virt, count, endBlock, plain, args))
    }

    // The part of it that is not about a trace in progress.
    ghost predicate Kept()
      reads `args, `blocks, `keyMap, `restoreCandidates, `index, `protectedPages, `fast, `nextEntry, `listing, `strays,
        `mem, `stale, memory
    {
      && Core() && AllRight(blocks, keyMap, mem, stale)
      && (args.Plain() ==> Sound())
    }

    ghost predicate Tracing()
      reads this
    {
      && TraceOk(trace, pipeline, mem, compileWriteAddrs, ranges, localise)
      && NoneTouched(blocks, keyMap, compileWriteAddrs)
      && trace.Key() !in keyMap
      && (!args.Follows() ==> AheadInLine(trace, pipeline))
      && (!args.literalOptimizations ==> trace.literals == [])
    }

    /** Where the loop over the instructions of a trace stops; the ARM9 does not cross a page. */
    predicate Ends()
      requires |pipeline| == 2
      reads `trace, `count, `endBlock, `args, `interrupted, `pipeline
    {
      || endBlock || count >= args.maxBlockSize || interrupted
      || (trace.num == 0 && pipeline[0].virt / 0x1000 != trace.startAddr / 0x1000)
    }

    /**
      The write barrier. Afterwards nothing that is live depends on the granule about to be
      written; a trace in progress remembers the address as well.
    */
    method CheckAndInvalidate(localAddr: Local)
      requires Core() && RangeOf(localAddr) < ranges
      modifies this`blocks, this`keyMap, this`restoreCandidates, this`index, this`protectedPages, memory`states, memory`code, this`fast,
        this`listing, this`invalidLiterals, this`compileWriteAddrs
      ensures Core() && Invalidated(old(State()), State(), localAddr) && NoLiveDepends(blocks, keyMap, localAddr)
      ensures compileWriteAddrs == if compilingBlock then old(compileWriteAddrs) + [localAddr] else old(compileWriteAddrs)
      ensures invalidLiterals == old(invalidLiterals) + NotedAll(old(State()), State(), localAddr)
    {
      hide AllBlocksOk, IndexOk, ListingOk, FastOk, Owned, NoLiveDepends, Invalidated, NotedAll, BlockCache.Guarded;
      if compilingBlock {
        compileWriteAddrs := compileWriteAddrs + [localAddr];
      }
      var range := index[RangeOf(localAddr)];
      if GranuleOf(localAddr) in range.code {
        InvalidateByAddr(localAddr);
      } else {
        UncoveredNoneDepends(blocks, keyMap, index, pageRanges, protectedPages, listing, localAddr);
        InvalidatedNothing(State(), localAddr);
        NotedNothing(State(), localAddr);
      }
    }

    /**
      A guest store: an aligned access stays inside one granule, and passes the barrier first.
    */
    method GuestWrite(localAddr: Local, bytes: Memory)
      requires Inv() && RangeOf(localAddr) < ranges
      requires forall x | x in bytes :: GranuleOf(x) == GranuleOf(localAddr)
      modifies this`blocks, this`keyMap, this`restoreCandidates, this`index, this`protectedPages, memory`states, memory`code, this`fast,
        this`listing, this`invalidLiterals, this`compileWriteAddrs, this`mem
      ensures Inv() && mem == old(mem) + bytes && (old(Sound()) ==> Sound())
      ensures Invalidated(old(State()), State(), localAddr) && NoLiveDepends(blocks, keyMap, localAddr)
      ensures compileWriteAddrs == if compilingBlock then old(compileWriteAddrs) + [localAddr] else old(compileWriteAddrs)
      ensures invalidLiterals == old(invalidLiterals) + NotedAll(old(State()), State(), localAddr)
    {
      hide IndexOk, ListingOk, FastOk, Owned, NoLiveDepends, Invalidated, AllRight, AllBlocksOk, TraceOk, NoneTouched,
        NotedAll, BlockCache.Guarded, CountOk, AheadInLine, Block.Key, JitArgs.Follows;
      ghost var t0, log0, mem0 := State(), compileWriteAddrs, mem;
      CheckAndInvalidate(localAddr);
      WriteKeepsRight(t0, stale, localAddr, bytes);
      if AllRight(t0.blocks, t0.keyMap, mem, {}) && FastOk(t0.fast, {}, t0.blocks, t0.keyMap) {
        WriteKeepsRight(t0, {}, localAddr, bytes);
        InvalidationKeepsFast(t0, State(), localAddr);
      }
      mem := mem + bytes;
      if compilingBlock {
        LoggedWriteKeepsTrace(trace, pipeline, mem0, log0, ranges, localise, localAddr, bytes);
        TouchedOneMore(t0, State(), log0, localAddr);
        AbsentStays(t0, State(), trace.Key(), localAddr);
      }
    }

    lemma WriteKeepsRight(t0: Tables, stale: set<BlockId>, localAddr: Local, bytes: Memory)
      requires AllBlocksOk(blocks, ranges, args, nextEntry) && AllRight(t0.blocks, t0.keyMap, mem, stale)
      requires Invalidated(t0, State(), localAddr) && NoLiveDepends(blocks, keyMap, localAddr)
      requires forall x | x in bytes :: GranuleOf(x) == GranuleOf(localAddr)
      ensures AllRight(blocks, keyMap, mem + bytes, stale)
    {
      hide AllBlocksOk, NoLiveDepends, Invalidated, AllRight, BlockCache.Guarded;
      CoherentAfterInvalidation(t0, State(), localAddr, mem, stale);
      WriteKeepsCoherent(blocks, keyMap, ranges, args, nextEntry, mem, stale, localAddr, bytes);
    }

    // -------- dispatch --------

    ghost predicate IsFor(id: BlockId, num: nat, localAddr: Local, addr: nat, thumb: bool)
      reads this
    {
      && Live(blocks, keyMap, id) && blocks[id].num == num && blocks[id].thumb == thumb
      && blocks[id].startAddr == addr && blocks[id].startAddrLocal == localAddr
    }

    /** A hit leads to a live block compiled for this address, CPU and state. */
    method LookUpBlock(num: nat, localAddr: Local, addr: nat, thumb: bool) returns (hit: bool, id: BlockId)
      requires Core() && StartOk(num, thumb, addr, localAddr, ranges)
      ensures hit <==> fast[localAddr / 2].tag == MakeLookupTag(addr, num, thumb)
      ensures hit ==> id == fast[localAddr / 2].offset
      ensures hit && (Sound() || localAddr / 2 !in strays) ==> IsFor(id, num, localAddr, addr, thumb)
    {
      var entry := fast[localAddr / 2];
      hit, id := entry.tag == MakeLookupTag(addr, num, thumb), entry.offset;
      if hit && (Sound() || localAddr / 2 !in strays) {
        EntryIsFor(num, localAddr, addr, thumb);
      }
    }

    lemma EntryIsFor(num: nat, localAddr: Local, addr: nat, thumb: bool)
      requires Core() && StartOk(num, thumb, addr, localAddr, ranges)
      requires fast[localAddr / 2].tag == MakeLookupTag(addr, num, thumb) && (Sound() || localAddr / 2 !in strays)
      ensures IsFor(fast[localAddr / 2].offset, num, localAddr, addr, thumb)
    {
      hide IndexOk, ListingOk, Owned, AllRight, MakeLookupTag, PathOk, FootprintOk, Allowed, BlockCache.Guarded;
      var entry := fast[localAddr / 2];
      assert EntryOk(entry, localAddr / 2, blocks, keyMap);
      var b := blocks[entry.offset];
      assert BlockOk(b, ranges);
      StartAligned(addr, localAddr);
      StartAligned(b.startAddr, b.startAddrLocal);
      TagIsUnique(addr, num, thumb, localAddr, b.startAddr, b.num, b.thumb, b.startAddrLocal);
    }

    // -------- recording --------

    // The fast table leads to the block of the key.
    ghost predicate Reached(num: nat, thumb: bool, addr: nat, localAddr: Local)
      reads this
    {
      var key := (num, addr + if thumb then 1 else 0);
      && key in keyMap && localAddr / 2 < |fast|
      && fast[localAddr / 2] == FastEntry(MakeLookupTag(addr, num, thumb), keyMap[key])
    }

    // The block that exists for a key was compiled from another backing, or there is none.
    ghost predicate Uncompiled(key: Key, localAddr: Local)
      reads this
    {
      key in keyMap && keyMap[key] in blocks ==> blocks[keyMap[key]].startAddrLocal != localAddr
    }

    /**
      CompileBlock up to its loop. A block that exists for the key is only entered into the fast
      table again, unless it was compiled from another backing: then it is removed.
    */
    method StartCompile(num: nat, thumb: bool, blockAddr: nat, at: Localisation)
      requires Inv() && !compilingBlock && Ranged(at) && at(blockAddr) != 0 && (!thumb ==> blockAddr % 4 == 0)
      requires StartOk(num, thumb, blockAddr, at(blockAddr), ranges)
      modifies this`blocks, this`keyMap, this`restoreCandidates, this`index, this`protectedPages, memory`states, memory`code, this`fast, this`listing,
        this`trace, this`pipeline, this`localise, this`compileWriteAddrs, this`compilingBlock, this`count, this`endBlock, this`plain
      ensures compilingBlock <==> old(Uncompiled((num, blockAddr + if thumb then 1 else 0), at(blockAddr)))
      ensures compilingBlock ==> Prepared(num, thumb, blockAddr, at)
      ensures var key := (num, blockAddr + if thumb then 1 else 0);
        if compilingBlock && key in old(keyMap)
        then OnlyRemoved(old(blocks), old(keyMap), blocks, keyMap, old(keyMap)[key]) && Shed(old(State()), State(), {})
        else blocks == old(blocks) && keyMap == old(keyMap) && restoreCandidates == old(restoreCandidates)
      ensures !compilingBlock ==> Reached(num, thumb, blockAddr, at(blockAddr))
      ensures compilingBlock && (num, blockAddr + if thumb then 1 else 0) !in old(keyMap) ==> fast == old(fast)
      ensures Inv() && (old(Sound()) ==> Sound())
    {
      hide AllBlocksOk, IndexOk, ListingOk, FastOk, AllRight, Owned, OnlyRemoved, MakeLookupTag, BlockOk, TraceOk,
        NoneTouched, Shed, BlockCache.Guarded, CountOk, AheadInLine, JitArgs.Follows;
      var key := (num, blockAddr + if thumb then 1 else 0);
      if key in keyMap {
        var id := keyMap[key];
        KeyIsBlock(blocks, keyMap, restoreCandidates, ranges, args, nextEntry, num, thumb, blockAddr);
        if blocks[id].startAddrLocal == at(blockAddr) {
          SwitchIn(id);
          return;
        }
        ReplaceBlock(id);
      }
      Begin(num, thumb, blockAddr, at);
    }

    // The recording starts with the pipeline filled from the start of the block.
    ghost predicate Prepared(num: nat, thumb: bool, blockAddr: nat, at: Localisation)
      reads this
    {
      && trace == NewTrace(num, thumb, blockAddr, at(blockAddr)) && localise == at && compileWriteAddrs == []
      && pipeline == [Fetch(mem, num, thumb, at, blockAddr), Fetch(mem, num, thumb, at, blockAddr + trace.Step())]
      && trace.Key() !in keyMap && count == 0 && !endBlock && !plain
    }

    // Enters a block into the fast table again.
    method SwitchIn(id: BlockId)
      requires Inv() && !compilingBlock && Live(blocks, keyMap, id) && blocks[id].startAddrLocal / 2 < |fast|
      modifies this`fast
      ensures fast == old(Enter(fast, blocks[id], id, blocks[id].startAddrLocal))
      ensures Inv() && (old(Sound()) ==> Sound())
    {
      hide AllBlocksOk, IndexOk, ListingOk, FastOk, Owned, Enter, AllRight, Tracing, BlockCache.Guarded;
      NewEntryOnlyKeepsFast(blocks, keyMap, fast, strays, id);
      if FastOk(fast, {}, blocks, keyMap) {
        NewEntryOnlyKeepsFast(blocks, keyMap, fast, {}, id);
      }
      fast := Enter(fast, blocks[id], id, blocks[id].startAddrLocal);
    }

    // A block for another backing goes before its key is compiled again.
    method ReplaceBlock(id: BlockId)
      requires Inv() && !compilingBlock && Live(blocks, keyMap, id)
      modifies this`blocks, this`keyMap, this`restoreCandidates, this`index, this`protectedPages, memory`states, memory`code, this`fast, this`listing
      ensures Inv() && (old(Sound()) ==> Sound())
      ensures OnlyRemoved(old(blocks), old(keyMap), blocks, keyMap, id) && Shed(old(State()), State(), {})
      ensures old(blocks[id].Key()) !in keyMap
    {
      hide AllBlocksOk, IndexOk, ListingOk, FastOk, Owned, OnlyRemoved, AllRight, ListsSwapped, Tracing, Shed, BlockCache.Guarded;
      ghost var t0 := State();
      RemoveBlock(id);
      RemovedKeepsRight(t0, State(), id, mem, stale);
    }

    // The pipeline is filled before the recording, and the log, begins.
    method Fill(num: nat, thumb: bool, blockAddr: nat, at: Localisation)
      requires NewTrace(num, thumb, blockAddr, at(blockAddr)).Key() !in keyMap
      modifies this`trace, this`pipeline, this`localise, this`compileWriteAddrs, this`compilingBlock, this`count, this`endBlock, this`plain
      ensures compilingBlock && Prepared(num, thumb, blockAddr, at)
    {
      hide Fetch, NewTrace, Block.Key, Block.Step;
      trace, localise := NewTrace(num, thumb, blockAddr, at(blockAddr)), at;
      pipeline := [Fetch(mem, num, thumb, at, blockAddr), Fetch(mem, num, thumb, at, blockAddr + trace.Step())];
      compileWriteAddrs := [];
      count, endBlock, plain := 0, false, false;
      compilingBlock := true;
    }

    method Begin(num: nat, thumb: bool, blockAddr: nat, at: Localisation)
      requires Inv() && !compilingBlock && Ranged(at) && at(blockAddr) != 0 && (!thumb ==> blockAddr % 4 == 0)
      requires StartOk(num, thumb, blockAddr, at(blockAddr), ranges) && blockAddr % 2 == 0
      requires NewTrace(num, thumb, blockAddr, at(blockAddr)).Key() !in keyMap
      modifies this`trace, this`pipeline, this`localise, this`compileWriteAddrs, this`compilingBlock, this`count, this`endBlock, this`plain
      ensures Inv() && compilingBlock && Prepared(num, thumb, blockAddr, at)
    {
      hide BlockCache.Kept, CountOk, Fetch, TraceOk, NoneTouched, StartOk, Ranged, AheadInLine, NewTrace, Block.Key,
        Block.Step, JitArgs.Follows;
      Fill(num, thumb, blockAddr, at);
      NewTraceOk(num, thumb, blockAddr, at, mem, ranges);
      NoneCounted(num, thumb, blockAddr, at(blockAddr), args);
      FetchVirtual(mem, num, thumb, at, blockAddr);
      NoneTouchedYet(blocks, keyMap);
    }

    // The word after the latest one; a Thumb word pair comes in one fetch on the ARM9.
    function NextFetch(): Fetched
      requires |pipeline| == 2 && |pipeline[1].word| in {2, 4}
      reads this
    {
      var virt := pipeline[1].virt + trace.Step();
      if trace.thumb && trace.num == 0 && virt % 4 == 2 && |pipeline[1].word| == 4
      then Fetched(virt, localise(virt), pipeline[1].word[2..])
      else Fetch(mem, trace.num, trace.thumb, localise, virt)
    }

    /**
      One instruction: the word that was prefetched for it is recorded, wherever memory has gone
      since, and the next word is fetched. Its writes follow as calls of GuestWrite.
    */
    method RecordInstruction()
      requires Inv() && compilingBlock && (trace.addrs == [] || !Ends())
      requires pipeline[0].addr != 0 && RangeOf(pipeline[0].addr) < ranges
      modifies this`trace, this`pipeline, this`count, this`endBlock, this`plain
      ensures Inv() && plain
      ensures var merged := Merges(old(trace), old(pipeline[0].word));
        && count == old(count) + (if merged then 0 else 1)
        && endBlock == (merged || endsBlock(trace.num, trace.thumb, old(pipeline[0].word)))
      ensures trace == WithInstruction(old(trace), old(pipeline[0]), trace.ranges)
      ensures Distinct(old(trace.ranges)) && Moved(old(trace.ranges), trace.ranges, RangeOf(old(pipeline[0].addr)))
      ensures pipeline == [old(pipeline[1]), old(NextFetch())]
    {
      hide BlockCache.Kept, CountOk, NoneTouched, AddedRange, TraceOk, FetchOk, WithInstruction, Merges, Moved, RangeOf,
        AheadInLine, Ranged, JitArgs.Follows, Fetch, StartOk, Distinct, Block.Key;
      ghost var was, pipeline0, count0, ended0, plain0 := trace, pipeline, count, endBlock, plain;
      TraceParts(was, pipeline, mem, compileWriteAddrs, ranges, localise);
      FetchHalf(pipeline[1], was.num, was.thumb, mem, compileWriteAddrs);
      TakeInstruction();
      InstructionRecorded(was, pipeline0, pipeline, mem, compileWriteAddrs, ranges, localise, trace.ranges, count0, count, ended0, endBlock,
        plain0, args);
    }

    // The latest fetched word enters the trace.
    method TakeInstruction()
      requires |pipeline| == 2 && FetchOk(pipeline[1], trace.num, trace.thumb, mem, compileWriteAddrs) && Ranged(localise)
      requires pipeline[1].addr == localise(pipeline[1].virt) && Distinct(trace.ranges) && |pipeline[1].word| in {2, 4}
      modifies this`trace, this`pipeline, this`count, this`endBlock, this`plain
      ensures plain && trace == WithInstruction(old(trace), old(pipeline[0]), trace.ranges)
      ensures AddedRange(old(trace.ranges), trace.ranges, RangeOf(old(pipeline[0].addr))) && |trace.ranges| <= old(|trace.ranges|) + 1
      ensures trace.ranges != [] && trace.ranges[|trace.ranges| - 1] == RangeOf(old(pipeline[0].addr))
      ensures Moved(old(trace.ranges), trace.ranges, RangeOf(old(pipeline[0].addr)))
      ensures var merged := Merges(old(trace), old(pipeline[0].word));
        && count == old(count) + (if merged then 0 else 1)
        && endBlock == (merged || endsBlock(old(trace.num), old(trace.thumb), old(pipeline[0].word)))
      ensures pipeline == [old(pipeline[1]), old(NextFetch())] && pipeline[1].virt == pipeline[0].virt + old(trace.Step())
      ensures FetchOk(pipeline[1], old(trace.num), old(trace.thumb), mem, compileWriteAddrs)
      ensures pipeline[1].addr == localise(pipeline[1].virt)
    {
      hide AddedRange, FetchOk, Merges, Moved, RangeOf, Ranged, AddMask, OtherWindow, Fetch, Distinct;
      var fetched := pipeline[0];
      var addressRanges := MoveToEnd(trace.ranges, RangeOf(fetched.addr));
      var merged := Merges(trace, fetched.word);
      count := if merged then count else count + 1;
      endBlock := merged || endsBlock(trace.num, trace.thumb, fetched.word);
      plain := true;
      AdvancePipeline();
      trace := trace.(virtuals := trace.virtuals + [fetched.virt], addrs := trace.addrs + [fetched.addr],
        words := trace.words + [fetched.word], ranges := addressRanges, masks := AddMask(trace.masks, fetched.addr),
        hasRemapDependency := trace.hasRemapDependency
          || OtherWindow(fetched.addr, fetched.virt, trace.startAddrLocal, trace.startAddr));
    }

    // The next word is fetched, or is the upper half of the latest one.
    method AdvancePipeline()
      requires |pipeline| == 2 && FetchOk(pipeline[1], trace.num, trace.thumb, mem, compileWriteAddrs) && Ranged(localise)
      requires pipeline[1].addr == localise(pipeline[1].virt)
      modifies this`pipeline
      ensures old(|pipeline[1].word| in {2, 4}) && pipeline == [old(pipeline[1]), old(NextFetch())]
      ensures pipeline[1].virt == pipeline[0].virt + trace.Step() && pipeline[1].addr == localise(pipeline[1].virt)
      ensures FetchOk(pipeline[1], trace.num, trace.thumb, mem, compileWriteAddrs)
    {
      hide Ranged, BlockCache.Guarded;
      ghost var was := pipeline[1];
      StepAligned(trace.thumb, was.virt);
      hide FetchOk, BlockCache.Guarded;
      FetchHalf(was, trace.num, trace.thumb, mem, compileWriteAddrs);
      var virt := pipeline[1].virt + trace.Step();
      if trace.thumb && trace.num == 0 && virt % 4 == 2 && |pipeline[1].word| == 4 {
        UpperHalfFetched(was, localise, mem, compileWriteAddrs);
        pipeline := [pipeline[1], Fetched(virt, localise(virt), pipeline[1].word[2..])];
      } else {
        FetchedNow(mem, trace.num, trace.thumb, localise, virt, compileWriteAddrs);
        pipeline := [pipeline[1], Fetch(mem, trace.num, trace.thumb, localise, virt)];
      }
    }

    /** An interrupt becomes pending, or is taken or masked. */
    method Interrupt(pending: bool)
      requires Inv()
      modifies this`interrupted
      ensures Inv() && interrupted == pending
    {
      hide BlockCache.Kept, CountOk, TraceOk, NoneTouched, AheadInLine;
      interrupted := pending;
    }

    // The trace goes on behind a conditional branch that has not been taken.
    method PassBranch()
      requires Inv() && compilingBlock && trace.addrs != [] && endBlock && args.Follows() && count < args.maxBlockSize
      requires !Linked(trace)
      modifies this`endBlock
      ensures Inv() && !endBlock
    {
      hide BlockCache.Kept, CountOk, TraceOk, NoneTouched, AheadInLine, Linked;
      PipelineSteps(trace, pipeline, mem, compileWriteAddrs, ranges, localise);
      BranchCounts(trace, pipeline[0].virt, pipeline[0].virt, count, endBlock, plain, plain, args);
      endBlock := false;
    }

    // A static branch that is followed has refilled the pipeline.
    method FollowBranch(target: nat)
      requires Inv() && compilingBlock && trace.addrs != [] && endBlock && args.Follows() && count < args.maxBlockSize
      requires target % 2 == 0 && (!trace.thumb ==> target % 4 == 0) && plain && MayFollow(trace)
      modifies this`pipeline, this`endBlock, this`plain
      ensures Inv() && !endBlock && pipeline == [Fetch(mem, trace.num, trace.thumb, localise, target),
        Fetch(mem, trace.num, trace.thumb, localise, target + trace.Step())]
    {
      hide BlockCache.Kept, CountOk, NoneTouched, TraceOk, Fetch, MayFollow, Linked;
      PipelineSteps(trace, pipeline, mem, compileWriteAddrs, ranges, localise);
      PipelineRefilled(trace, pipeline, target, mem, compileWriteAddrs, ranges, localise);
      FetchVirtual(mem, trace.num, trace.thumb, localise, target);
      LinkEnds(trace);
      BranchCounts(trace, pipeline[0].virt, target, count, endBlock, true, false, args);
      pipeline := [Fetch(mem, trace.num, trace.thumb, localise, target),
        Fetch(mem, trace.num, trace.thumb, localise, target + trace.Step())];
      endBlock, plain := false, false;
    }

    /**
      A literal load is folded if its address has a code index and is not known to be written. It is
      the latest instruction, and has not folded its literal yet.
    */
    method RecordLiteral(literalAddr: nat) returns (folded: bool)
      requires Inv() && compilingBlock && trace.addrs != [] && plain && RangeOf(localise(literalAddr)) < ranges
      modifies this`trace, this`plain
      ensures Inv()
      ensures folded <==> args.literalOptimizations && localise(literalAddr) != 0 && localise(literalAddr) !in invalidLiterals
      ensures (!folded ==> trace == old(trace)) && plain == !folded
      ensures folded ==> trace.Depends(localise(literalAddr))
      ensures folded ==> var a := localise(literalAddr);
        trace == WithLiteral(old(trace), a, Bytes(mem, LiteralBase(a), 4),
          if RangeOf(a) in old(trace.ranges) then old(trace.ranges) else old(trace.ranges) + [RangeOf(a)])
    {
      hide BlockCache.Kept, CountOk, NoneTouched, TraceOk, AddedRange, Grown, WithLiteral, FootprintOk, FreshOrLogged, FetchOk,
        AheadInLine, RangeOf, ShapeOk, JitArgs.Follows, Bytes, Distinct, Ranged, StartOk, Block.Key, Block.Depends;
      var translated := localise(literalAddr);
      folded := args.literalOptimizations && translated != 0 && translated !in invalidLiterals;
      if folded {
        ghost var was := trace;
        PipelineSteps(was, pipeline, mem, compileWriteAddrs, ranges, localise);
        FoldLiteral(translated);
        WithLiteralSame(was, translated, Bytes(mem, LiteralBase(translated), 4), trace.ranges);
        LiteralCounts(was, pipeline[0].virt, translated, Bytes(mem, LiteralBase(translated), 4), trace.ranges, count, endBlock, args);
        LiteralKeepsTrace(was, pipeline, mem, compileWriteAddrs, ranges, localise, translated, trace.ranges);
        if !args.Follows() {
          LiteralAhead(was, pipeline, translated, Bytes(mem, LiteralBase(translated), 4), trace.ranges);
        }
      }
    }

    // A literal enters the trace.
    method FoldLiteral(translated: Local)
      requires Distinct(trace.ranges)
      modifies this`trace, this`plain
      ensures !plain && trace == WithLiteral(old(trace), translated, Bytes(mem, LiteralBase(translated), 4), trace.ranges)
      ensures trace.ranges ==
        if RangeOf(translated) in old(trace.ranges) then old(trace.ranges) else old(trace.ranges) + [RangeOf(translated)]
      ensures AddedRange(old(trace.ranges), trace.ranges, RangeOf(translated))
    {
      hide AddedRange, RangeOf, AddMask;
      var addressRanges := AppendIfNew(trace.ranges, RangeOf(translated));
      var word := Bytes(mem, LiteralBase(translated), 4);
      plain := false;
      trace := trace.(literals := trace.literals + [translated], literalWords := trace.literalWords + [word],
        ranges := addressRanges, masks := AddMask(trace.masks, translated));
    }

    /** An exception or a change of the memory mapping ends the trace without publishing it. */
    method AbortTrace()
      requires Inv()
      modifies this`compilingBlock
      ensures Inv() && !compilingBlock
    {
      compilingBlock := false;
    }

    // -------- remapping --------

    // Removes a live block; what the cache promises still holds.
    method RemoveLive(id: BlockId)
      requires Inv() && Live(blocks, keyMap, id)
      modifies this`blocks, this`keyMap, this`restoreCandidates, this`index, this`protectedPages, memory`states, memory`code, this`fast, this`listing
      ensures Inv() && (old(Sound()) ==> Sound())
      ensures OnlyRemoved(old(blocks), old(keyMap), blocks, keyMap, id) && Shed(old(State()), State(), {})
      ensures ListsSwapped(old(index), index, old(blocks[id].ranges), id)
    {
      hide AllBlocksOk, IndexOk, ListingOk, FastOk, Owned, OnlyRemoved, ListsSwapped, AllRight, NoneTouched, TraceOk,
        Shed, InLine, BlockCache.Guarded;
      ghost var t0 := State();
      RemoveBlock(id);
      RemovedKeepsRight(t0, State(), id, mem, stale);
      if compilingBlock {
        RemovedKeepsTrace(t0.blocks, t0.keyMap, blocks, keyMap, restoreCandidates, id, compileWriteAddrs, trace.Key());
      }
    }

    // The block at position i of range r stays, or is removed because it is dependent.
    method SortNext(r: Range, i: nat, region: nat, regions: seq<nat>, ghost done: seq<nat>, ghost t0: Tables) returns (kept: bool)
      requires Inv() && r < ranges && i < |index[r].blocks| && region == RegionOfRange(r) && region in regions
      requires RemovedOnly(t0, State(), regions) && ListClean(blocks, index[r].blocks[..i], region)
      requires AllClean(blocks, keyMap, done, ranges) && CleanIn(blocks, keyMap, region, r)
      modifies this`blocks, this`keyMap, this`restoreCandidates, this`index, this`protectedPages, memory`states, memory`code, this`fast, this`listing
      ensures Inv() && (old(Sound()) ==> Sound()) && |index[r].blocks| == old(|index[r].blocks|) - if kept then 0 else 1
      ensures i <= |index[r].blocks| && (kept ==> i < |index[r].blocks|)
      ensures RemovedOnly(t0, State(), regions)
      ensures ListClean(blocks, index[r].blocks[..if kept then i + 1 else i], region)
      ensures AllClean(blocks, keyMap, done, ranges) && CleanIn(blocks, keyMap, region, r)
    {
      hide AllBlocksOk, IndexOk, ListingOk, FastOk, Owned, OnlyRemoved, ListsSwapped, AllRight, Tracing, RemovedOnly,
        ListClean, AllClean, CleanIn, RemapDependent, Shed, Sound, BlockCache.Guarded;
      var id := index[r].blocks[i];
      ListedBlock(r, i);
      var dependent := IsRemapDependent(blocks[id], region);
      kept := !dependent;
      if dependent {
        ghost var t1, index1 := State(), index;
        ListedAreLive(r, i);
        RemoveLive(id);
        ScannedSwapped(index1, index, r, i, t1.blocks[id].ranges);
        RemovedOneMore(t0, t1, State(), regions, id, r);
        ListCleanKept(t1.blocks, t1.keyMap, blocks, keyMap, index1[r].blocks[..i], id, region);
        RemovalKeepsClean(t1.blocks, t1.keyMap, blocks, keyMap, done, region, r, ranges, id);
      } else {
        ListCleanMore(blocks, index[r].blocks, i, region);
      }
    }

    lemma ListedBlock(r: Range, i: nat)
      requires Core() && r < ranges && i < |index[r].blocks|
      ensures var id := index[r].blocks[i];
        Live(blocks, keyMap, id) && r in blocks[id].masks && r in blocks[id].ranges && Distinct(index[r].blocks)
    {
      assert index[r].blocks[i] in index[r].blocks && BlockOk(blocks[index[r].blocks[i]], ranges);
    }

    lemma ListedAreLive(r: Range, i: nat)
      requires Core() && r < ranges && i <= |index[r].blocks|
      ensures forall p | 0 <= p < i :: Live(blocks, keyMap, index[r].blocks[..i][p])
    {
      forall p | 0 <= p < i ensures Live(blocks, keyMap, index[r].blocks[..i][p]) {
        ListedBlock(r, p);
      }
    }

    // Removes the dependent blocks of one range.
    method SortRange(r: Range, region: nat, regions: seq<nat>, ghost done: seq<nat>, ghost t0: Tables)
      requires Inv() && r < ranges && region == RegionOfRange(r) && region in regions
      requires RemovedOnly(t0, State(), regions)
      requires AllClean(blocks, keyMap, done, ranges) && CleanIn(blocks, keyMap, region, r)
      modifies this`blocks, this`keyMap, this`restoreCandidates, this`index, this`protectedPages, memory`states, memory`code, this`fast, this`listing
      ensures Inv() && (old(Sound()) ==> Sound()) && RemovedOnly(t0, State(), regions)
      ensures AllClean(blocks, keyMap, done, ranges) && CleanIn(blocks, keyMap, region, r + 1)
    {
      hide AllBlocksOk, ListingOk, FastOk, Owned, AllRight, Tracing, RemovedOnly, AllClean, CleanIn, RemapDependent,
        CodeOk, PagesOk, ListsOk, Sound, BlockCache.Guarded;
      var i := 0;
      while i < |index[r].blocks|
        invariant Inv() && (old(Sound()) ==> Sound()) && i <= |index[r].blocks| && RemovedOnly(t0, State(), regions)
        invariant ListClean(blocks, index[r].blocks[..i], region)
        invariant AllClean(blocks, keyMap, done, ranges) && CleanIn(blocks, keyMap, region, r)
        decreases |index[r].blocks| - i
      {
        var kept := SortNext(r, i, region, regions, done, t0);
        if kept {
          i := i + 1;
        }
      }
      assert index[r].blocks[..i] == index[r].blocks;
      RangeIsClean(blocks, keyMap, listing, index, region, r);
    }

    /**
      Before shared memory is remapped: exactly the blocks go that have code in a remappable
      region and embed another window, or fold a literal of that region. What stays has its
      code there in the window of its entry, which is looked up at every dispatch.
    */
    method InvalidateRemappedCode(dsi: bool)
      requires Inv()
      modifies this`blocks, this`keyMap, this`restoreCandidates, this`index, this`protectedPages, memory`states, memory`code, this`fast, this`listing
      ensures Inv() && (old(Sound()) ==> Sound()) && Shed(old(State()), State(), {})
      ensures forall x :: Live(blocks, keyMap, x) <==>
        Live(old(blocks), old(keyMap), x) && !Remappable(old(blocks)[x], WalkedRegions(dsi))
      ensures forall x | Live(blocks, keyMap, x) :: blocks[x] == old(blocks)[x]
      ensures forall x | Live(blocks, keyMap, x) && x !in stale :: InEntryWindow(blocks[x], WalkedRegions(dsi))
    {
      hide AllBlocksOk, IndexOk, ListingOk, FastOk, Owned, AllRight, Tracing, RemovedOnly, CleanIn, Remappable, Sound,
        Shed, InEntryWindow, BlockCache.Guarded;
      var regions := WalkedRegions(dsi);
      ghost var t0 := State();
      RemovedNone(t0, regions);
      for n := 0 to |regions|
        invariant Inv() && (old(Sound()) ==> Sound()) && RemovedOnly(t0, State(), regions)
        invariant AllClean(blocks, keyMap, regions[..n], ranges)
      {
        SortRegion(regions[n], regions, regions[..n], t0);
        assert regions[..n + 1] == regions[..n] + [regions[n]];
      }
      assert regions[..|regions|] == regions;
      ExactlyRemappable(t0, State(), regions, ranges, args, nextEntry);
      RemovedSheds(t0, State(), regions);
      AllKeptInWindow(blocks, keyMap, ranges, args, nextEntry, mem, stale, regions);
    }

    // Walks the ranges of one region. The index beyond a region's memory is empty.
    method SortRegion(region: nat, regions: seq<nat>, ghost done: seq<nat>, ghost t0: Tables)
      requires Inv() && region in regions && RemovedOnly(t0, State(), regions)
      requires AllClean(blocks, keyMap, done, ranges)
      modifies this`blocks, this`keyMap, this`restoreCandidates, this`index, this`protectedPages, memory`states, memory`code, this`fast, this`listing
      ensures Inv() && (old(Sound()) ==> Sound()) && RemovedOnly(t0, State(), regions)
      ensures AllClean(blocks, keyMap, done, ranges) && CleanIn(blocks, keyMap, region, ranges)
    {
      hide Core, AllRight, Tracing, RemovedOnly, AllClean, CleanIn, Sound, BlockCache.Guarded;
      var r := region * REGION_RANGES;
      CleanBelow(blocks, keyMap, region);
      while r < ranges && r < (region + 1) * REGION_RANGES
        invariant r >= region * REGION_RANGES
        invariant Inv() && (old(Sound()) ==> Sound()) && RemovedOnly(t0, State(), regions)
        invariant AllClean(blocks, keyMap, done, ranges) && CleanIn(blocks, keyMap, region, r)
      {
        SortRange(r, region, regions, done, t0);
        r := r + 1;
      }
      RegionIsClean(blocks, keyMap, region, r, ranges);
    }

    // -------- reset --------

    // Empties the ranges of all live blocks and deletes every block.
    method DeleteAll()
      requires |index| == ranges && AllBlocksOk(blocks, ranges, args, nextEntry) && Owned(blocks, keyMap, restoreCandidates)
      requires ListedByOnly(index, blocks, keyMap, keyMap.Keys)
      modifies this`blocks, this`index
      ensures blocks == map[] && |index| == ranges && EmptyIndex(index)
    {
      hide AllBlocksOk, Owned, Undeleted, ListedByOnly, EmptiedIn, EmptyIndex, Live, BlockCache.Guarded;
      ghost var blocks0, index0 := blocks, index;
      AllUndeleted(blocks, keyMap, restoreCandidates);
      var candidates := restoreCandidates.Keys;
      while candidates != {}
        invariant candidates <= restoreCandidates.Keys && index == index0
        invariant Undeleted(blocks0, blocks, keyMap, restoreCandidates, keyMap.Keys, candidates)
        invariant forall x | x in blocks :: x in blocks0 && blocks[x] == blocks0[x]
        decreases candidates
      {
        var h :| h in candidates;
        PooledDeleted(blocks0, blocks, keyMap, restoreCandidates, keyMap.Keys, candidates, h);
        blocks := blocks - {restoreCandidates[h]};
        candidates := candidates - {h};
      }
      var keys := keyMap.Keys;
      while keys != {}
        invariant keys <= keyMap.Keys && |index| == ranges
        invariant Undeleted(blocks0, blocks, keyMap, restoreCandidates, keys, {})
        invariant ListedByOnly(index, blocks0, keyMap, keys)
        invariant forall x | x in blocks :: x in blocks0 && blocks[x] == blocks0[x]
        decreases keys
      {
        var k :| k in keys;
        ghost var was := index;
        LiveDeleted(blocks0, blocks, keyMap, restoreCandidates, keys, {}, k);
        BlockOfAll(blocks0, ranges, args, nextEntry, keyMap[k]);
        RangesInIndex(blocks0[keyMap[k]], ranges);
        index := EmptyRanges(index, blocks[keyMap[k]].ranges);
        EmptiedLength(was, index, blocks[keyMap[k]].ranges);
        VisitedOne(was, index, blocks0, keyMap, keys, k);
        blocks := blocks - {keyMap[k]};
        keys := keys - {k};
      }
      NothingUndeleted(blocks0, blocks, keyMap, restoreCandidates);
      NothingListed(index, blocks0, keyMap);
    }

    // All windows are unmapped, and no page contains code any more.
    method ResetMemory()
      requires GeometryOk()
      modifies this`protectedPages, memory`placeholders, memory`mappings, memory`states, memory`code, memory`views
      ensures GeometryOk() && protectedPages == {} && memory.UpToDate()
    {
      hide FastMemory.Structure, PagesAgree;
      memory.Reset();
      memory.ForgetCode();
      protectedPages := {};
      NoPagesAgree(memory.page);
    }

    /** Afterwards nothing is allocated or indexed, and no fast table entry is left. */
    method ResetBlockCache()
      requires Core()
      modifies this`blocks, this`keyMap, this`restoreCandidates, this`index, this`protectedPages, memory`placeholders, memory`mappings, memory`states,
        memory`code, memory`views, this`fast, this`listing,
        this`invalidLiterals, this`nextEntry, this`stale, this`strays
      ensures Core() && blocks == map[] && keyMap == map[] && restoreCandidates == map[] && invalidLiterals == {}
      ensures EmptyIndex(index) && protectedPages == {} && stale == {} && strays == {} && Sound()
      ensures forall s | 0 <= s < |fast| :: fast[s].tag == EMPTY_TAG
      ensures memory.UpToDate()
    {
      hide AllBlocksOk, IndexOk, ListingOk, FastOk, Owned, ListedByOnly, EmptyIndex, AllRight, BlockCache.Guarded, FastMemory.UpToDate;
      IndexedAreLive(index, pageRanges, protectedPages, blocks, keyMap, listing, ranges, args, nextEntry);
      ResetMemory();
      invalidLiterals := {};
      DeleteAll();
      ClearTables();
      EmptyIndexOk(index, pageRanges);
      EmptyTablesOk(fast, ranges, args);
      EmptyMapNoneLive(blocks, keyMap);
      NoneLiveIsRight(blocks, keyMap, mem, []);
    }

    method ClearTables()
      modifies this`keyMap, this`restoreCandidates, this`fast, this`listing, this`nextEntry, this`stale, this`strays
      ensures fast == EmptyTable(|old(fast)|) && keyMap == map[] && restoreCandidates == map[] && listing == map[]
      ensures nextEntry == 0 && stale == {} && strays == {}
    {
      fast := EmptyTable(|fast|);
      keyMap, restoreCandidates, listing := map[], map[], map[];
      nextEntry, stale, strays := 0, {}, {};
    }

    /** New settings apply to an empty cache. */
    method SetJITArgs(requested: JitArgs, fastMemSupported: bool)
      requires Inv() && !compilingBlock
      modifies this`args, this`blocks, this`keyMap, this`restoreCandidates, this`index, this`protectedPages, memory`placeholders, memory`mappings, memory`states,
        memory`code, memory`views, this`fast, this`listing,
        this`invalidLiterals, this`nextEntry, this`stale, this`strays
      ensures old(memory.UpToDate()) ==> memory.UpToDate()
      ensures Inv() && 1 <= args.maxBlockSize <= MAX_BLOCK_SIZE && (args.fastMemory ==> fastMemSupported)
      ensures args == requested.Clamped().(fastMemory := requested.fastMemory && fastMemSupported)
      ensures if args == old(args) then State() == old(State()) else State() == Tables(map[], map[], map[], fast) && Sound()
    {
      hide FastMemory.UpToDate, IndexOk, ListingOk, FastOk, Owned, AllRight, EmptyIndex, BlockCache.Guarded;
      var args' := requested.Clamped().(fastMemory := requested.fastMemory && fastMemSupported);
      if args' != args {
        ResetBlockCache();
        EmptyMapNoneLive(blocks, keyMap);
        NoneLiveIsRight(blocks, keyMap, mem, []);
      }
      args := args';
    }

    // -------- publication --------

    // A block is allocated for the trace and owned by nobody yet.
    ghost predicate Staged(id: BlockId)
      reads this, memory
    {
      && GeometryOk() && |fast| == ranges * 256
      && AllBlocksOk(blocks, ranges, args, nextEntry)
      && OwnedBut(blocks, keyMap, restoreCandidates, id) && ListingOk(blocks, keyMap, listing)
      && IndexOk(index, pageRanges, protectedPages, listing, ALL_CLOSED, 0)
      && FastOk(fast, strays, blocks, keyMap) && AllRight(blocks, keyMap, mem, stale)
      && Stands(blocks[id], trace) && RangeOf(trace.startAddrLocal) < ranges && trace.startAddrLocal % 2 == 0
    }

    // A trace is complete: it may be published once the pool has been asked for its words.
    ghost predicate Recorded()
      reads this, memory
    {
      && Core() && AllRight(blocks, keyMap, mem, stale) && trace.Key() !in keyMap
      && BlockOk(trace, ranges) && Allowed(trace, args)
    }

    // Takes the candidate for the trace's words out of the pool: it is used, or deleted.
    method TakeCandidate() returns (restored: bool, id: BlockId)
      requires Recorded()
      modifies this`blocks, this`restoreCandidates
      ensures restored <==> Restorable(old(State()), trace)
      ensures trace.Hashed() !in restoreCandidates
      ensures SameLive(old(blocks), old(keyMap), blocks, keyMap)
      ensures if restored then Staged(id) else Recorded()
      ensures restored ==> id == old(restoreCandidates)[trace.Hashed()] && id in old(blocks)
      ensures restored ==> blocks == old(blocks)[id := Restored(old(blocks)[id], trace)]
      ensures restoreCandidates == old(restoreCandidates) - {trace.Hashed()}
      ensures !restored ==> forall x | x in blocks :: x in old(blocks) && blocks[x] == old(blocks)[x]
    {
      hide AllBlocksOk, IndexOk, ListingOk, FastOk, Owned, OwnedBut, SameLive, AllRight, Stands, BlockOk, Allowed,
        MayRestore, Restored, BlockCache.Guarded;
      restored, id := false, 0;
      ghost var blocks0 := blocks;
      var h := trace.Hashed();
      PoolKnown(blocks, keyMap, restoreCandidates);
      if h in restoreCandidates {
        id := restoreCandidates[h];
        restored := MayRestore(blocks[id], trace);
        if restored {
          RestoredKey(blocks[id], trace);
          TakeFromPool(blocks, keyMap, restoreCandidates, h, trace);
          RestoredStands(blocks[id], trace);
          RestoredOk(blocks, ranges, args, nextEntry, id, trace);
          StartSlot(trace, ranges, fast);
          restoreCandidates := restoreCandidates - {h};
          blocks := blocks[id := Restored(blocks[id], trace)];
        } else {
          DropFromPool(blocks, keyMap, restoreCandidates, h);
          FewerBlocksOk(blocks, blocks - {id}, ranges, args, nextEntry);
          restoreCandidates := restoreCandidates - {h};
          blocks := blocks - {id};
        }
        SameLiveKeepsListing(blocks0, keyMap, blocks, keyMap, listing);
        SameLiveKeepsFast(blocks0, keyMap, blocks, keyMap, fast, strays);
        SameLiveKeepsCoherent(blocks0, keyMap, blocks, keyMap, mem, stale);
      } else {
        SameLiveRefl(blocks, keyMap);
      }
    }

    // Compiles the trace; when native code memory is full, that resets the whole cache.
    method Allocate(full: bool) returns (id: BlockId)
      requires Recorded() && trace.Hashed() !in restoreCandidates
      modifies this`blocks, this`keyMap, this`restoreCandidates, this`index, this`protectedPages, memory`placeholders, memory`mappings, memory`states,
        memory`code, memory`views, this`fast, this`listing,
        this`invalidLiterals, this`nextEntry, this`stale, this`strays
      ensures old(memory.UpToDate()) ==> memory.UpToDate()
      ensures Staged(id) && blocks[id] == trace
      ensures full ==> NoneLive(blocks, keyMap) && stale == {} && strays == {} && blocks == map[id := trace]
      ensures !full ==> SameLive(old(blocks), old(keyMap), blocks, keyMap) && stale == old(stale) && strays == old(strays)
      ensures !full ==> id == old(nextEntry) && blocks == old(blocks)[id := trace] && restoreCandidates == old(restoreCandidates)
      ensures invalidLiterals == if full then {} else old(invalidLiterals)
    {
      hide FastMemory.UpToDate, AllBlocksOk, IndexOk, ListingOk, FastOk, Owned, OwnedBut, SameLive, AllRight, BlockOk, Allowed, Sources,
        NoneLive, Live, EmptyIndex, BlockCache.Guarded;
      if full {
        ResetBlockCache();
        EmptyMapNoneLive(blocks, keyMap);
      }
      id := nextEntry;
      ghost var blocks0 := blocks;
      NewBlockOk(blocks, ranges, args, nextEntry, trace);
      StartSlot(trace, ranges, fast);
      AllocateBlock(blocks, keyMap, restoreCandidates, id, trace);
      blocks := blocks[id := trace];
      nextEntry := nextEntry + 1;
      SameLiveKeepsListing(blocks0, keyMap, blocks, keyMap, listing);
      SameLiveKeepsFast(blocks0, keyMap, blocks, keyMap, fast, strays);
      SameLiveKeepsCoherent(blocks0, keyMap, blocks, keyMap, mem, stale);
      if full {
        SameLiveNone(blocks0, keyMap, blocks, keyMap);
      }
    }

    // The block to publish: the pool's candidate, or a new one.
    method Stage(full: bool) returns (restored: bool, id: BlockId)
      requires Recorded()
      modifies this`blocks, this`keyMap, this`restoreCandidates, this`index, this`protectedPages, memory`placeholders, memory`mappings, memory`states,
        memory`code, memory`views, this`fast, this`listing,
        this`invalidLiterals, this`nextEntry, this`stale, this`strays
      ensures old(memory.UpToDate()) ==> memory.UpToDate()
      ensures restored <==> Restorable(old(State()), trace)
      ensures restored ==> id == old(restoreCandidates)[trace.Hashed()] && id in old(blocks)
      ensures Staged(id) && id in blocks && blocks[id] == StagedBlock(old(State()), trace, restored, id)
      ensures forall x | x in blocks && x != id :: !(full && !restored) && x in old(blocks) && blocks[x] == old(blocks)[x]
      ensures !restored && !full ==> id !in old(blocks)
      ensures restored || !full ==> restoreCandidates == old(restoreCandidates) - {trace.Hashed()}
      ensures invalidLiterals == if full && !restored then {} else old(invalidLiterals)
      ensures if full && !restored then NoneLive(blocks, keyMap) && stale == {} && strays == {}
        else SameLive(old(blocks), old(keyMap), blocks, keyMap) && stale == old(stale) && strays == old(strays)
    {
      hide FastMemory.UpToDate, SameLive, NoneLive, AllBlocksOk, BlockOk, Allowed, IndexOk, ListingOk, FastOk, Owned, OwnedBut, AllRight,
        Stands, MayRestore, Restored, BlockCache.Guarded;
      NextIsNew(blocks, ranges, args, nextEntry);
      restored, id := TakeCandidate();
      if !restored {
        ghost var blocks1, keyMap1 := blocks, keyMap;
        id := Allocate(full);
        if !full {
          SameLiveTrans(old(blocks), old(keyMap), blocks1, keyMap1, blocks, keyMap);
        }
      }
    }

    // Lists a block in all its ranges.
    method IndexBlock(id: BlockId)
      requires GeometryOk() && id in blocks && FootprintOk(blocks[id], ranges) && NotListed(listing, id)
      requires IndexOk(index, pageRanges, protectedPages, listing, ALL_CLOSED, 0)
      modifies this`index, this`protectedPages, memory`states, memory`code, this`listing
      ensures GeometryOk() && IndexOk(index, pageRanges, protectedPages, listing, ALL_CLOSED, 0)
      ensures ListingMore(old(listing), listing, id, blocks[id], blocks[id].ranges)
    {
      hide IndexOk, FootprintOk, NotListed, ListingMore, BlockCache.Guarded;
      var b := blocks[id];
      ghost var listing0 := listing;
      ListingMoreNone(listing, id, b);
      assert b.ranges[..0] == [];
      for j := 0 to |b.ranges|
        invariant GeometryOk() && IndexOk(index, pageRanges, protectedPages, listing, ALL_CLOSED, 0)
        invariant ListingMore(listing0, listing, id, b, b.ranges[..j])
      {
        ListingMoreNext(listing0, listing, id, b, ranges, j);
        AddToRange(id, b.ranges[j], b.masks[b.ranges[j]]);
      }
      assert b.ranges[..|b.ranges|] == b.ranges;
    }

    // The staged block is listed, and found by key and through the fast table slot of the trace.
    method Enlist(id: BlockId)
      requires Staged(id)
      modifies this`index, this`protectedPages, memory`states, memory`code, this`listing, this`keyMap, this`fast, this`strays
      ensures Core() && OnlyAdded(blocks, old(keyMap), blocks, keyMap, id) && trace.startAddrLocal / 2 < |fast|
      ensures id in blocks && fast == Enter(old(fast), blocks[id], id, trace.startAddrLocal)
      ensures strays == StraysAfter(old(strays), blocks[id], trace.startAddrLocal)
    {
      hide AllBlocksOk, IndexOk, ListingOk, FastOk, Owned, OwnedBut, OnlyAdded, AllRight, BlockOk, Allowed, Stands,
        NotListed, ListingMore, Enter, FootprintOk, Sources, StraysAfter, BlockCache.Guarded;
      ghost var keyMap0, listing0 := keyMap, listing;
      OwnedButHas(blocks, keyMap, restoreCandidates, id);
      BlockOfAll(blocks, ranges, args, nextEntry, id);
      StartSlot(blocks[id], ranges, fast);
      NotLiveNotListed(blocks, keyMap, restoreCandidates, listing, id);
      IndexBlock(id);
      OwnIsOwned(blocks, keyMap, restoreCandidates, id);
      keyMap := keyMap[blocks[id].Key() := id];
      ListingMoreAll(blocks, keyMap0, keyMap, listing0, listing, id, ranges);
      AddedKeepsLive(blocks, keyMap0, keyMap, id);
      NewEntryKeepsFast(blocks, keyMap0, keyMap, fast, strays, id, trace.startAddrLocal);
      strays := StraysAfter(strays, blocks[id], trace.startAddrLocal);
      fast := Enter(fast, blocks[id], id, trace.startAddrLocal);
    }

    // Replays the invalidations, not the stores, of the writes made while tracing.
    method Replay()
      requires Core() && LogInRange(compileWriteAddrs, ranges)
      modifies this`blocks, this`keyMap, this`restoreCandidates, this`index, this`protectedPages, memory`states, memory`code, this`fast,
        this`listing, this`invalidLiterals
      ensures Core() && Swept(old(State()), State(), compileWriteAddrs)
      ensures old(invalidLiterals) <= invalidLiterals <= old(invalidLiterals) + set a | a in compileWriteAddrs
    {
      hide AllBlocksOk, IndexOk, ListingOk, FastOk, Owned, Swept, Invalidated, NoLiveDepends, BlockCache.Guarded;
      ghost var t0 := State();
      SweptNone(t0);
      assert compileWriteAddrs[..0] == [];
      for j := 0 to |compileWriteAddrs|
        invariant Core() && Swept(t0, State(), compileWriteAddrs[..j])
        invariant old(invalidLiterals) <= invalidLiterals <= old(invalidLiterals) + set a | a in compileWriteAddrs
      {
        ghost var t1 := State();
        var addr := compileWriteAddrs[j];
        if GranuleOf(addr) in index[RangeOf(addr)].code {
          InvalidateByAddr(addr);
        } else {
          UncoveredNoneDepends(blocks, keyMap, index, pageRanges, protectedPages, listing, addr);
          InvalidatedNothing(t1, addr);
        }
        SweptNext(t0, t1, State(), compileWriteAddrs, j);
      }
      assert compileWriteAddrs[..|compileWriteAddrs|] == compileWriteAddrs;
    }

    // Literals that the trace itself has written are not folded again.
    method NoteWrittenLiterals(writes: seq<Local>)
      modifies this`invalidLiterals
      ensures invalidLiterals == old(invalidLiterals) + set a | a in writes && a in trace.literals
    {
      for j := 0 to |writes|
        invariant invalidLiterals == old(invalidLiterals) + set a | a in writes[..j] && a in trace.literals
      {
        if writes[j] in trace.literals {
          invalidLiterals := invalidLiterals + {writes[j]};
        }
      }
      assert writes[..|writes|] == writes;
    }

    // The staged block is enlisted and the writes of its trace are replayed.
    method Complete(id: BlockId, ghost blocks0: Blocks, ghost keyMap0: KeyMap)
      requires Staged(id) && LogInRange(compileWriteAddrs, ranges) && id in blocks
      requires NoneTouched(blocks0, keyMap0, compileWriteAddrs) && SameLive(blocks0, keyMap0, blocks, keyMap)
      modifies this`blocks, this`keyMap, this`restoreCandidates, this`index, this`protectedPages, memory`states, memory`code, this`fast, this`listing,
        this`invalidLiterals, this`stale, this`strays
      ensures Core() && AllRight(blocks, keyMap, mem, stale)
      ensures if Hit(trace, compileWriteAddrs) then SameLive(blocks0, keyMap0, blocks, keyMap)
        else OnlyAdded(blocks0, keyMap0, blocks, keyMap, id) && Shows(State(), id, old(blocks[id]), trace.startAddrLocal / 2)
      ensures forall x | x in blocks :: x in old(blocks) && blocks[x] == old(blocks)[x]
      ensures old(restoreCandidates).Keys <= restoreCandidates.Keys
      ensures old(invalidLiterals) <= invalidLiterals <= old(invalidLiterals) + set a | a in compileWriteAddrs
      ensures old(stale) == {} ==>
        (AllRight(blocks, keyMap, mem, {}) <==> Hit(trace, compileWriteAddrs) || Right(old(blocks[id]), mem))
      ensures old(strays) == {} ==> (FastOk(fast, {}, blocks, keyMap) <==> old(blocks[id].startAddrLocal) == trace.startAddrLocal)
    {
      hide AllBlocksOk, IndexOk, ListingOk, FastOk, Owned, OwnedBut, OnlyAdded, SameLive, AllRight, Right, Stands,
        Swept, NoneTouched, Hit, Live, LogInRange, Enter, MakeLookupTag, BlockOk, Allowed, BlockCache.Guarded;
      ghost var b, t1, strays1 := blocks[id], State(), strays;
      assert trace.startAddrLocal / 2 < |fast|;
      BlockOfAll(blocks, ranges, args, nextEntry, id);
      Enlist(id);
      ghost var t2 := State();
      Replay();
      PublicationEffect(blocks0, keyMap0, t1.blocks, t1.keyMap, t2, State(), id, trace, compileWriteAddrs);
      SweptSheds(t2, State(), compileWriteAddrs);
      StagedIsRight(blocks0, keyMap0, t1, id, mem, stale);
      PublishedRight(blocks0, keyMap0, blocks, keyMap, mem, stale, id, b, Hit(trace, compileWriteAddrs));
      EnterAt(t1.fast, b, id, trace.startAddrLocal);
      EntryAfterReplay(t1.fast, t2, State(), (set a | a in compileWriteAddrs), id, trace.startAddrLocal, ranges, strays);
      if !Hit(trace, compileWriteAddrs) {
        AddedIsLive(blocks0, keyMap0, blocks, keyMap, id);
      }
      stale := if Right(b, mem) then stale - {id} else stale + {id};
    }

    // Stages a block for the complete trace and completes it.
    method PublishTrace(full: bool) returns (restored: bool, id: BlockId)
      requires Recorded() && LogInRange(compileWriteAddrs, ranges) && NoneTouched(blocks, keyMap, compileWriteAddrs)
      modifies this`blocks, this`keyMap, this`restoreCandidates, this`index, this`protectedPages, memory`placeholders, memory`mappings, memory`states,
        memory`code, memory`views, this`fast, this`listing,
        this`invalidLiterals, this`nextEntry, this`stale, this`strays
      ensures old(memory.UpToDate()) ==> memory.UpToDate()
      ensures Core() && AllRight(blocks, keyMap, mem, stale)
      ensures Outcome(old(State()), State(), trace, compileWriteAddrs, full, restored, id)
      ensures var kept := if full && !restored then {} else old(invalidLiterals);
        kept <= invalidLiterals <= kept + set a | a in compileWriteAddrs
      ensures (full && !restored) || old(Sound()) ==> (Sound() <==> Agrees(StagedBlock(old(State()), trace, restored, id)))
    {
      hide FastMemory.UpToDate, AllBlocksOk, IndexOk, ListingOk, FastOk, Owned, OwnedBut, OnlyAdded, SameLive, AllRight, BlockOk, Stands,
        NoneTouched, Hit, NoneLive, Live, Right, MayRestore, Restored, Allowed, Shows, Restorable, BlockCache.Guarded;
      ghost var blocks0, keyMap0 := blocks, keyMap;
      if Sound() {
        stale, strays := {}, {};
      }
      restored, id := Stage(full);
      if full && !restored {
        NoneLiveIsRight(blocks, keyMap, mem, compileWriteAddrs);
        SameLiveRefl(blocks, keyMap);
        blocks0, keyMap0 := blocks, keyMap;
      }
      Complete(id, blocks0, keyMap0);
      if full && !restored {
        OnlyOneLive(blocks0, keyMap0, blocks, keyMap, id, Hit(trace, compileWriteAddrs));
      }
    }

    /**
      The end of CompileBlock. The new block is live afterwards exactly if the trace has not
      written anything it depends on; the other blocks stay as they were, unless compiling
      found native code memory full. The cache stays sound exactly if nothing was restored, or if
      what was restored starts where the trace does and is what the trace has recorded.
    */
    method Publish(writes: seq<Local>, full: bool) returns (restored: bool, id: BlockId)
      requires Inv() && compilingBlock && trace.addrs != [] && Ends()
      modifies this`blocks, this`keyMap, this`restoreCandidates, this`index, this`protectedPages, memory`placeholders, memory`mappings, memory`states,
        memory`code, memory`views, this`fast, this`listing,
        this`invalidLiterals, this`nextEntry, this`compilingBlock, this`stale, this`strays
      ensures old(memory.UpToDate()) ==> memory.UpToDate()
      ensures Inv() && !compilingBlock
      ensures Outcome(old(State()), State(), trace, compileWriteAddrs, full, restored, id)
      ensures var kept := if full && !restored then {} else old(invalidLiterals) + set a | a in writes && a in trace.literals;
        kept <= invalidLiterals <= kept + set a | a in compileWriteAddrs
      ensures full && !restored ==> Sound()
      ensures restored || !full ==> (old(Sound()) ==> (Sound() <==> !restored || Agrees(StagedBlock(old(State()), trace, restored, id))))
    {
      hide FastMemory.UpToDate, AllBlocksOk, IndexOk, ListingOk, FastOk, Owned, OnlyAdded, SameLive, AllRight, FreshOrLogged, BlockOk,
        NoneTouched, Hit, Live, TraceOk, Right, MayRestore, Restored, Allowed, AheadInLine, LogInRange, Embeds,
        Outcome, BlockCache.Guarded, CountOk, JitArgs.Follows;
      ghost var blocks0, next0 := blocks, nextEntry;
      TraceIsBlock(trace, pipeline, mem, compileWriteAddrs, ranges, localise);
      TraceIsAllowed(trace, pipeline, args);
      NoteWrittenLiterals(writes);
      compilingBlock := false;
      restored, id := PublishTrace(full);
      OutcomeRestored(old(State()), State(), trace, compileWriteAddrs, full, restored, id);
      if args.Plain() && restored {
        PlainAgrees(blocks0, ranges, args, next0, id, trace, mem, compileWriteAddrs);
      }
    }

    // A block can stand for the trace: it starts at the same place, and unless the trace has
    // overwritten it anyway, it is what it is taken for.
    ghost predicate Agrees(b: Block)
      reads this
    {
      b.startAddrLocal == trace.startAddrLocal && (Hit(trace, compileWriteAddrs) || Right(b, mem))
    }
  }
}
