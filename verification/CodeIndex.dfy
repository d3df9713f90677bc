/**
  The physical index of compiled code (src/ARMJIT_Internal.h, AddressRange and
  PageContainsCode; src/ARMJIT.cpp, CodeMemRegions).

  Local addresses are cut into 16-byte granules, 512-byte ranges of 32 granules and host
  pages of several ranges. A range lists the blocks that depend on it, and its `code` mask
  covers the granules they depend on. Masks are kept as the sets of their granule numbers.
*/
module CodeIndex {
  import Bits
  import opened Lists

  type Local = nat
  type Granule = nat
  type Range = nat
  type Page = nat
  type BlockId = nat
  type Mask = set<Granule>

  function GranuleOf(a: Local): Granule { a / 16 }

  function RangeOf(a: Local): Range { a / 512 }

  datatype AddressRange = AddressRange(blocks: seq<BlockId>, code: Mask)

  const EMPTY_RANGE := AddressRange([], {})

  // Which blocks depend on which ranges, and on which granules there.
  type Listing = map<(BlockId, Range), Mask>

  ghost predicate MaskOk(r: Range, mask: Mask) {
    mask != {} && forall g | g in mask :: g / 32 == r
  }

  // The first k blocks of a range are covered by its code mask.
  ghost predicate Covers(ar: AddressRange, r: Range, listing: Listing, k: nat) {
    forall p | 0 <= p < k && p < |ar.blocks| ::
      (ar.blocks[p], r) in listing && listing[(ar.blocks[p], r)] <= ar.code
  }

  ghost predicate PageHasCode(index: seq<AddressRange>, pageRanges: nat, p: Page) {
    exists r | 0 <= r < |index| && p * pageRanges <= r < (p + 1) * pageRanges :: index[r].blocks != []
  }

  // Lists hold exactly the blocks of the listing, each once.
  ghost predicate ListsOk(index: seq<AddressRange>, listing: Listing) {
    && (forall r | 0 <= r < |index| :: Distinct(index[r].blocks))
    && (forall r, id | 0 <= r < |index| :: id in index[r].blocks <==> (id, r) in listing)
    && (forall k | k in listing :: k.1 < |index| && MaskOk(k.1, listing[k]))
  }

  // Code masks cover the listed masks, in range `open` only for the first k blocks.
  ghost predicate CodeOk(index: seq<AddressRange>, listing: Listing, open: int, k: nat) {
    forall r | 0 <= r < |index| ::
      && Covers(index[r], r, listing, if r == open then k else |index[r].blocks|)
      && (index[r].blocks == [] ==> index[r].code == {})
  }

  // A page is write protected exactly while it contains code.
  ghost predicate PagesOk(index: seq<AddressRange>, pageRanges: nat, protectedPages: set<Page>) {
    forall p: Page :: p in protectedPages <==> PageHasCode(index, pageRanges, p)
  }

  const ALL_CLOSED := -1

  ghost predicate IndexOk(index: seq<AddressRange>, pageRanges: nat, protectedPages: set<Page>,
                          listing: Listing, open: int, k: nat)
  {
    && pageRanges > 0
    && ListsOk(index, listing) && CodeOk(index, listing, open, k) && PagesOk(index, pageRanges, protectedPages)
  }

  // -------- pages --------

  lemma PageOfRange(r: Range, p: Page, pageRanges: nat)
    requires pageRanges > 0
    ensures p * pageRanges <= r < (p + 1) * pageRanges <==> p == r / pageRanges
  {
    var q := r / pageRanges;
    assert q * pageRanges <= r < q * pageRanges + pageRanges;
    if p < q {
      assert (p + 1) * pageRanges <= q * pageRanges;
    } else if p > q {
      assert (q + 1) * pageRanges <= p * pageRanges;
    }
  }

  lemma PageInIndex(r: Range, pageRanges: nat, ranges: nat)
    requires pageRanges > 0 && ranges % pageRanges == 0 && r < ranges
    ensures (r / pageRanges + 1) * pageRanges <= ranges
  {
    var n, p := ranges / pageRanges, r / pageRanges;
    assert ranges == n * pageRanges;
    PageOfRange(r, p, pageRanges);
    Bits.MulKeepsOrder(n, p, pageRanges);
    Bits.MulKeepsOrder(p + 1, n, pageRanges);
  }

  // A change in one range can change the state of that range's page only.
  lemma OtherPagesKeep(index: seq<AddressRange>, r: Range, ar: AddressRange, pageRanges: nat, p: Page)
    requires r < |index| && pageRanges > 0 && p != r / pageRanges
    ensures PageHasCode(index[r := ar], pageRanges, p) == PageHasCode(index, pageRanges, p)
  {
    PageOfRange(r, p, pageRanges);
    var index' := index[r := ar];
    if PageHasCode(index', pageRanges, p) {
      var x :| 0 <= x < |index'| && p * pageRanges <= x < (p + 1) * pageRanges && index'[x].blocks != [];
      assert index[x].blocks != [];
    }
    if PageHasCode(index, pageRanges, p) {
      var x :| 0 <= x < |index| && p * pageRanges <= x < (p + 1) * pageRanges && index[x].blocks != [];
      assert index'[x].blocks != [];
    }
  }

  method PageContainsCode(index: seq<AddressRange>, pageRanges: nat, p: Page) returns (found: bool)
    requires (p + 1) * pageRanges <= |index|
    ensures found == PageHasCode(index, pageRanges, p)
  {
    for i := 0 to pageRanges
      invariant forall r | p * pageRanges <= r < p * pageRanges + i :: index[r].blocks == []
    {
      assert p * pageRanges + i < (p + 1) * pageRanges;
      if |index[p * pageRanges + i].blocks| > 0 {
        return true;
      }
    }
    assert p * pageRanges + pageRanges == (p + 1) * pageRanges;
    return false;
  }

  // -------- lists --------

  // t is s, with the place of a removed needle taken by the last element.
  ghost predicate Swapped<T>(s: seq<T>, t: seq<T>, needle: T) {
    if needle in s then exists i | 0 <= i < |s| :: s[i] == needle && t == SwapRemove(s, i) else t == s
  }

  lemma SwappedAt<T>(s: seq<T>, t: seq<T>, i: nat)
    requires i < |s| && Distinct(s) && Swapped(s, t, s[i])
    ensures t == SwapRemove(s, i) && t[..i] == s[..i]
  {
    SwapRemoveElements(s, i);
  }

  /** TinyVector.RemoveByValue, for a value that is in the list. */
  method RemoveByValue<T(==)>(s: seq<T>, needle: T) returns (t: seq<T>, removed: bool)
    requires Distinct(s)
    ensures removed == (needle in s)
    ensures Distinct(t) && forall x :: x in t <==> x in s && x != needle
    ensures Swapped(s, t, needle)
  {
    for i := 0 to |s|
      invariant needle !in s[..i]
    {
      if s[i] == needle {
        SwapRemoveElements(s, i);
        return SwapRemove(s, i), true;
      }
    }
    return s, false;
  }

  // -------- changes that keep the index well formed --------

  lemma AddKeepsLists(index: seq<AddressRange>, listing: Listing, id: BlockId, r: Range, mask: Mask)
    requires ListsOk(index, listing) && r < |index| && (id, r) !in listing && MaskOk(r, mask)
    ensures ListsOk(index[r := AddressRange(index[r].blocks + [id], index[r].code + mask)], listing[(id, r) := mask])
  {
  }

  lemma AddKeepsCode(index: seq<AddressRange>, listing: Listing, id: BlockId, r: Range, mask: Mask)
    requires CodeOk(index, listing, ALL_CLOSED, 0) && r < |index| && (id, r) !in listing
    ensures CodeOk(index[r := AddressRange(index[r].blocks + [id], index[r].code + mask)],
                   listing[(id, r) := mask], ALL_CLOSED, 0)
  {
    var ar := AddressRange(index[r].blocks + [id], index[r].code + mask);
    var index', listing' := index[r := ar], listing[(id, r) := mask];
    forall x | 0 <= x < |index'| ensures Covers(index'[x], x, listing', |index'[x].blocks|) {
      assert Covers(index[x], x, listing, |index[x].blocks|);
    }
  }

  lemma AddKeepsPages(index: seq<AddressRange>, pageRanges: nat, protectedPages: set<Page>, r: Range, ar: AddressRange)
    requires PagesOk(index, pageRanges, protectedPages) && r < |index| && pageRanges > 0 && ar.blocks != []
    ensures PagesOk(index[r := ar], pageRanges, protectedPages + {r / pageRanges})
  {
    var index' := index[r := ar];
    PageOfRange(r, r / pageRanges, pageRanges);
    assert index'[r].blocks != [];
    forall p: Page | p != r / pageRanges ensures PageHasCode(index', pageRanges, p) == PageHasCode(index, pageRanges, p) {
      OtherPagesKeep(index, r, ar, pageRanges, p);
    }
  }

  // `blocks` is what a range lists once `id` is gone from it.
  ghost predicate Without(was: seq<BlockId>, now: seq<BlockId>, id: BlockId) {
    Distinct(now) && forall x :: x in now <==> x in was && x != id
  }

  lemma DropKeepsLists(index: seq<AddressRange>, listing: Listing, id: BlockId, r: Range, ar: AddressRange)
    requires ListsOk(index, listing) && r < |index| && Without(index[r].blocks, ar.blocks, id)
    ensures ListsOk(index[r := ar], listing - {(id, r)})
  {
  }

  lemma DropKeepsCode(index: seq<AddressRange>, listing: Listing, id: BlockId, r: Range, ar: AddressRange,
                      open: int, k: nat, open': int, k': nat)
    requires ListsOk(index, listing) && CodeOk(index, listing, open, k)
    requires r < |index| && Without(index[r].blocks, ar.blocks, id)
    requires Covers(ar, r, listing, if r == open' then k' else |ar.blocks|)
    requires ar.blocks == [] ==> ar.code == {}
    requires (open == open' && k == k') || (open in {ALL_CLOSED, r} && open' in {ALL_CLOSED, r})
    ensures CodeOk(index[r := ar], listing - {(id, r)}, open', k')
  {
    var index', listing' := index[r := ar], listing - {(id, r)};
    forall x | 0 <= x < |index|
      ensures Covers(index'[x], x, listing', if x == open' then k' else |index'[x].blocks|)
      ensures index'[x].blocks == [] ==> index'[x].code == {}
    {
      if x == r {
        forall p | 0 <= p < |ar.blocks| ensures ar.blocks[p] != id {
          assert ar.blocks[p] in ar.blocks;
        }
      } else {
        assert Covers(index[x], x, listing, if x == open then k else |index[x].blocks|);
      }
    }
  }

  lemma DropKeepsPages(index: seq<AddressRange>, pageRanges: nat, protectedPages: set<Page>, r: Range, ar: AddressRange)
    requires PagesOk(index, pageRanges, protectedPages) && r < |index| && pageRanges > 0
    requires index[r].blocks != []
    ensures r / pageRanges in protectedPages
    ensures PagesOk(index[r := ar], pageRanges,
      if PageHasCode(index[r := ar], pageRanges, r / pageRanges) then protectedPages else protectedPages - {r / pageRanges})
  {
    var index' := index[r := ar];
    PageOfRange(r, r / pageRanges, pageRanges);
    forall p: Page | p != r / pageRanges ensures PageHasCode(index', pageRanges, p) == PageHasCode(index, pageRanges, p) {
      OtherPagesKeep(index, r, ar, pageRanges, p);
    }
  }

  // Scanning a range for an invalidation starts with a cleared mask and adds to it the masks
  // of the blocks that stay.
  lemma OpenKeepsIndex(index: seq<AddressRange>, pageRanges: nat, protectedPages: set<Page>, listing: Listing, r: Range)
    requires IndexOk(index, pageRanges, protectedPages, listing, ALL_CLOSED, 0) && r < |index|
    ensures IndexOk(index[r := AddressRange(index[r].blocks, {})], pageRanges, protectedPages, listing, r, 0)
  {
    var index' := index[r := AddressRange(index[r].blocks, {})];
    forall x | 0 <= x < |index'| && x != r ensures Covers(index'[x], x, listing, |index'[x].blocks|) {
      assert Covers(index[x], x, listing, |index[x].blocks|);
    }
    SameListsSamePages(index, index', pageRanges, protectedPages);
  }

  lemma SameListsSamePages(index: seq<AddressRange>, index': seq<AddressRange>, pageRanges: nat, protectedPages: set<Page>)
    requires |index| == |index'| && forall x | 0 <= x < |index| :: index[x].blocks == index'[x].blocks
    requires PagesOk(index, pageRanges, protectedPages)
    ensures PagesOk(index', pageRanges, protectedPages)
  {
    forall p: Page ensures PageHasCode(index, pageRanges, p) <==> PageHasCode(index', pageRanges, p) {
      if x :| 0 <= x < |index| && p * pageRanges <= x < (p + 1) * pageRanges && index[x].blocks != [] {
        assert index'[x].blocks != [];
      }
      if x :| 0 <= x < |index'| && p * pageRanges <= x < (p + 1) * pageRanges && index'[x].blocks != [] {
        assert index[x].blocks != [];
      }
    }
  }

  lemma KeepKeepsIndex(index: seq<AddressRange>, pageRanges: nat, protectedPages: set<Page>, listing: Listing,
                       r: Range, i: nat, mask: Mask)
    requires IndexOk(index, pageRanges, protectedPages, listing, r, i) && r < |index| && i < |index[r].blocks|
    requires (index[r].blocks[i], r) in listing && listing[(index[r].blocks[i], r)] == mask
    ensures IndexOk(index[r := AddressRange(index[r].blocks, index[r].code + mask)], pageRanges, protectedPages, listing, r, i + 1)
  {
    var index' := index[r := AddressRange(index[r].blocks, index[r].code + mask)];
    assert Covers(index[r], r, listing, i);
    forall x | 0 <= x < |index'| && x != r ensures Covers(index'[x], x, listing, |index'[x].blocks|) {
      assert Covers(index[x], x, listing, |index[x].blocks|);
    }
    SameListsSamePages(index, index', pageRanges, protectedPages);
  }

  lemma ScannedIsClosed(index: seq<AddressRange>, pageRanges: nat, protectedPages: set<Page>, listing: Listing, r: Range)
    requires r < |index| && IndexOk(index, pageRanges, protectedPages, listing, r, |index[r].blocks|)
    ensures IndexOk(index, pageRanges, protectedPages, listing, ALL_CLOSED, 0)
  {
    forall x | 0 <= x < |index| ensures Covers(index[x], x, listing, |index[x].blocks|) {
      assert Covers(index[x], x, listing, if x == r then |index[r].blocks| else |index[x].blocks|);
    }
  }
}
