/** One die of the virtual block map: per-block bookkeeping, the free block list and
    the victim lists bucketed by invalid slice count, all on one pair of links. */
module Die {
  import opened Basics
  import opened Links

  const RESERVED_FREE_BLOCK_COUNT: nat := 1

  datatype BlockInfo = BlockInfo(bad: bool, free: bool, invalidSliceCnt: nat, currentPage: nat)

  datatype FreeBlockMode = Normal | Gc

  /** What a die holds: the block records, the current block, the free list and the
      victim buckets in queue order, and the block taken off the lists, if any. */
  datatype DieView = DieView(blocks: seq<BlockInfo>, current: nat, free: seq<nat>,
                             victims: seq<seq<nat>>, hand: Option<nat>)

  /** The list a block belongs on: bucket k for k invalid slices, the free list, or none. */
  function Home(b: BlockInfo, pages: nat): (k: Option<nat>)
  {
    if b.bad then None
    else if b.free then Some(pages + 1)
    else if b.invalidSliceCnt > 0 then Some(b.invalidSliceCnt)
    else None
  }

  /** One more slice of block b is invalid: the block moves to the end of the next bucket. */
  ghost function Invalidated(v: DieView, b: nat): (r: DieView)
    requires b < |v.blocks|
    requires v.blocks[b].invalidSliceCnt + 1 < |v.victims|
  {
    var k := v.blocks[b].invalidSliceCnt;
    var left := v.victims[k := Drop(v.victims[k], b)];
    v.(blocks := v.blocks[b := v.blocks[b].(invalidSliceCnt := k + 1)],
       victims := left[k + 1 := left[k + 1] + [b]])
  }

  class Die {
    const pages: nat                    // USER_PAGES_PER_BLOCK, one slice per page
    const blocks: array<BlockInfo>
    const links: LinkTable              // lists 0..pages are the victim buckets, list pages+1 the free list
    var currentBlock: nat
    var freeBlockCnt: nat
    ghost var hand: Option<nat>

    ghost const Repr: set<object> := {this, blocks} + links.Repr

    ghost predicate Housed(b: nat)
      requires b < blocks.Length && b < links.prev.Length && b < links.next.Length && b < |links.place|
      reads this, blocks, links, links.prev, links.next
    {
      var i := blocks[b];
      && i.invalidSliceCnt <= pages
      && (i.bad ==> i.free)
      && (i.free ==> i.currentPage == 0 && i.invalidSliceCnt == 0)
      && if hand == Some(b) then links.place[b].Nowhere?
         else match Home(i, pages)
           case None => links.Detached(b)
           case Some(k) => links.place[b].At? && links.place[b].list == k
    }

    ghost predicate Valid()
      reads Repr
    {
      && this !in links.Repr && blocks !in links.Repr
      && links.Valid() && links.size == blocks.Length && links.count == pages + 2
      && 0 < pages && currentBlock < blocks.Length
      && (hand.Some? ==> hand.value < blocks.Length)
      && freeBlockCnt == |links.lists[pages + 1]|
      && forall b :: 0 <= b < blocks.Length ==> Housed(b)
    }

    ghost function View(): (v: DieView)
      requires Valid()
      reads Repr
      ensures |v.victims| == pages + 1
    {
      DieView(blocks[..], currentBlock, links.lists[pages + 1], links.lists[..pages + 1], hand)
    }

    /** A die before its block map is filled in: no block is usable yet. */
    constructor (pagesPerBlock: nat, blockCount: nat)
      requires 0 < pagesPerBlock && 0 < blockCount <= NONE
      ensures Valid() && fresh(Repr) && pages == pagesPerBlock && blocks.Length == blockCount
      ensures hand == None && currentBlock == 0
      ensures forall b :: 0 <= b < blockCount ==> blocks[b].bad
      ensures links.lists[pages + 1] == []
    {
      pages := pagesPerBlock;
      blocks := new BlockInfo[blockCount](_ => BlockInfo(true, true, 0, 0));
      links := new LinkTable(blockCount, pagesPerBlock + 2);
      currentBlock, freeBlockCnt, hand := 0, 0, None;
    }

    /** Membership on a list is decided by the block record alone. */
    lemma OnList(k: nat, b: nat)
      requires Valid() && k < pages + 2
      ensures b in links.lists[k] <==> b < blocks.Length && hand != Some(b) && Home(blocks[b], pages) == Some(k)
      ensures b in links.lists[k] <==>
              && b < blocks.Length && hand != Some(b) && !blocks[b].bad
              && if k == pages + 1 then blocks[b].free else !blocks[b].free && 0 < k == blocks[b].invalidSliceCnt
    {
      if b < blocks.Length {
        assert Housed(b);
      }
      if b in links.lists[k] {
        var _ := links.PlaceIn(k, b);
      }
    }

    /** Append to the free list the block in hand, already recorded as free. */
    method PutToFbList(b: nat)
      requires Valid() && hand == Some(b) && blocks[b].free && !blocks[b].bad
      modifies Repr
      ensures Valid()
      ensures View() == old(View()).(free := old(View()).free + [b], hand := None)
    {
      hide WellLinked;
      assert Housed(b);
      links.PutTail(pages + 1, b);
      freeBlockCnt := freeBlockCnt + 1;
      hand := None;
      forall c | 0 <= c < blocks.Length ensures Housed(c) {
        assert old(Housed(c));
      }
    }

    /** Take the first free block. In normal mode one block stays reserved for collection. */
    method GetFromFbList(mode: FreeBlockMode) returns (r: Option<nat>)
      requires Valid()
      modifies Repr
      ensures Valid()
      ensures r.None? <==> |old(View()).free| <= (if mode.Normal? then RESERVED_FREE_BLOCK_COUNT else 0)
      ensures r.None? ==> View() == old(View())
      ensures r.Some? ==>
                var v, b := old(View()), r.value;
                && b == v.free[0] && b < |v.blocks| && v.blocks[b].free && !v.blocks[b].bad && v.hand != Some(b)
                && View() == v.(free := v.free[1..], blocks := v.blocks[b := v.blocks[b].(free := false)])
    {
      hide WellLinked;
      links.EndTells(pages + 1);
      if mode.Normal? {
        if freeBlockCnt <= RESERVED_FREE_BLOCK_COUNT {
          return None;
        }
      } else if links.head[pages + 1] == NONE {
        return None;
      }
      OnList(pages + 1, links.lists[pages + 1][0]);
      assert Housed(links.lists[pages + 1][0]);
      var b := links.PopHead(pages + 1);
      blocks[b] := blocks[b].(free := false);
      freeBlockCnt := freeBlockCnt - 1;
      links.Clear(b);
      forall c | 0 <= c < blocks.Length ensures Housed(c) {
        assert old(Housed(c));
      }
      return Some(b);
    }

    /** Append to bucket k the block in hand. */
    method PutToGcVictimList(b: nat, k: nat)
      requires Valid() && hand == Some(b) && !blocks[b].free && 0 < k == blocks[b].invalidSliceCnt <= pages
      modifies Repr
      ensures Valid()
      ensures var v := old(View()); View() == v.(victims := v.victims[k := v.victims[k] + [b]], hand := None)
    {
      hide WellLinked;
      assert Housed(b);
      links.PutTail(k, b);
      hand := None;
      forall c | 0 <= c < blocks.Length ensures Housed(c) {
        assert old(Housed(c));
      }
    }

    /** Take a block off its bucket. A block with no invalid slice is on no list, and
        taking it off the empty bucket 0 changes nothing. */
    method SelectiveGetFromGcVictimList(b: nat)
      requires Valid() && hand == None && b < blocks.Length && !blocks[b].free
      modifies Repr
      ensures Valid() && blocks[b] == old(blocks[b]) && blocks[b].invalidSliceCnt <= pages
      ensures var v, k := old(View()), blocks[b].invalidSliceCnt;
              View() == v.(victims := v.victims[k := Drop(v.victims[k], b)], hand := Some(b))
    {
      hide WellLinked;
      var k := blocks[b].invalidSliceCnt;
      assert Housed(b);
      OnList(k, b);
      if k == 0 {
        if links.lists[0] != [] {
          OnList(0, links.lists[0][0]);
        }
      } else {
        ghost var j := links.PlaceIn(k, b);
        forall i | 0 <= i < j ensures links.lists[k][i] != b {
          links.NeighboursTell(k, i);
        }
        DropIsWithout(links.lists[k], j);
      }
      var _ := links.Unlink(k, b);
      hand := Some(b);
      forall c | 0 <= c < blocks.Length ensures Housed(c) {
        assert old(Housed(c));
      }
    }

    /** One more slice of block b became invalid. */
    method InvalidateSlice(b: nat)
      requires Valid() && hand == None && b < blocks.Length && !blocks[b].free && blocks[b].invalidSliceCnt < pages
      modifies Repr
      ensures Valid() && View() == Invalidated(old(View()), b)
      ensures var v, k := old(View()), old(blocks[b]).invalidSliceCnt;
              && View().blocks == v.blocks[b := v.blocks[b].(invalidSliceCnt := k + 1)]
              && View().victims[k + 1] == v.victims[k + 1] + [b]
              && forall j :: 0 <= j <= pages && j != k && j != k + 1 ==> View().victims[j] == v.victims[j]
    {
      hide WellLinked;
      SelectiveGetFromGcVictimList(b);
      label Out:
      blocks[b] := blocks[b].(invalidSliceCnt := blocks[b].invalidSliceCnt + 1);
      forall c | 0 <= c < blocks.Length ensures Housed(c) {
        assert old@Out(Housed(c));
      }
      PutToGcVictimList(b, blocks[b].invalidSliceCnt);
    }

    /** Take the block with the most invalid slices, the one queued longest among equals. */
    method GetFromGcVictimList() returns (r: Option<nat>)
      requires Valid() && hand == None
      modifies Repr
      ensures Valid()
      ensures r.None? <==> forall k :: 0 < k <= pages ==> old(View()).victims[k] == []
      ensures r.None? ==> View() == old(View())
      ensures r.Some? ==>
                var v, b := old(View()), r.value;
                && b < |v.blocks| && !v.blocks[b].free
                && var k := v.blocks[b].invalidSliceCnt;
                && 0 < k <= pages && v.victims[k] != [] && b == v.victims[k][0]
                && (forall j :: k < j <= pages ==> v.victims[j] == [])
                && (forall c :: 0 <= c < |v.blocks| && !v.blocks[c].free ==> v.blocks[c].invalidSliceCnt <= k)
                && View() == v.(victims := v.victims[k := v.victims[k][1..]], hand := Some(b))
    {
      hide WellLinked;
      var k := pages;
      while k > 0
        invariant 0 <= k <= pages
        invariant Valid() && View() == old(View()) && hand == None
        invariant forall j :: k < j <= pages ==> View().victims[j] == []
      {
        links.EndTells(k);
        if links.head[k] != NONE {
          OnList(k, links.lists[k][0]);
          forall c | 0 <= c < blocks.Length && !blocks[c].free ensures blocks[c].invalidSliceCnt <= k {
            assert Housed(c);
            OnList(blocks[c].invalidSliceCnt, c);
          }
          label Found:
          var b := links.PopHead(k);
          hand := Some(b);
          forall c | 0 <= c < blocks.Length ensures Housed(c) {
            assert old@Found(Housed(c));
          }
          return Some(b);
        }
        k := k - 1;
      }
      return None;
    }

    /** The block-map part of erasing a block: reset its record and queue it as free. */
    method RecycleBlock(b: nat)
      requires Valid() && hand == Some(b) && !blocks[b].bad
      modifies Repr
      ensures Valid()
      ensures var v := old(View());
              View() == v.(blocks := v.blocks[b := BlockInfo(false, true, 0, 0)], free := v.free + [b], hand := None)
    {
      hide WellLinked;
      blocks[b] := blocks[b].(free := true, invalidSliceCnt := 0, currentPage := 0);
      forall c | 0 <= c < blocks.Length ensures Housed(c) {
        assert old(Housed(c));
      }
      PutToFbList(b);
    }

    method SetCurrentBlock(b: nat)
      requires Valid() && b < blocks.Length
      modifies this
      ensures Valid() && View() == old(View()).(current := b)
    {
      hide WellLinked;
      currentBlock := b;
      forall c | 0 <= c < blocks.Length ensures Housed(c) {
        assert old(Housed(c));
      }
    }

    /** Hand out the next page of block b. On a block that is not in use the record
        ends up free and partly programmed at once, which no valid die contains. */
    method TakePage(b: nat) returns (page: nat)
      requires Valid() && b < blocks.Length
      modifies blocks
      ensures page == old(blocks[b].currentPage)
      ensures Valid() <==> !old(blocks[b].free)
      ensures Valid() ==>
                var v := old(View());
                View() == v.(blocks := v.blocks[b := v.blocks[b].(currentPage := page + 1)])
    {
      hide WellLinked;
      page := blocks[b].currentPage;
      blocks[b] := blocks[b].(currentPage := page + 1);
      if !old(blocks[b].free) {
        forall c | 0 <= c < blocks.Length ensures Housed(c) {
          assert old(Housed(c));
        }
      } else {
        assert !Housed(b);
      }
    }

    /** Fill in the block map of a fresh die: every good block is free, in index order. */
    method InitBlockMap(bad: seq<bool>)
      requires Valid() && hand == None && |bad| == blocks.Length
      requires View().free == [] && forall b :: 0 <= b < blocks.Length ==> blocks[b].bad
      modifies Repr
      ensures Valid() && hand == None && currentBlock == old(currentBlock)
      ensures forall b :: 0 <= b < |bad| ==> blocks[b] == BlockInfo(bad[b], true, 0, 0)
      ensures forall b :: b in View().free <==> 0 <= b < |bad| && !bad[b]
      ensures forall i, j :: 0 <= i < j < |View().free| ==> View().free[i] < View().free[j]
    {
      hide WellLinked;
      var n := 0;
      while n < blocks.Length
        invariant 0 <= n <= blocks.Length && Valid() && hand == None && currentBlock == old(currentBlock)
        invariant forall b :: 0 <= b < n ==> blocks[b] == BlockInfo(bad[b], true, 0, 0)
        invariant forall b :: n <= b < blocks.Length ==> blocks[b].bad
        invariant forall i :: 0 <= i < |View().free| ==> View().free[i] < n
        invariant forall i, j :: 0 <= i < j < |View().free| ==> View().free[i] < View().free[j]
      {
        label Next:
        ghost var free := View().free;
        blocks[n] := BlockInfo(bad[n], true, 0, 0);
        if !bad[n] {
          hand := Some(n);
        }
        forall c | 0 <= c < blocks.Length ensures Housed(c) {
          assert old@Next(Housed(c));
        }
        if !bad[n] {
          PutToFbList(n);
        }
        assert View().free == if bad[n] then free else free + [n];
        n := n + 1;
      }
      forall b ensures b in View().free <==> 0 <= b < |bad| && !bad[b] {
        if b >= 0 {
          OnList(pages + 1, b);
        }
      }
    }
  }
}
