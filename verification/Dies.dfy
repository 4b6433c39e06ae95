/** All dies together. The rest of the translation layer sees them through the
    views, one value per die. */
module Dies {
  import opened Links
  import opened Basics
  import opened Die
  import opened Tables

  ghost predicate TwoGood(bad: seq<bool>) {
    exists a, b :: 0 <= a < b < |bad| && !bad[a] && !bad[b]
  }

  /** A die with nothing written: every block is blank, the current one in use, a spare left. */
  ghost predicate Blank(v: DieView, pages: nat) {
    && v.hand == None && v.current < |v.blocks| && |v.victims| == pages + 1 && |v.free| >= 1
    && !v.blocks[v.current].bad
    && forall b :: 0 <= b < |v.blocks| ==>
         v.blocks[b].currentPage == 0 && v.blocks[b].invalidSliceCnt == 0 && v.blocks[b].free == (b != v.current)
  }

  /** Nothing mapped on blank dies: the invariant holds at the start. */
  lemma BlankInv(views: seq<DieView>, pages: nat)
    requires 0 < pages && forall d :: 0 <= d < |views| ==> Blank(views[d], pages)
    ensures Inv(Tables(views, map[], map[]), pages)
    ensures forall d :: 0 <= d < |views| ==> views[d].hand == None
    ensures forall d, b :: 0 <= d < |views| && 0 <= b < |views[d].blocks| ==> views[d].blocks[b].currentPage == 0
  {
    var t := Tables(views, map[], map[]);
    forall d, b | 0 <= d < |views| && 0 <= b < |views[d].blocks| ensures BlockOk(t, pages, d, b) {
      assert Blank(views[d], pages) && Residents(t.l2v, d, b) == {};
    }
  }

  /** The blocks are marked bad as the table says. */
  ghost predicate Marked(v: DieView, bad: seq<bool>) {
    |v.blocks| == |bad| && forall b :: 0 <= b < |bad| ==> v.blocks[b].bad == bad[b]
  }

  /** No step changes the marks. */
  lemma SameMarks(v: DieView, w: DieView, bad: seq<bool>)
    requires Marked(v, bad) && |w.blocks| == |v.blocks|
    requires forall b :: 0 <= b < |v.blocks| ==> w.blocks[b].bad == v.blocks[b].bad
    ensures Marked(w, bad)
  {
  }

  method NewDie(pages: nat, bad: seq<bool>) returns (die: Die)
    requires 0 < pages && 0 < |bad| <= NONE && TwoGood(bad)
    ensures fresh(die.Repr) && die in die.Repr && die.pages == pages && die.Valid() && Blank(die.View(), pages)
    ensures die.blocks.Length == |bad| && Marked(die.View(), bad)
  {
    die := new Die(pages, |bad|);
    die.InitBlockMap(bad);
    TwoFree(bad, die.View().free);
    var b := die.GetFromFbList(Normal);
    if b.None? {
      assert false;
    }
    die.SetCurrentBlock(b.value);
  }

  lemma TwoFree(bad: seq<bool>, free: seq<nat>)
    requires TwoGood(bad) && forall b :: b in free <==> 0 <= b < |bad| && !bad[b]
    ensures |free| >= 2
  {
    var a, b :| 0 <= a < b < |bad| && !bad[a] && !bad[b];
    assert a in free && b in free;
  }

  /** The free list holds each free good block once, bucket k the blocks in use with k invalid slices. */
  ghost predicate Listed(v: DieView, pages: nat) {
    && |v.victims| == pages + 1
    && (forall b: nat :: b in v.free <==> b < |v.blocks| && v.blocks[b].free && !v.blocks[b].bad)
    && (forall i, j :: 0 <= i < j < |v.free| ==> v.free[i] != v.free[j])
    && (forall k, b: nat :: 0 < k <= pages ==>
          (b in v.victims[k] <==>
            b < |v.blocks| && !v.blocks[b].free && !v.blocks[b].bad && v.blocks[b].invalidSliceCnt == k))
    && (forall b :: 0 <= b < |v.blocks| ==>
          (v.blocks[b].bad ==> v.blocks[b].free) && v.blocks[b].invalidSliceCnt <= pages)
  }

  class DieArray {
    const pages: nat
    const dies: seq<Die>
    ghost const bad: seq<seq<bool>>
    ghost var views: seq<DieView>
    ghost const Repr: set<object>

    /** One die per row of the bad block table, each with a block opened for writing. */
    constructor (pagesPerBlock: nat, bad: seq<seq<bool>>)
      requires 0 < pagesPerBlock
      requires forall d :: 0 <= d < |bad| ==> 0 < |bad[d]| <= NONE && TwoGood(bad[d])
      ensures Valid() && this in Repr && fresh(Repr) && pages == pagesPerBlock && |views| == |bad|
      ensures forall d :: 0 <= d < |views| ==> Blank(views[d], pages)
      ensures |dies| == |bad| && forall d :: 0 <= d < |dies| ==> dies[d].blocks.Length == |bad[d]|
      ensures this.bad == bad
    {
      hide Die.Valid, Blank, TwoGood, Marked;
      var ds: seq<Die> := [];
      ghost var vs: seq<DieView> := [];
      ghost var objs: set<object> := {};
      while |ds| < |bad|
        invariant |ds| == |vs| <= |bad|
        invariant fresh(objs)
        invariant forall d :: 0 <= d < |ds| ==> ds[d] in objs && ds[d].Repr <= objs && ds[d].pages == pagesPerBlock
                                                   && ds[d].blocks.Length == |bad[d]|
        invariant forall d, e :: 0 <= d < e < |ds| ==> ds[d].Repr !! ds[e].Repr
        invariant forall d :: 0 <= d < |ds| ==>
                    ds[d].Valid() && ds[d].View() == vs[d] && Blank(vs[d], pagesPerBlock) && Marked(vs[d], bad[d])
      {
        var die := NewDie(pagesPerBlock, bad[|ds|]);
        ds := ds + [die];
        vs := vs + [die.View()];
        objs := objs + die.Repr;
      }
      pages, dies, views := pagesPerBlock, ds, vs;
      this.bad := bad;
      Repr := objs + {this};
    }

    /** Everything in order except that die d may have moved on from its view. */
    ghost predicate ValidBut(d: nat)
      reads this, Repr
    {
      && this in Repr && |dies| == |views| == |bad|
      && (forall d :: 0 <= d < |dies| ==>
            dies[d] in Repr && dies[d].Repr <= Repr && this !in dies[d].Repr && dies[d].pages == pages)
      && (forall d, e :: 0 <= d < e < |dies| ==> dies[d].Repr !! dies[e].Repr)
      && (forall e :: 0 <= e < |dies| && e != d ==> dies[e].Valid() && dies[e].View() == views[e])
      && (forall d :: 0 <= d < |dies| ==> Marked(views[d], bad[d]))
    }

    ghost predicate Valid()
      reads this, Repr
    {
      ValidBut(|dies|)
    }

    /** A step of die d leaves the others alone. */
    twostate lemma Others(d: nat)
      requires old(Valid()) && d < |dies| && unchanged(Repr - dies[d].Repr)
      ensures ValidBut(d) && views == old(views)
    {
      hide Die.Valid, Die.View, Marked;
      assert this in Repr - dies[d].Repr;
      forall e | 0 <= e < |dies| && e != d ensures dies[e].Valid() && dies[e].View() == views[e] {
        assert dies[e].Repr <= Repr - dies[d].Repr;
        assert old(dies[e].Valid());
      }
    }

    lemma At(d: nat)
      requires Valid() && d < |views|
      ensures d < |dies| == |bad| && dies[d].Valid() && dies[d].View() == views[d] && dies[d].Repr <= Repr
      ensures this in Repr && this !in dies[d].Repr && dies[d] in Repr && dies[d].pages == pages
      ensures Marked(views[d], bad[d])
    {
      hide Die.Valid, Die.View, Marked;
    }

    /** The view of die d brought up to date. */
    ghost method Refresh(d: nat)
      requires d < |dies| && ValidBut(d) && dies[d].Valid()
      requires |dies[d].View().blocks| == |views[d].blocks|
      requires forall b :: 0 <= b < |views[d].blocks| ==> dies[d].View().blocks[b].bad == views[d].blocks[b].bad
      modifies this`views
      ensures Valid() && views == old(views)[d := dies[d].View()]
    {
      hide Die.Valid;
      SameMarks(views[d], dies[d].View(), bad[d]);
      hide Die.View, Marked;
      views := views[d := dies[d].View()];
    }

    function CurrentBlock(d: nat): (b: nat)
      requires Valid() && d < |views|
      reads this, Repr
      ensures b == views[d].current && b < |views[d].blocks|
    {
      dies[d].currentBlock
    }

    function Info(d: nat, b: nat): (i: BlockInfo)
      requires Valid() && d < |views| && b < |views[d].blocks|
      reads this, Repr
      ensures i == views[d].blocks[b]
    {
      dies[d].blocks[b]
    }

    /** What every well-formed die shows, whatever the slice maps say. */
    lemma Shape(d: nat)
      requires Valid() && d < |views|
      ensures 0 < pages && |views[d].victims| == pages + 1 && views[d].current < |views[d].blocks|
    {
    }

    /** Between operations the lists of a die say what the block records say. */
    lemma Lists(d: nat)
      requires Valid() && d < |views| && views[d].hand == None
      ensures Listed(views[d], pages) && |views[d].blocks| == dies[d].blocks.Length
    {
      var die, v := dies[d], views[d];
      forall k, b: nat | 0 <= k < pages + 2
        ensures b in die.links.lists[k] <==> b < |v.blocks| && Home(v.blocks[b], pages) == Some(k)
      {
        die.OnList(k, b);
      }
      forall b | 0 <= b < |v.blocks|
        ensures (v.blocks[b].bad ==> v.blocks[b].free) && v.blocks[b].invalidSliceCnt <= pages
      {
        assert die.Housed(b);
      }
      forall i, j | 0 <= i < j < |v.free| ensures v.free[i] != v.free[j] {
        die.links.NeighboursTell(pages + 1, i);
        die.links.NeighboursTell(pages + 1, j);
      }
    }

    /** Make the first free block of die d the current block. */
    method OpenBlock(d: nat, mode: FreeBlockMode) returns (ok: bool)
      requires Valid() && d < |views|
      modifies Repr
      ensures Valid()
      ensures ok <==> |old(views)[d].free| > (if mode.Normal? then RESERVED_FREE_BLOCK_COUNT else 0)
      ensures !ok ==> views == old(views)
      ensures ok ==>
                var v := old(views)[d];
                && v.free[0] < |v.blocks| && v.blocks[v.free[0]].free && !v.blocks[v.free[0]].bad
                && v.hand != Some(v.free[0])
                && views == old(views)[d := Opened(v)]
    {
      hide Die.Valid, Valid, ValidBut, Marked;
      At(d);
      var r := dies[d].GetFromFbList(mode);
      if r.Some? {
        dies[d].SetCurrentBlock(r.value);
      }
      Others(d);
      Refresh(d);
      return r.Some?;
    }

    /** Hand out the next page of the current block of die d. */
    method TakeNextPage(d: nat) returns (v: Vsa)
      requires Valid() && d < |views|
      modifies Repr
      ensures old(views)[d].current < |old(views)[d].blocks| && v == NextPage(old(views)[d], d)
      ensures Valid() <==> !old(views)[d].blocks[old(views)[d].current].free
      ensures Valid() ==> views == old(views)[d := Advanced(old(views)[d])]
      ensures |views| == |old(views)|
    {
      hide Valid, ValidBut, Marked;
      At(d);
      var die := dies[d];
      assert die.currentBlock < die.blocks.Length;
      hide Die.Valid;
      var page := die.TakePage(die.currentBlock);
      Others(d);
      if die.Valid() {
        Refresh(d);
      } else if Valid() {
        At(d);
      }
      return Vsa(d, die.currentBlock, page);
    }

    /** One more slice of block b of die d is invalid. */
    method InvalidateSlice(d: nat, b: nat)
      requires Valid() && d < |views| && views[d].hand == None && b < |views[d].blocks|
      requires !views[d].blocks[b].free && views[d].blocks[b].invalidSliceCnt < pages
      modifies Repr
      ensures Valid() && |old(views)[d].victims| == pages + 1
      ensures views == old(views)[d := Invalidated(old(views)[d], b)]
    {
      hide Die.Valid, Valid, ValidBut, Marked;
      At(d);
      dies[d].InvalidateSlice(b);
      Others(d);
      Refresh(d);
    }

    /** Take the block with the most invalid slices of die d off its bucket. */
    method PickVictim(d: nat) returns (r: Option<nat>)
      requires Valid() && d < |views| && views[d].hand == None
      modifies Repr
      ensures Valid() && |old(views)[d].victims| == pages + 1
      ensures r.None? <==> NoInvalidSlice(old(views)[d])
      ensures r.None? ==> views == old(views)
      ensures r.Some? ==>
                var v, b := old(views)[d], r.value;
                && b < |v.blocks| && !v.blocks[b].free
                && var k := v.blocks[b].invalidSliceCnt;
                && 0 < k <= pages && v.victims[k] != [] && b == v.victims[k][0]
                && (forall j :: k < j <= pages ==> v.victims[j] == [])
                && (forall c :: 0 <= c < |v.blocks| && !v.blocks[c].free ==> v.blocks[c].invalidSliceCnt <= k)
                && views == old(views)[d := TakenOut(v, b, v.victims[k := v.victims[k][1..]])]
    {
      hide Die.Valid, Valid, ValidBut, Marked;
      At(d);
      r := dies[d].GetFromGcVictimList();
      Others(d);
      Refresh(d);
    }

    /** Reset the record of the block in hand and queue it as free. */
    method RecycleBlock(d: nat, b: nat)
      requires Valid() && d < |views| && views[d].hand == Some(b) && b < |views[d].blocks| && !views[d].blocks[b].bad
      modifies Repr
      ensures Valid() && views == old(views)[d := Recycled(old(views)[d], b)]
    {
      hide Die.Valid, Valid, ValidBut, Marked;
      At(d);
      dies[d].RecycleBlock(b);
      Others(d);
      Refresh(d);
    }
  }
}
