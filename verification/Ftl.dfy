/** Slice allocation and greedy garbage collection over the dies. The class also holds
    the contents of the programmed flash pages, so that what a collection does to the
    data can be stated; flash operations take effect in the order they are submitted. */
module Ftl {
  import opened Basics
  import L = Links
  import D = Die
  import opened Tables
  import opened Dies
  import opened Room
  import R = Requests
  import opened Serial
  import opened Journal
  import opened Shadow

  /** How an allocation ended: with the tables intact; at the firmware's assertion that
      no block is left; or past a collection that put the current block on the free list. */
  datatype Report = Kept(vsa: Vsa) | NoVictim | Stray(vsa: Vsa)

  datatype Collection = Collected | NothingToCollect | CurrentFreed

  /** The block collection would pick has no valid slice and is the current block. */
  ghost predicate PicksCurrent(v: D.DieView) {
    |v.victims| > 1 && var all := v.victims[|v.victims| - 1]; all != [] && all[0] == v.current
  }

  /** A page of the die can be allocated so that the tables stay intact. */
  ghost predicate Fits(v: D.DieView, pages: nat)
    requires v.current < |v.blocks|
  {
    || v.blocks[v.current].currentPage < pages
    || |v.free| > D.RESERVED_FREE_BLOCK_COUNT
    || (!NoInvalidSlice(v) && !PicksCurrent(v))
  }

  /** Allocation stops at the assertion: nothing to collect and only the reserve is free. */
  ghost predicate RunsOut(v: D.DieView, pages: nat)
    requires v.current < |v.blocks|
  {
    v.blocks[v.current].currentPage >= pages && |v.free| <= D.RESERVED_FREE_BLOCK_COUNT && NoInvalidSlice(v)
  }

  ghost predicate Programmed(dies: seq<D.DieView>, v: Vsa) {
    && v.die < |dies| && v.block < |dies[v.die].blocks|
    && v.page < dies[v.die].blocks[v.block].currentPage
  }

  /** Every page handed out is programmed and no other, up to one page still to be programmed. */
  ghost predicate CellsMatch<T>(dies: seq<D.DieView>, cells: map<Vsa, T>, pending: Option<Vsa>) {
    forall v: Vsa :: v in cells <==> Programmed(dies, v) && pending != Some(v)
  }

  /** Every logical slice keeps its contents. */
  ghost predicate SameData<T>(l2v: map<nat, Vsa>, cells: map<Vsa, T>, l2v': map<nat, Vsa>, cells': map<Vsa, T>) {
    && l2v'.Keys == l2v.Keys
    && forall l :: l in l2v ==>
         l2v[l] in cells && l2v'[l] in cells' && cells'[l2v'[l]] == cells[l2v[l]]
  }

  // ---- how the flash contents follow the tables ----

  lemma LocatedIn(t: Tables, pages: nat, l: nat)
    requires Inv(t, pages) && l in t.l2v
    ensures Located(t, l)
  {
  }

  lemma HasCell<T>(t: Tables, pages: nat, cells: map<Vsa, T>, l: nat)
    requires Inv(t, pages) && CellsMatch(t.dies, cells, None) && l in t.l2v
    ensures t.l2v[l] in cells
  {
    assert Located(t, l);
    assert Programmed(t.dies, t.l2v[l]);
  }

  lemma SameDataRefl<T>(t: Tables, pages: nat, cells: map<Vsa, T>)
    requires Inv(t, pages) && CellsMatch(t.dies, cells, None)
    ensures SameData(t.l2v, cells, t.l2v, cells)
  {
    forall m | m in t.l2v ensures t.l2v[m] in cells {
      HasCell(t, pages, cells, m);
    }
  }

  lemma BlankCells<T>(dies: seq<D.DieView>)
    requires forall d, b :: 0 <= d < |dies| && 0 <= b < |dies[d].blocks| ==> dies[d].blocks[b].currentPage == 0
    ensures CellsMatch<T>(dies, map[], None)
  {
  }

  /** Page counters unchanged means the same pages are programmed. */
  ghost predicate SamePages(dies: seq<D.DieView>, dies': seq<D.DieView>) {
    && |dies| == |dies'|
    && forall d, b :: 0 <= d < |dies| && 0 <= b ==>
         (b < |dies[d].blocks| <==> b < |dies'[d].blocks|) &&
         (b < |dies[d].blocks| ==> dies'[d].blocks[b].currentPage == dies[d].blocks[b].currentPage)
  }

  lemma SamePagesCells<T>(dies: seq<D.DieView>, dies': seq<D.DieView>, cells: map<Vsa, T>, pending: Option<Vsa>)
    requires CellsMatch(dies, cells, pending) && SamePages(dies, dies')
    ensures CellsMatch(dies', cells, pending)
  {
    forall v: Vsa ensures Programmed(dies', v) == Programmed(dies, v) {
    }
  }

  /** The page handed out is blank and the page before it is programmed. */
  lemma AdvanceCells<T>(dies: seq<D.DieView>, d: nat, cells: map<Vsa, T>)
    requires CellsMatch(dies, cells, None) && d < |dies| && dies[d].current < |dies[d].blocks|
    ensures var n, dies' := NextPage(dies[d], d), dies[d := Advanced(dies[d])];
            && n !in cells && (n.page > 0 ==> n.(page := n.page - 1) in cells)
            && CellsMatch(dies', cells, Some(n)) && Programmed(dies', n)
  {
    var n, dies' := NextPage(dies[d], d), dies[d := Advanced(dies[d])];
    assert !Programmed(dies, n) && (n.page > 0 ==> Programmed(dies, n.(page := n.page - 1)));
    forall v: Vsa ensures Programmed(dies', v) <==> Programmed(dies, v) || v == n {
    }
  }

  /** Programming the page still to be programmed completes the match. */
  lemma ProgramCells<T>(dies: seq<D.DieView>, cells: map<Vsa, T>, n: Vsa, data: T)
    requires CellsMatch(dies, cells, Some(n)) && Programmed(dies, n)
    ensures CellsMatch(dies, cells[n := data], None)
  {
  }

  lemma FullCells<T>(dies: seq<D.DieView>, cells: map<Vsa, T>, d: nat, b: nat, pages: nat)
    requires CellsMatch(dies, cells, None) && d < |dies| && b < |dies[d].blocks|
    requires dies[d].blocks[b].currentPage == pages
    ensures forall p: nat :: Vsa(d, b, p) in cells <==> p < pages
  {
    assert forall p: nat :: Programmed(dies, Vsa(d, b, p)) <==> p < pages;
  }

  lemma RecycleCells<T>(dies: seq<D.DieView>, d: nat, b: nat, cells: map<Vsa, T>)
    requires CellsMatch(dies, cells, None) && d < |dies| && b < |dies[d].blocks|
    ensures CellsMatch(dies[d := Recycled(dies[d], b)], Blanked(cells, d, b), None)
  {
    var dies' := dies[d := Recycled(dies[d], b)];
    forall v: Vsa ensures Programmed(dies', v) <==> Programmed(dies, v) && !(v.die == d && v.block == b) {
    }
  }

  lemma MoveData<T>(l2v: map<nat, Vsa>, cells: map<Vsa, T>, l: nat, n: Vsa)
    requires l in l2v && n !in cells && forall m :: m in l2v ==> l2v[m] in cells
    ensures SameData(l2v, cells, l2v[l := n], cells[n := cells[l2v[l]]])
  {
  }

  lemma BlankData<T>(l2v: map<nat, Vsa>, cells: map<Vsa, T>, d: nat, b: nat)
    requires Residents(l2v, d, b) == {} && forall m :: m in l2v ==> l2v[m] in cells
    ensures SameData(l2v, cells, l2v, Blanked(cells, d, b))
  {
    forall m | m in l2v ensures l2v[m] in Blanked(cells, d, b) {
      assert m !in Residents(l2v, d, b);
    }
  }

  lemma SameDataTrans<T>(a: map<nat, Vsa>, ac: map<Vsa, T>, b: map<nat, Vsa>, bc: map<Vsa, T>, c: map<nat, Vsa>,
                         cc: map<Vsa, T>)
    requires SameData(a, ac, b, bc) && SameData(b, bc, c, cc)
    ensures SameData(a, ac, c, cc)
  {
  }

  // ---- moving one slice out of a victim ----

  /** The die a move is planned on: with a fresh current block when the old one cannot take the page. */
  ghost function Roomy(v: D.DieView, victim: nat, pages: nat): (r: D.DieView)
    requires v.current < |v.blocks|
    requires v.current == victim || v.blocks[v.current].currentPage == pages ==> v.free != [] && v.free[0] < |v.blocks|
  {
    if v.current == victim || v.blocks[v.current].currentPage == pages then Opened(v) else v
  }

  /** Slice l with its forward entry dropped and then placed on the current block of die d. */
  ghost function MovedTo(t: Tables, d: nat, l: nat): (t': Tables)
    requires d < |t.dies| && t.dies[d].current < |t.dies[d].blocks|
  {
    Placed(t.(l2v := t.l2v - {l}), d, l)
  }

  lemma MoveKeeps(t: Tables, d: nat, victim: nat, l: nat, pages: nat)
    requires Inv(t, pages) && d < |t.dies| && t.dies[d].current < |t.dies[d].blocks|
    requires t.dies[d].hand == Some(victim) && t.dies[d].current != victim && NextPage(t.dies[d], d).page < pages
    requires l in t.l2v && t.l2v[l].die == d && t.l2v[l].block == victim
    ensures Inv(MovedTo(t, d, l), pages)
  {
    hide Inv;
    LocatedIn(t, pages, l);
    LiftKeeps(t, pages, l);
    PlaceKeeps(t.(l2v := t.l2v - {l}), pages, d, l);
  }

  lemma MoveMaps(t: Tables, d: nat, victim: nat, l: nat)
    requires d < |t.dies| && t.dies[d].current < |t.dies[d].blocks| && t.dies[d].current != victim
    requires l in t.l2v && t.l2v[l].die == d && t.l2v[l].block == victim
    ensures MovedTo(t, d, l).l2v == t.l2v[l := NextPage(t.dies[d], d)]
    ensures Residents(MovedTo(t, d, l).l2v, d, victim) == Residents(t.l2v, d, victim) - {l}
    ensures l in Residents(t.l2v, d, victim)
  {
  }

  class Ftl<T> {
    const pages: nat
    const channels: nat
    const ways: nat
    const arr: DieArray
    var l2v: map<nat, Vsa>
    var v2l: map<Vsa, nat>
    var cells: map<Vsa, T>
    ghost var journal: Journal<T>    // the low-level requests submitted so far
    var targetCh: nat
    var targetWay: nat
    var sliceAllocationTargetDie: nat

    ghost function Repr(): set<object> {
      {this, arr} + arr.Repr
    }

    ghost predicate Sound()
      reads Repr()
    {
      this !in arr.Repr && arr in arr.Repr && arr.pages == pages && arr.Valid()
    }

    ghost function T(): Tables
      reads this, arr
    {
      Tables(arr.views, l2v, v2l)
    }

    /** The tables satisfy their invariant and the flash pages match them, up to a page still to be programmed. */
    ghost predicate ConsistentBut(pending: Option<Vsa>)
      reads Repr()
    {
      && Sound() && Inv(T(), pages) && CellsMatch(arr.views, cells, pending)
      && Journaled(cells, journal, |arr.dies|, pages)
    }

    ghost predicate Consistent()
      reads Repr()
    {
      ConsistentBut(None)
    }

    /** Between operations: no block is in hand, and the next two dies to allocate from are in turn. */
    ghost predicate InTurn()
      reads Repr()
    {
      && (forall d :: 0 <= d < |arr.views| ==> arr.views[d].hand == None)
      && |arr.views| == channels * ways > 0 && sliceAllocationTargetDie < |arr.views|
      && targetCh < channels && targetWay < ways
      && Slot(targetCh, targetWay, channels) == Following(sliceAllocationTargetDie, |arr.views|)
    }

    ghost predicate Valid()
      reads Repr()
    {
      Consistent() && InTurn()
    }

    /** Nothing mapped, nothing programmed, die 0 first in turn. */
    constructor (channels: nat, ways: nat, pages: nat, bad: seq<seq<bool>>, ghost start: Mem<T>, ghost blank: T)
      requires 0 < channels && 0 < ways && 0 < pages && |bad| == channels * ways && Total(start)
      requires forall d :: 0 <= d < |bad| ==> 0 < |bad[d]| <= L.NONE && TwoGood(bad[d])
      ensures Valid() && fresh(Repr()) && l2v == map[] && cells == map[] && this.pages == pages
      ensures sliceAllocationTargetDie == 0 && |arr.dies| == |bad| && journal == Journal([], [], start, start, blank)
      ensures (forall d :: 0 <= d < |bad| ==> arr.dies[d].blocks.Length == |bad[d]|) && arr.bad == bad
    {
      hide DieArray.Valid, Inv, Slot, Blank, CellsMatch, TwoGood;
      this.channels, this.ways, this.pages := channels, ways, pages;
      arr := new DieArray(pages, bad);
      l2v, v2l, cells := map[], map[], map[];
      journal := Journal([], [], start, start, blank);
      targetCh, targetWay, sliceAllocationTargetDie := 0, 0, 0;
      new;
      BlankInv(arr.views, pages);
      BlankCells<T>(arr.views);
      NothingYet(journal, |arr.dies|, pages);
      FirstSlot(channels, ways);
      sliceAllocationTargetDie := FindDieForFreeSliceAllocation();
    }

    /** Program the next page of a block from a buffer; pages of a block are only ever programmed in order. */
    method Program(v: Vsa, data: T, ghost buf: nat)
      requires v !in cells && (v.page > 0 ==> v.(page := v.page - 1) in cells)
      requires Journaled(cells, journal, |arr.dies|, pages) && v.die < |arr.dies| && v.page < pages
      requires Total(journal.mem) && journal.mem.bufs[buf] == data && Sourced(journal.log, buf)
      modifies this`cells, this`journal
      ensures cells == old(cells)[v := data] && Journaled(cells, journal, |arr.dies|, pages)
      ensures KeptFrom(|arr.dies|, old(journal), journal) && |journal.log| == |old(journal).log| + 1
      ensures LastIs(journal.log, R.Write(BlockNo(v, |arr.dies|), v.page))
    {
      hide Journaled, KeptFrom, Sourced;
      ProgramNoted(cells, journal, |arr.dies|, pages, v, buf);
      cells := cells[v := data];
      journal := Noted(journal, R.Write(BlockNo(v, |arr.dies|), v.page), Some(buf), Same());
    }

    /** Read a programmed page into a buffer. */
    method ReadPage(v: Vsa, ghost buf: nat) returns (data: T)
      requires v in cells && Journaled(cells, journal, |arr.dies|, pages)
      modifies this`journal
      ensures data == cells[v] && Journaled(cells, journal, |arr.dies|, pages)
      ensures Total(old(journal).mem) && journal.mem == old(journal).mem.(bufs := old(journal).mem.bufs[buf := data])
      ensures Extends(old(journal), journal) && (old(Valid()) ==> Valid()) && |journal.log| == |old(journal).log| + 1
      ensures Sourced(journal.log, buf) && (buf < |arr.dies| ==> KeptFrom(|arr.dies|, old(journal), journal))
    {
      hide Journaled, KeptFrom, DieArray.Valid, Inv, CellsMatch, Slot, Sourced;
      ReadNoted(cells, journal, |arr.dies|, pages, v, buf);
      data := cells[v];
      journal := Noted(journal, R.Read(BlockNo(v, |arr.dies|), v.page), Some(buf), Same());
    }

    /** A host DMA to or from a buffer; f is what it leaves in the buffer. */
    ghost method HostDma(buf: nat, f: T -> T)
      requires Journaled(cells, journal, |arr.dies|, pages)
      modifies this`journal
      ensures Journaled(cells, journal, |arr.dies|, pages) && Total(old(journal).mem)
      ensures var j := old(journal);
              journal.mem == j.mem.(bufs := j.mem.bufs[buf := f(j.mem.bufs[buf])],
                                    sent := j.mem.sent[|j.log| := j.mem.bufs[buf]])
      ensures Extends(old(journal), journal) && |journal.log| == |old(journal).log| + 1 && (old(Valid()) ==> Valid())
      ensures Sourced(journal.log, buf)
    {
      hide Journaled, Noted, DieArray.Valid, Inv, CellsMatch, Slot, Sourced;
      DmaNoted(cells, journal, |arr.dies|, pages, buf, f);
      journal := Noted(journal, R.Dma, Some(buf), f);
    }

    lemma SameCount()
      requires Sound()
      ensures |arr.views| == |arr.dies|
    {
    }

    lemma LocatedAt(l: nat)
      requires Valid() && l in l2v
      ensures l2v[l].die < |arr.views| && l2v[l].block < |arr.views[l2v[l].die].blocks|
      ensures sliceAllocationTargetDie < |arr.views|
    {
      hide DieArray.Valid, CellsMatch;
      LocatedIn(T(), pages, l);
    }

    lemma JournalIn()
      requires Valid()
      ensures Journaled(cells, journal, |arr.dies|, pages)
    {
    }

    lemma JournalTidy()
      requires Valid()
      ensures Tidy(journal.log, pages) && 0 < pages
    {
      hide DieArray.Valid, Inv, CellsMatch, Tidy;
      arr.Shape(sliceAllocationTargetDie);
    }

    /** Where the next valid slice of the victim goes. */
    method FindFreeVirtualSliceForGc(d: nat, victim: nat) returns (r: Vsa, ghost v1: D.DieView)
      requires Sound() && Inv(T(), pages) && d < |arr.views| && arr.views[d].hand == Some(victim)
      requires arr.views[d].current < |arr.views[d].blocks|
      requires arr.views[d].current == victim || arr.views[d].blocks[arr.views[d].current].currentPage == pages ==>
                 arr.views[d].free != []
      modifies arr.Repr
      ensures Sound()
      ensures var v := old(arr.views)[d];
              && (v.current == victim || v.blocks[v.current].currentPage == pages ==>
                    v.free[0] < |v.blocks| && v.blocks[v.free[0]].free)
              && v1 == Roomy(v, victim, pages)
      ensures v1.current < |v1.blocks| && v1.current != victim && v1.hand == Some(victim)
      ensures r == NextPage(v1, d) && r.page < pages && arr.views == old(arr.views)[d := Advanced(v1)]
      ensures Inv(WithDie(old(T()), d, v1), pages)
    {
      arr.Shape(d);
      hide DieArray.Valid, Inv;
      ghost var t := T();
      if victim == arr.CurrentBlock(d) {
        var ok := arr.OpenBlock(d, D.Gc);
        if !ok {
          assert false;
        }
        OpenKeeps(t, pages, d);
      }
      ghost var t1 := T();
      assert t1 == WithDie(t, d, arr.views[d]);
      CurrentInUse(t1, pages, d);
      if arr.Info(d, arr.CurrentBlock(d)).currentPage == pages {
        assert arr.views == t.dies;
        var ok := arr.OpenBlock(d, D.Gc);
        if !ok {
          assert false;
        }
        OpenKeeps(t1, pages, d);
      } else if arr.Info(d, arr.CurrentBlock(d)).currentPage > pages {
        assert false;
      }
      v1 := arr.views[d];
      assert T() == WithDie(t, d, v1);
      CurrentInUse(T(), pages, d);
      r := arr.TakeNextPage(d);
    }

    /** Copy one valid slice out of the victim: read, allocate, remap, program. */
    method MoveSlice(d: nat, victim: nat, l: nat)
      requires Consistent() && d < |arr.views| && arr.views[d].hand == Some(victim)
      requires arr.views[d].current < |arr.views[d].blocks|
      requires arr.views[d].current == victim || arr.views[d].blocks[arr.views[d].current].currentPage == pages ==>
                 arr.views[d].free != []
      requires l in l2v && l2v[l].die == d && l2v[l].block == victim
      modifies this`l2v, this`v2l, this`cells, this`journal, arr.Repr
      ensures Consistent() && SameData(old(l2v), old(cells), l2v, cells)
      ensures KeptFrom(|arr.dies|, old(journal), journal) && |journal.log| == |old(journal).log| + 2
      ensures l in l2v && l2v == old(l2v)[l := l2v[l]]
      ensures l in Residents(old(l2v), d, victim) && Residents(l2v, d, victim) == Residents(old(l2v), d, victim) - {l}
      ensures var v := old(arr.views)[d];
              && (v.current == victim || v.blocks[v.current].currentPage == pages ==>
                v.free[0] < |v.blocks| && v.free[0] != victim)
              && var v1 := Roomy(v, victim, pages);
              && v1.current < |v1.blocks| && v1.current != victim && NextPage(v1, d).page < pages
              && (v1.current != v.current ==> NextPage(v1, d).page == 0)
              && arr.views == old(arr.views)[d := Advanced(v1)]
    {
      hide DieArray.Valid, Inv, CellsMatch, SameData, Journaled, KeptFrom, Sourced;
      SameCount();
      ghost var t := T();
      HasCell(t, pages, cells, l);
      var data := ReadPage(l2v[l], d);
      ghost var journal1 := journal;
      var n, v1 := FindFreeVirtualSliceForGc(d, victim);
      MoveEffect(t, d, victim, l, pages, cells);
      l2v := l2v[l := n];
      v2l := v2l[n := l];
      Program(n, data, d);
      KeptTwice(|arr.dies|, old(journal), journal1, journal);
    }

    /** The copy loop of a collection: every page of the victim in order, valid ones moved. */
    method CopyValidSlices(d: nat, victim: nat)
      requires Consistent() && d < |arr.views| && arr.views[d].hand == Some(victim)
      requires victim < |arr.views[d].blocks| && arr.views[d].blocks[victim].currentPage == pages
      requires arr.views[d].current < |arr.views[d].blocks| && |arr.views[d].free| == 1
      requires arr.views[d].current == victim || arr.views[d].blocks[arr.views[d].current].currentPage == pages
      requires 0 < |Residents(l2v, d, victim)| < pages
      modifies this`l2v, this`v2l, this`cells, this`journal, arr.Repr
      ensures Consistent() && SameData(old(l2v), old(cells), l2v, cells) && Residents(l2v, d, victim) == {}
      ensures KeptFrom(|arr.dies|, old(journal), journal)
      ensures |journal.log| == |old(journal).log| + 2 * |Residents(old(l2v), d, victim)|
      ensures |arr.views| == |old(arr.views)| && forall e :: 0 <= e < |arr.views| && e != d ==>
              arr.views[e] == old(arr.views)[e]
      ensures var v := arr.views[d];
              && v.hand == Some(victim) && v.free == [] && victim < |v.blocks|
              && !v.blocks[victim].bad && v.blocks[victim].currentPage == pages
              && v.current != victim && v.current < |v.blocks| && v.blocks[v.current].currentPage < pages
    {
      hide DieArray.Valid, Inv, CellsMatch, SameData, Journaled, KeptFrom;
      KeptAll(cells, journal, |arr.dies|, pages);
      SameDataRefl(T(), pages, cells);
      HandInUse(T(), pages, d);
      ghost var moved := 0;
      var pageNo := 0;
      while pageNo < pages
        invariant 0 <= pageNo <= pages
        invariant Consistent() && SameData(old(l2v), old(cells), l2v, cells)
        invariant KeptFrom(|arr.dies|, old(journal), journal) && |journal.log| == |old(journal).log| + 2 * moved
        invariant |arr.views| == |old(arr.views)| && forall e :: 0 <= e < |arr.views| && e != d ==>
                  arr.views[e] == old(arr.views)[e]
        invariant var v := arr.views[d];
                  && v.hand == Some(victim) && victim < |v.blocks| && v.blocks[victim].currentPage == pages
                  && !v.blocks[victim].bad && v.current < |v.blocks|
                  && if moved == 0
                     then |v.free| == 1 && (v.current == victim || v.blocks[v.current].currentPage == pages)
                     else v.free == [] && v.current != victim && v.blocks[v.current].currentPage == moved
        invariant moved + |Residents(l2v, d, victim)| == |Residents(old(l2v), d, victim)|
        invariant forall m :: m in Residents(l2v, d, victim) ==> l2v[m].page >= pageNo
      {
        var src := Vsa(d, victim, pageNo);
        forall m | m in Residents(l2v, d, victim) && l2v[m].page == pageNo
          ensures l2v[m] == src && src in v2l && v2l[src] == m
        {
          LocatedIn(T(), pages, m);
        }
        if src in v2l && v2l[src] in l2v && l2v[v2l[src]] == src {
          var l := v2l[src];
          ghost var l2v0, cells0, journal0 := l2v, cells, journal;
          assert l in Residents(l2v, d, victim);
          assert |Residents(l2v, d, victim)| > 0;
          MoveSlice(d, victim, l);
          SameDataTrans(old(l2v), old(cells), l2v0, cells0, l2v, cells);
          KeptTwice(|arr.dies|, old(journal), journal0, journal);
          moved := moved + 1;
        }
        pageNo := pageNo + 1;
      }
      forall m ensures m !in Residents(l2v, d, victim) {
        if m in Residents(l2v, d, victim) {
          LocatedIn(T(), pages, m);
        }
      }
    }

    /** The erase operation itself: the pages of a full block are blank again. */
    method Wipe(d: nat, b: nat)
      requires Journaled(cells, journal, |arr.dies|, pages) && d < |arr.dies|
      requires forall p: nat :: Vsa(d, b, p) in cells <==> p < pages
      modifies this`cells, this`journal
      ensures cells == Blanked(old(cells), d, b) && Journaled(cells, journal, |arr.dies|, pages)
      ensures KeptFrom(|arr.dies|, old(journal), journal) && |journal.log| == |old(journal).log| + 1
    {
      hide Journaled, KeptFrom;
      EraseNoted(cells, journal, |arr.dies|, pages, d, b);
      journal := Noted(journal, R.Erase(BlockNo(Vsa(d, b, 0), |arr.dies|), pages), None, Same());
      cells := map u | u in cells && !(u.die == d && u.block == b) :: cells[u];
    }

    /** Erase a block taken off the lists: the flash pages, the block record, the reverse entries. */
    method EraseBlock(d: nat, b: nat)
      requires Sound() && d < |arr.views| && arr.views[d].hand == Some(b)
      requires b < |arr.views[d].blocks| && !arr.views[d].blocks[b].bad
      requires forall u :: u in v2l && u.die == d && u.block == b ==> u.page < pages
      requires Journaled(cells, journal, |arr.dies|, pages) && forall p: nat :: Vsa(d, b, p) in cells <==> p < pages
      modifies this`v2l, this`cells, this`journal, arr.Repr
      ensures Sound() && T() == Erased(old(T()), d, b) && cells == Blanked(old(cells), d, b)
      ensures Journaled(cells, journal, |arr.dies|, pages) && KeptFrom(|arr.dies|, old(journal), journal)
      ensures |journal.log| == |old(journal).log| + 1
    {
      hide DieArray.Valid, Journaled, KeptFrom, Blanked;
      SameCount();
      Wipe(d, b);
      arr.RecycleBlock(d, b);
      var pageNo := 0;
      while pageNo < pages
        invariant 0 <= pageNo <= pages
        invariant v2l == map u | u in old(v2l) && !(u.die == d && u.block == b && u.page < pageNo) :: old(v2l)[u]
        modifies this`v2l
      {
        v2l := v2l - {Vsa(d, b, pageNo)};
        pageNo := pageNo + 1;
      }
    }

    /** Greedy collection of die d, run when its current block is full and only the reserve is free. */
    method GarbageCollection(d: nat) returns (r: Collection)
      requires Consistent() && d < |arr.views| && arr.views[d].hand == None
      requires arr.views[d].current < |arr.views[d].blocks|
      requires arr.views[d].blocks[arr.views[d].current].currentPage == pages && |arr.views[d].free| == 1
      modifies this`l2v, this`v2l, this`cells, this`journal, arr.Repr
      ensures r.NothingToCollect? <==> NoInvalidSlice(old(arr.views)[d])
      ensures r.CurrentFreed? <==> !NoInvalidSlice(old(arr.views)[d]) && PicksCurrent(old(arr.views)[d])
      ensures |arr.views| == |old(arr.views)| && forall e :: 0 <= e < |arr.views| && e != d ==>
              arr.views[e] == old(arr.views)[e]
      ensures r.Collected? ==>
                && Consistent() && SameData(old(l2v), old(cells), l2v, cells) && arr.views[d].hand == None
                && arr.views[d].current < |arr.views[d].blocks|
                && (arr.views[d].blocks[arr.views[d].current].currentPage < pages || |arr.views[d].free| == 2)
                && KeptFrom(|arr.dies|, old(journal), journal) && |journal.log| < |old(journal).log| + 2 * pages
      ensures r.CurrentFreed? ==>
                && Sound() && arr.views[d].current < |arr.views[d].blocks|
                && arr.views[d].blocks[arr.views[d].current] == D.BlockInfo(false, true, 0, 0)
    {
      hide DieArray.Valid, CellsMatch, SameData, Inv, Journaled, KeptFrom;
      KeptAll(cells, journal, |arr.dies|, pages);
      ghost var t := T();
      var got := arr.PickVictim(d);
      if got.None? {
        return NothingToCollect;
      }
      var victim := got.value;
      TakeOutKeeps(t, pages, d, victim, arr.views[d].victims);
      SamePagesCells(t.dies, arr.views, cells, None);
      SameDataRefl(t, pages, cells);
      r := Collected;
      if arr.Info(d, victim).invalidSliceCnt != pages {
        CopyValidSlices(d, victim);
      } else if victim == arr.CurrentBlock(d) {
        r := CurrentFreed;
      }
      ghost var t1, cells1 := T(), cells;
      ReverseBounded(t1, pages, d, victim);
      FullCells(t1.dies, cells, d, victim, pages);
      ghost var journal1 := journal;
      EraseBlock(d, victim);
      KeptTwice(|arr.dies|, old(journal), journal1, journal);
      if r.Collected? {
        EraseKeeps(t1, pages, d, victim);
        RecycleCells(t1.dies, d, victim, cells1);
        forall m | m in t1.l2v ensures t1.l2v[m] in cells1 {
          HasCell(t1, pages, cells1, m);
        }
        BlankData(t1.l2v, cells1, d, victim);
        SameDataTrans(t.l2v, old(cells), t1.l2v, cells1, l2v, cells);
      }
    }

    /** The current copy of a logical slice, if it has one. */
    function AddrTransRead(l: nat): (r: Option<Vsa>)
      reads this
    {
      if l in l2v then Some(l2v[l]) else None
    }

    /** Round robin over channels, then ways. */
    method FindDieForFreeSliceAllocation() returns (die: nat)
      requires targetCh < channels && targetWay < ways && |arr.views| == channels * ways
      modifies this`targetCh, this`targetWay
      ensures die == Slot(old(targetCh), old(targetWay), channels) < |arr.views| && targetCh < channels
      ensures targetWay < ways
      ensures Slot(targetCh, targetWay, channels) == Following(die, |arr.views|)
    {
      hide Slot;
      NextSlot(targetCh, targetWay, channels, ways);
      die := Slot(targetCh, targetWay, channels);
      if targetCh != channels - 1 {
        targetCh := targetCh + 1;
      } else {
        targetCh := 0;
        targetWay := (targetWay + 1) % ways;
      }
    }

    /** Give up the current copy of a logical slice. */
    method InvalidateOldVsa(l: nat)
      requires Consistent() && forall d :: 0 <= d < |arr.views| ==> arr.views[d].hand == None
      modifies this`l2v, arr.Repr
      ensures Consistent() && forall d :: 0 <= d < |arr.views| ==> arr.views[d].hand == None
      ensures l2v == old(l2v) - {l}
      ensures UnmapOk(old(T()), l) && T() == Unmapping(old(T()), l)
    {
      hide DieArray.Valid, CellsMatch, Inv;
      if l in l2v {
        CanUnmap(T(), pages, l);
        LocatedIn(T(), pages, l);
        var v := l2v[l];
        if v !in v2l || v2l[v] != l {
          assert false;
          return;
        }
        UnmapKeeps(T(), pages, l);
        SamePagesCells(arr.views, Unmapped(T(), l).dies, cells, None);
        arr.InvalidateSlice(v.die, v.block);
        l2v := l2v - {l};
      }
    }

    /** See to it that the current block of die d has a page left, collecting garbage if need be. */
    method MakeRoom(d: nat) returns (c: Collection)
      requires Consistent() && d < |arr.views| && arr.views[d].hand == None
      modifies this`l2v, this`v2l, this`cells, this`journal, arr.Repr
      ensures old(arr.views)[d].current < |old(arr.views)[d].blocks|
      ensures c.Collected? <==> Fits(old(arr.views)[d], pages)
      ensures c.NothingToCollect? <==> RunsOut(old(arr.views)[d], pages)
      ensures |arr.views| == |old(arr.views)| && forall e :: 0 <= e < |arr.views| && e != d ==>
              arr.views[e] == old(arr.views)[e]
      ensures c.Collected? ==>
                && Consistent() && SameData(old(l2v), old(cells), l2v, cells) && arr.views[d].hand == None
                && arr.views[d].current < |arr.views[d].blocks| && NextPage(arr.views[d], d).page < pages
                && Left(arr.views[d], pages) >= Left(old(arr.views)[d], pages)
                && KeptFrom(|arr.dies|, old(journal), journal) && |journal.log| < |old(journal).log| + 2 * pages
      ensures c.CurrentFreed? ==>
                && Sound() && arr.views[d].current < |arr.views[d].blocks| &&
                  arr.views[d].blocks[arr.views[d].current].free
    {
      hide DieArray.Valid, CellsMatch, Inv, SameData, Left, Journaled, KeptFrom;
      KeptAll(cells, journal, |arr.dies|, pages);
      ghost var t1 := T();
      CurrentInUse(t1, pages, d);
      SameDataRefl(t1, pages, cells);
      ReserveThere(t1, pages, d);
      LeftBounds(arr.views[d], pages);
      arr.Shape(d);
      if arr.Info(d, arr.CurrentBlock(d)).currentPage == pages {
        var ok := arr.OpenBlock(d, D.Normal);
        if !ok {
          c := GarbageCollection(d);
          if !c.Collected? {
            return;
          }
          t1 := T();
          CurrentInUse(t1, pages, d);
          ReserveThere(t1, pages, d);
          LeftBounds(arr.views[d], pages);
          if arr.Info(d, arr.CurrentBlock(d)).currentPage != pages {
            return;
          }
          ok := arr.OpenBlock(d, D.Normal);
          if !ok {
            assert false;
          }
        }
        OpenKeeps(t1, pages, d);
        SamePagesCells(t1.dies, arr.views, cells, None);
        FirstFree(t1, pages, d);
        LeftOpened(t1.dies[d], pages);
      } else if arr.Info(d, arr.CurrentBlock(d)).currentPage > pages {
        assert false;
      }
      return Collected;
    }

    /** The next page for a host write, on the die whose turn it is. */
    method FindFreeVirtualSlice() returns (r: Report, ghost t1: Tables)
      requires Valid()
      modifies Repr()
      ensures var v := old(arr.views)[old(sliceAllocationTargetDie)]; v.current < |v.blocks|
      ensures r.Kept? <==> Fits(old(arr.views)[old(sliceAllocationTargetDie)], pages)
      ensures r.NoVictim? <==> RunsOut(old(arr.views)[old(sliceAllocationTargetDie)], pages)
      ensures r.Stray? ==> !Sound()
      ensures r.Kept? ==>
                && Sound() && InTurn() && ConsistentBefore(t1, cells, pages) && t1.l2v == l2v && t1.v2l == v2l
                && SameData(old(l2v), old(cells), l2v, cells) && Used(old(arr.views), arr.views, pages, 1)
                && Journaled(cells, journal, |arr.dies|, pages) && KeptFrom(|arr.dies|, old(journal), journal)
                && |journal.log| < |old(journal).log| + 2 * pages
                && sliceAllocationTargetDie == Following(old(sliceAllocationTargetDie), |arr.views|)
                && var d := old(sliceAllocationTargetDie);
                && d < |t1.dies| && t1.dies[d].current < |t1.dies[d].blocks| && t1.dies[d].hand == None
                && r.vsa == NextPage(t1.dies[d], d) && r.vsa.page < pages
                && arr.views == t1.dies[d := Advanced(t1.dies[d])]
    {
      hide DieArray.Valid, CellsMatch, Inv, SameData, Slot, Left, Journaled, KeptFrom;
      var d := sliceAllocationTargetDie;
      var c := MakeRoom(d);
      t1 := T();
      if c.NothingToCollect? {
        return NoVictim, t1;
      }
      if c.Collected? {
        CurrentInUse(t1, pages, d);
        LeftAdvanced(t1.dies[d], pages);
      }
      var v := arr.TakeNextPage(d);
      sliceAllocationTargetDie := FindDieForFreeSliceAllocation();
      r := if c.CurrentFreed? then Stray(v) else Kept(v);
    }

    /** The die whose turn it is, once the old copy of logical slice l is given up. */
    ghost function Awaiting(l: nat): (v: D.DieView)
      requires Valid()
      reads Repr()
      ensures v.current < |v.blocks|
    {
      Turn(T(), pages, sliceAllocationTargetDie, l)
    }

    /** While no die is used up every slice can be written. */
    lemma RoomFits(l: nat)
      requires Valid() && HasRoom(arr.views, pages, 1)
      ensures Fits(Awaiting(l), pages)
    {
      hide DieArray.Valid, CellsMatch, Left;
      var d := sliceAllocationTargetDie;
      CurrentInUse(T(), pages, d);
      ReserveThere(T(), pages, d);
      LeftBounds(arr.views[d], pages);
      if l in l2v {
        CanUnmap(T(), pages, l);
      }
    }

    /** Give a logical slice a new page. The caller programs it next. */
    method AddrTransWrite(l: nat) returns (r: Report)
      requires Valid()
      modifies Repr()
      ensures r.Kept? <==> Fits(old(Awaiting(l)), pages)
      ensures r.NoVictim? <==> RunsOut(old(Awaiting(l)), pages)
      ensures r.Kept? ==>
                && ConsistentBut(Some(r.vsa)) && InTurn()
                && sliceAllocationTargetDie == Following(old(sliceAllocationTargetDie), |arr.views|)
                && l in l2v && l2v[l] == r.vsa && r.vsa.die == old(sliceAllocationTargetDie) && r.vsa.page < pages
                && r.vsa.block == arr.views[r.vsa.die].current
                && Programmed(arr.views, r.vsa) && r.vsa !in cells &&
                  (r.vsa.page > 0 ==> r.vsa.(page := r.vsa.page - 1) in cells)
                && SameData(old(l2v) - {l}, old(cells), l2v - {l}, cells) && Used(old(arr.views), arr.views, pages, 1)
                && KeptFrom(|arr.dies|, old(journal), journal) && |journal.log| < |old(journal).log| + 2 * pages
      ensures r.Stray? ==> !Sound()
    {
      hide DieArray.Valid, CellsMatch, Inv, SameData, Slot, Used, Journaled, KeptFrom;
      ghost var d, l2v0, cells0 := sliceAllocationTargetDie, l2v, cells;
      ghost var t0 := T();
      InvalidateOldVsa(l);
      UnmappingLeft(t0, l, pages);
      ghost var views1 := arr.views;
      var f, t1 := FindFreeVirtualSlice();
      r := f;
      if r.NoVictim? {
        return;
      }
      if r.Kept? {
        UsedTwice(old(arr.views), views1, arr.views, pages, 0, 1);
        SameKeys(old(l2v) - {l}, cells0, l2v, cells);
        PlaceKeeps(t1, pages, d, l);
        AdvanceCells(t1.dies, d, cells);
        assert l2v[l := r.vsa] - {l} == l2v;
      }
      l2v := l2v[l := r.vsa];
      v2l := v2l[r.vsa := l];
    }

    /** Write a whole slice out of a buffer: a new page for it, then the program. Buffers below the
        number of dies are the temporary ones of the collection. At most two requests for every page of a
        block are submitted. */
    method WriteSlice(l: nat, data: T, ghost buf: nat) returns (r: Report)
      requires Valid() && buf >= |arr.dies| && Total(journal.mem) && journal.mem.bufs[buf] == data
      requires Sourced(journal.log, buf)
      modifies Repr()
      ensures r.Kept? <==> Fits(old(Awaiting(l)), pages)
      ensures r.NoVictim? <==> RunsOut(old(Awaiting(l)), pages)
      ensures r.Kept? ==>
                && Valid() && l in l2v && l2v[l] == r.vsa && r.vsa in cells && cells[r.vsa] == data
                && r.vsa.die == old(sliceAllocationTargetDie) && r.vsa.block == arr.views[r.vsa.die].current
                && SameData(old(l2v) - {l}, old(cells), l2v - {l}, cells) && Used(old(arr.views), arr.views, pages, 1)
                && KeptFrom(|arr.dies|, old(journal), journal)
                && |old(journal).log| < |journal.log| <= |old(journal).log| + 2 * pages
                && LastIs(journal.log, R.Write(BlockNo(r.vsa, |arr.dies|), r.vsa.page))
    {
      hide DieArray.Valid, CellsMatch, Inv, SameData, Slot, Used, Journaled, Sourced, LastIs;
      r := AddrTransWrite(l);
      if r.Kept? {
        SameCount();
        StillSourced(old(journal).log, journal.log, buf);
        ProgramCells(arr.views, cells, r.vsa, data);
        NewCell(old(l2v) - {l}, old(cells), l2v - {l}, cells, r.vsa, data);
        Program(r.vsa, data, buf);
      }
    }
  }

  /** Die d once the old copy of logical slice l is given up. */
  ghost function Turn(t: Tables, pages: nat, d: nat, l: nat): (v: D.DieView)
    requires Inv(t, pages) && d < |t.dies| && forall e :: 0 <= e < |t.dies| ==> t.dies[e].hand == None
    ensures v.current < |v.blocks|
  {
    assert DieOk(t.dies[d], pages);
    if l in t.l2v then
      CanUnmap(t, pages, l);
      Unmapped(t, l).dies[d]
    else t.dies[d]
  }

  /** Programming a blank page changes no slice's contents. */
  lemma NewCell<T>(l2v: map<nat, Vsa>, cells: map<Vsa, T>, l2v': map<nat, Vsa>, cells': map<Vsa, T>, n: Vsa, data: T)
    requires SameData(l2v, cells, l2v', cells') && n !in cells'
    ensures SameData(l2v, cells, l2v', cells'[n := data])
  {
  }

  lemma SameKeys<T>(l2v: map<nat, Vsa>, cells: map<Vsa, T>, l2v': map<nat, Vsa>, cells': map<Vsa, T>)
    requires SameData(l2v, cells, l2v', cells')
    ensures l2v'.Keys == l2v.Keys
  {
  }

  ghost predicate ConsistentBefore<T>(t: Tables, cells: map<Vsa, T>, pages: nat) {
    Inv(t, pages) && CellsMatch(t.dies, cells, None)
  }

  lemma ReserveThere(t: Tables, pages: nat, d: nat)
    requires Inv(t, pages) && d < |t.dies| && t.dies[d].hand == None
    ensures |t.dies[d].free| >= 1 && |t.dies[d].victims| == pages + 1
  {
    assert DieOk(t.dies[d], pages);
  }

  lemma FirstFree(t: Tables, pages: nat, d: nat)
    requires Inv(t, pages) && d < |t.dies| && t.dies[d].hand == None
    requires t.dies[d].free != [] && t.dies[d].free[0] < |t.dies[d].blocks| && t.dies[d].blocks[t.dies[d].free[0]].free
    ensures t.dies[d].blocks[t.dies[d].free[0]].currentPage == 0
  {
    assert BlockOk(t, pages, d, t.dies[d].free[0]);
  }

  /** Giving up a copy takes no page. */
  lemma UnmappingLeft(t: Tables, l: nat, pages: nat)
    requires UnmapOk(t, l)
    ensures Used(t.dies, Unmapping(t, l).dies, pages, 0)
  {
    hide Left;
    if l in t.l2v {
      LeftInvalidated(t.dies[t.l2v[l].die], t.l2v[l].block, pages);
    }
  }

  ghost predicate UnmapOk(t: Tables, l: nat) {
    l in t.l2v ==> InRange(t, t.l2v[l]) &&
                   BlockOf(t, t.l2v[l]).invalidSliceCnt + 1 < |t.dies[t.l2v[l].die].victims|
  }

  ghost function Unmapping(t: Tables, l: nat): (r: Tables)
    requires UnmapOk(t, l)
  {
    if l in t.l2v then Unmapped(t, l) else t
  }

  /** The die after this one, in turn. */
  function Following(die: nat, dies: nat): (r: nat) {
    if die + 1 == dies then 0 else die + 1
  }

  /** The die n turns after this one. */
  ghost function InTurns(die: nat, dies: nat, n: nat): (r: nat) {
    if n == 0 then die else Following(InTurns(die, dies, n - 1), dies)
  }

  /** Dies take turns: as many allocations in a row as there are dies go to every die once. */
  lemma {:induction false} EveryDieOnce(die: nat, dies: nat, n: nat)
    requires die < dies && n <= dies
    ensures InTurns(die, dies, n) == if die + n < dies then die + n else die + n - dies
  {
    if n > 0 {
      EveryDieOnce(die, dies, n - 1);
    }
  }

  lemma {:induction false} RowsBelow(w: nat, ways: nat, channels: nat)
    requires w < ways
    ensures w * channels + channels <= channels * ways
  {
    assert w * channels + channels == (w + 1) * channels;
    if w + 1 < ways {
      RowsBelow(w, ways - 1, channels);
      assert channels * ways == channels * (ways - 1) + channels;
    }
  }

  lemma Wrap(w: nat, ways: nat)
    requires w < ways
    ensures (w + 1) % ways == if w + 1 == ways then 0 else w + 1
  {
  }

  /** The die behind a channel and way. */
  function Slot(ch: nat, way: nat, channels: nat): (die: nat) {
    ch + way * channels
  }

  lemma FirstSlot(channels: nat, ways: nat)
    requires 0 < channels && 0 < ways
    ensures Slot(0, 0, channels) == 0 && 0 < channels * ways
  {
  }

  lemma NextSlot(c: nat, w: nat, channels: nat, ways: nat)
    requires c < channels && w < ways
    ensures Slot(c, w, channels) < channels * ways
    ensures Following(Slot(c, w, channels), channels * ways) ==
            if c != channels - 1 then Slot(c + 1, w, channels) else Slot(0, (w + 1) % ways, channels)
  {
    Wrap(w, ways);
    RowsBelow(w, ways, channels);
    assert (w + 1) * channels == w * channels + channels;
    if w + 1 < ways {
      RowsBelow(w + 1, ways, channels);
    } else {
      assert (w + 1) * channels == channels * ways;
    }
  }

  /** Moving a valid slice out of the victim keeps the invariant, the data and the match with the flash. */
  lemma MoveEffect<T>(t: Tables, d: nat, victim: nat, l: nat, pages: nat, cells: map<Vsa, T>)
    requires Inv(t, pages) && CellsMatch(t.dies, cells, None) && d < |t.dies| && t.dies[d].hand == Some(victim)
    requires l in t.l2v && t.l2v[l].die == d && t.l2v[l].block == victim && t.l2v[l] in cells
    requires var v := t.dies[d];
             v.current < |v.blocks| &&
             (v.current == victim || v.blocks[v.current].currentPage == pages ==>
               v.free != [] && v.free[0] < |v.blocks| && v.blocks[v.free[0]].free)
    requires var v1 := Roomy(t.dies[d], victim, pages);
             && v1.current < |v1.blocks| && v1.current != victim && v1.hand == Some(victim)
             && NextPage(v1, d).page < pages && Inv(WithDie(t, d, v1), pages)
    ensures var v := t.dies[d];
            v.current == victim || v.blocks[v.current].currentPage == pages ==>
              v.free[0] != victim && NextPage(Opened(v), d).page == 0
    ensures l in Residents(t.l2v, d, victim)
    ensures var v1 := Roomy(t.dies[d], victim, pages);
            var n := NextPage(v1, d);
            var l2v', cells', dies' := t.l2v[l := n], cells[n := cells[t.l2v[l]]], t.dies[d := Advanced(v1)];
            && n !in cells && (n.page > 0 ==> n.(page := n.page - 1) in cells)
            && Inv(Tables(dies', l2v', t.v2l[n := l]), pages) && CellsMatch(dies', cells', None)
            && SameData(t.l2v, cells, l2v', cells')
            && Residents(l2v', d, victim) == Residents(t.l2v, d, victim) - {l}
  {
    hide Inv, CellsMatch, SameData, SamePages;
    var v1 := Roomy(t.dies[d], victim, pages);
    var t1, n := WithDie(t, d, v1), NextPage(v1, d);
    RoomyPages(t, pages, d, victim);
    SamePagesCells(t.dies, t1.dies, cells, None);
    AdvanceCells(t1.dies, d, cells);
    ProgramCells(t1.dies[d := Advanced(v1)], cells, n, cells[t.l2v[l]]);
    MoveMaps(t1, d, victim, l);
    MoveKeeps(t1, d, victim, l, pages);
    assert MovedTo(t1, d, l) == Tables(t.dies[d := Advanced(v1)], t.l2v[l := n], t.v2l[n := l]);
    forall m | m in t.l2v ensures t.l2v[m] in cells {
      HasCell(t, pages, cells, m);
    }
    MoveData(t.l2v, cells, l, n);
  }

  lemma RoomyPages(t: Tables, pages: nat, d: nat, victim: nat)
    requires Inv(t, pages) && d < |t.dies| && t.dies[d].hand == Some(victim)
    requires var v := t.dies[d];
             v.current < |v.blocks| &&
             (v.current == victim || v.blocks[v.current].currentPage == pages ==>
               v.free != [] && v.free[0] < |v.blocks| && v.blocks[v.free[0]].free)
    ensures SamePages(t.dies, WithDie(t, d, Roomy(t.dies[d], victim, pages)).dies)
    ensures var v := t.dies[d];
            v.current == victim || v.blocks[v.current].currentPage == pages ==>
              v.free[0] != victim && NextPage(Opened(v), d).page == 0
  {
    assert DieOk(t.dies[d], pages);
    var v := t.dies[d];
    if v.current == victim || v.blocks[v.current].currentPage == pages {
      assert BlockOk(t, pages, d, v.free[0]);
    }
  }

  lemma HandInUse(t: Tables, pages: nat, d: nat)
    requires Inv(t, pages) && d < |t.dies| && t.dies[d].hand.Some?
    ensures t.dies[d].hand.value < |t.dies[d].blocks| && !t.dies[d].blocks[t.dies[d].hand.value].bad
  {
    assert DieOk(t.dies[d], pages);
  }

  lemma ReverseBounded(t: Tables, pages: nat, d: nat, b: nat)
    requires Inv(t, pages) && d < |t.dies| && b < |t.dies[d].blocks| && t.dies[d].blocks[b].currentPage <= pages
    ensures forall u :: u in t.v2l && u.die == d && u.block == b ==> u.page < pages
  {
  }

  /** A current block that is not in hand is in use and not overfull. */
  lemma CurrentInUse(t: Tables, pages: nat, d: nat)
    requires Inv(t, pages) && d < |t.dies|
    ensures t.dies[d].current < |t.dies[d].blocks|
    ensures t.dies[d].hand != Some(t.dies[d].current) ==>
              !t.dies[d].blocks[t.dies[d].current].free && NextPage(t.dies[d], d).page <= pages
  {
    assert DieOk(t.dies[d], pages);
    if t.dies[d].hand != Some(t.dies[d].current) {
      assert BlockOk(t, pages, d, t.dies[d].current);
    }
  }
}
