/** When the allocator runs out of blocks: exactly when all good blocks of the die whose turn it is,
    but the reserve, are full of valid slices. */
module Capacity {
  import opened Basics
  import D = Die
  import L = Links
  import opened Sets
  import opened Tables
  import opened Dies
  import opened Room
  import opened Ftl
  import S = Serial
  import opened Journal
  import Shadow

  ghost function Good(v: D.DieView): (s: set<nat>) {
    set b: nat | b < |v.blocks| && !v.blocks[b].bad
  }

  /** The blocks below n that are in use. */
  ghost function InUse(v: D.DieView, n: nat): (s: set<nat>) {
    set b: nat | b < n && b < |v.blocks| && !v.blocks[b].free
  }

  /** The logical slices whose current copy is on die d, in a block below n. */
  ghost function Below(l2v: map<nat, Vsa>, d: nat, n: nat): (s: set<nat>) {
    set l | l in l2v && l2v[l].die == d && l2v[l].block < n
  }

  ghost function OnDie(l2v: map<nat, Vsa>, d: nat): (s: set<nat>) {
    set l | l in l2v && l2v[l].die == d
  }

  ghost predicate FullBlock(t: Tables, d: nat, b: nat, pages: nat) {
    |Residents(t.l2v, d, b)| == pages
  }

  /** A block in use holds at most as many valid slices as it has pages. */
  lemma AtMostFull(t: Tables, d: nat, b: nat, pages: nat)
    requires Inv(t, pages) && d < |t.dies| && t.dies[d].hand == None && b < |t.dies[d].blocks|
    ensures t.dies[d].blocks[b].free ==> Residents(t.l2v, d, b) == {}
    ensures !t.dies[d].blocks[b].free ==> |Residents(t.l2v, d, b)| <= pages
    ensures !t.dies[d].blocks[b].free ==>
              (FullBlock(t, d, b, pages) <==>
                t.dies[d].blocks[b].invalidSliceCnt == 0 && t.dies[d].blocks[b].currentPage == pages)
  {
    assert BlockOk(t, pages, d, b);
  }

  lemma BelowNext(l2v: map<nat, Vsa>, d: nat, n: nat)
    ensures |Below(l2v, d, n + 1)| == |Below(l2v, d, n)| + |Residents(l2v, d, n)|
  {
    assert Below(l2v, d, n + 1) == Below(l2v, d, n) + Residents(l2v, d, n);
    assert Below(l2v, d, n) !! Residents(l2v, d, n);
  }

  lemma InUseNext(v: D.DieView, n: nat)
    requires n < |v.blocks|
    ensures |InUse(v, n + 1)| == |InUse(v, n)| + (if v.blocks[n].free then 0 else 1)
  {
    assert InUse(v, n + 1) == InUse(v, n) + (if v.blocks[n].free then {} else {n});
  }

  /** Valid slices fill the blocks in use at most, and completely only if every one is full. */
  lemma {:induction false} Counted(t: Tables, d: nat, n: nat, pages: nat)
    requires Inv(t, pages) && d < |t.dies| && t.dies[d].hand == None && n <= |t.dies[d].blocks|
    ensures |Below(t.l2v, d, n)| <= |InUse(t.dies[d], n)| * pages
    ensures |Below(t.l2v, d, n)| == |InUse(t.dies[d], n)| * pages <==>
            forall b :: 0 <= b < n && !t.dies[d].blocks[b].free ==> FullBlock(t, d, b, pages)
  {
    hide Inv, FullBlock;
    if n == 0 {
      assert Below(t.l2v, d, 0) == {} && InUse(t.dies[d], 0) == {};
    } else {
      Counted(t, d, n - 1, pages);
      BelowNext(t.l2v, d, n - 1);
      InUseNext(t.dies[d], n - 1);
      AtMostFull(t, d, n - 1, pages);
      Times(|InUse(t.dies[d], n - 1)|, pages);
      IsFull(t, d, n - 1, pages);
    }
  }

  lemma IsFull(t: Tables, d: nat, b: nat, pages: nat)
    ensures FullBlock(t, d, b, pages) <==> |Residents(t.l2v, d, b)| == pages
  {
  }

  lemma Times(n: nat, pages: nat)
    ensures (n + 1) * pages == n * pages + pages
  {
  }

  /** Good blocks are in use or on the free list. */
  lemma GoodBlocks(v: D.DieView, pages: nat)
    requires Listed(v, pages) && forall b :: 0 <= b < |v.blocks| && !v.blocks[b].free ==> !v.blocks[b].bad
    ensures |Good(v)| == |InUse(v, |v.blocks|)| + |v.free|
  {
    MembersCount(v.free);
    var used := InUse(v, |v.blocks|);
    assert Good(v) == used + Members(v.free);
    assert used !! Members(v.free);
  }

  lemma NoneInvalid(v: D.DieView, pages: nat)
    requires Listed(v, pages) && forall b :: 0 <= b < |v.blocks| && !v.blocks[b].free ==> !v.blocks[b].bad
    ensures NoInvalidSlice(v) <==> forall b :: 0 <= b < |v.blocks| && !v.blocks[b].free ==>
            v.blocks[b].invalidSliceCnt == 0
  {
    if k :| 0 < k < |v.victims| && v.victims[k] != [] {
      var b := v.victims[k][0];
      assert b in v.victims[k];
      assert b < |v.blocks| && v.blocks[b].invalidSliceCnt == k;
    }
    forall b: nat | 0 <= b < |v.blocks| && !v.blocks[b].free && v.blocks[b].invalidSliceCnt != 0
      ensures !NoInvalidSlice(v)
    {
      assert b in v.victims[v.blocks[b].invalidSliceCnt];
    }
  }

  /** The blocks in use are all full of valid slices exactly when the current one is used up and none
      has an invalid slice. */
  lemma AllFull(t: Tables, d: nat, pages: nat)
    requires Inv(t, pages) && d < |t.dies| && t.dies[d].hand == None && Listed(t.dies[d], pages)
    ensures var v := t.dies[d]; v.current < |v.blocks| && |v.free| >= 1
    ensures var v := t.dies[d];
            (forall b :: 0 <= b < |v.blocks| && !v.blocks[b].free ==> FullBlock(t, d, b, pages)) <==>
            NoInvalidSlice(v) && v.blocks[v.current].currentPage >= pages
    ensures forall b :: 0 <= b < |t.dies[d].blocks| && !t.dies[d].blocks[b].free ==> !t.dies[d].blocks[b].bad
  {
    var v := t.dies[d];
    assert DieOk(v, pages);
    forall b | 0 <= b < |v.blocks| && !v.blocks[b].free
      ensures !v.blocks[b].bad && v.blocks[b].currentPage <= pages
      ensures (b != v.current ==> v.blocks[b].currentPage == pages)
      ensures FullBlock(t, d, b, pages) <==> v.blocks[b].invalidSliceCnt == 0 && v.blocks[b].currentPage == pages
    {
      assert BlockOk(t, pages, d, b);
    }
    assert BlockOk(t, pages, d, v.current);
    hide Inv, FullBlock, Listed;
    NoneInvalid(v, pages);
  }

  lemma Product(count: nat, used: nat, free: nat, pages: nat)
    requires count <= used * pages && 1 <= free && 0 < pages
    ensures count <= (used + free - 1) * pages
    ensures count == (used + free - 1) * pages <==> count == used * pages && free == 1
  {
    assert (used + free - 1) * pages == used * pages + (free - 1) * pages;
    assert free > 1 ==> (free - 1) * pages >= pages;
  }

  /** A die never holds more valid slices than its good blocks but one have pages. The allocation stops at
      the assertion exactly when it holds as many. */
  lemma RunsOutExactly(t: Tables, d: nat, pages: nat)
    requires Inv(t, pages) && 0 < pages && d < |t.dies| && t.dies[d].hand == None && Listed(t.dies[d], pages)
    ensures t.dies[d].current < |t.dies[d].blocks| && |Good(t.dies[d])| >= 1
    ensures |OnDie(t.l2v, d)| <= (|Good(t.dies[d])| - 1) * pages
    ensures RunsOut(t.dies[d], pages) <==> |OnDie(t.l2v, d)| == (|Good(t.dies[d])| - 1) * pages
  {
    var v := t.dies[d];
    var n := |v.blocks|;
    assert OnDie(t.l2v, d) == Below(t.l2v, d, n) by {
      forall l | l in t.l2v ensures Located(t, l) {
      }
    }
    hide Inv, Listed, NoInvalidSlice, FullBlock;
    AllFull(t, d, pages);
    GoodBlocks(v, pages);
    Counted(t, d, n, pages);
    Product(|OnDie(t.l2v, d)|, |InUse(v, n)|, |v.free|, pages);
  }

  lemma OneLess(l2v: map<nat, Vsa>, d: nat, l: nat)
    requires l in l2v
    ensures |OnDie(l2v - {l}, d)| == |OnDie(l2v, d)| - (if l2v[l].die == d then 1 else 0)
  {
    assert OnDie(l2v - {l}, d) == if l2v[l].die == d then OnDie(l2v, d) - {l} else OnDie(l2v, d);
    assert l in OnDie(l2v, d) <==> l2v[l].die == d;
  }

  /** Writing a slice stops at the assertion exactly when the other slices fill the die whose turn it is. */
  lemma StopsExactly<T>(f: Ftl<T>, l: nat)
    requires f.Valid()
    ensures var d := f.sliceAllocationTargetDie;
            RunsOut(f.Awaiting(l), f.pages) <==> |OnDie(f.l2v - {l}, d)| == (|Good(f.arr.views[d])| - 1) * f.pages
  {
    var t, d := f.T(), f.sliceAllocationTargetDie;
    f.arr.Lists(d);
    f.arr.Shape(d);
    hide DieArray.Valid, CellsMatch, Listed, Good;
    RunsOutExactly(t, d, f.pages);
    if l in f.l2v {
      OneLess(f.l2v, d, l);
      CanUnmap(t, f.pages, l);
      if f.l2v[l].die == d {
        NotEmpty(t.dies[d], f.l2v[l].block);
      }
    } else {
      assert f.l2v - {l} == f.l2v;
    }
  }

  lemma NotEmpty(v: D.DieView, b: nat)
    requires b < |v.blocks| && v.blocks[b].invalidSliceCnt + 1 < |v.victims|
    ensures !NoInvalidSlice(D.Invalidated(v, b))
  {
    assert D.Invalidated(v, b).victims[v.blocks[b].invalidSliceCnt + 1] != [];
  }

  /** A device with fewer mapped slices than each die can hold alone never stops at the assertion. */
  lemma NeverStops<T>(f: Ftl<T>, l: nat)
    requires f.Valid()
    requires forall d :: 0 <= d < |f.arr.views| ==> |f.l2v| < (|Good(f.arr.views[d])| - 1) * f.pages
    ensures !RunsOut(f.Awaiting(l), f.pages)
  {
    var d := f.sliceAllocationTargetDie;
    assert d < |f.arr.views|;
    hide DieArray.Valid, CellsMatch, Inv, Good;
    StopsExactly(f, l);
    Within(OnDie(f.l2v - {l}, d), f.l2v.Keys);
  }

  lemma {:induction false} DropKeeps(s: seq<nat>, x: nat)
    ensures forall y :: y in Drop(s, x) ==> y in s
  {
    if s != [] && s[0] != x {
      DropKeeps(s[1..], x);
    }
  }

  lemma FirstNotCurrent(t: Tables, d: nat, l: nat, m: nat, pages: nat)
    requires Inv(t, pages) && 0 < pages && d < |t.dies| && t.dies[d].hand == None && Listed(t.dies[d], pages)
    requires m in t.l2v && m != l && t.l2v[m].die == d && t.l2v[m].block == t.dies[d].current
    ensures t.dies[d].current < |t.dies[d].blocks| && !PicksCurrent(t.dies[d])
    ensures l in t.l2v && t.l2v[l].die == d ==>
              var v, b := t.dies[d], t.l2v[l].block;
              b < |v.blocks| && (v.blocks[b].invalidSliceCnt + 1 < |v.victims| ==> !PicksCurrent(D.Invalidated(v, b)))
  {
    var v := t.dies[d];
    assert DieOk(v, pages) && Located(t, m) && BlockOk(t, pages, d, v.current);
    var here := Residents(t.l2v, d, v.current);
    assert m in here;
    assert v.current !in v.victims[pages];
    if l in t.l2v && t.l2v[l].die == d {
      assert Located(t, l);
      var b := t.l2v[l].block;
      if b == v.current {
        assert l in here;
        Within({l, m}, here);
      }
      DropKeeps(v.victims[pages], b);
    }
  }

  /** While the current block of the die in turn holds a valid slice other than the one being written, the
      collection does not pick it, and the write fails only at the assertion. */
  lemma FailsOnlyFull<T>(f: Ftl<T>, l: nat, m: nat)
    requires f.Valid() && m in f.l2v && m != l
    requires var d := f.sliceAllocationTargetDie; f.l2v[m].die == d && f.l2v[m].block == f.arr.views[d].current
    ensures Fits(f.Awaiting(l), f.pages) <==> !RunsOut(f.Awaiting(l), f.pages)
  {
    var t, d := f.T(), f.sliceAllocationTargetDie;
    f.arr.Lists(d);
    f.arr.Shape(d);
    hide DieArray.Valid, CellsMatch, Listed, PicksCurrent, NoInvalidSlice;
    FirstNotCurrent(t, d, l, m, f.pages);
    if l in f.l2v {
      CanUnmap(t, f.pages, l);
    }
  }

  /** A blank die has room, before any collection, for as many slices as its good blocks but one have pages. */
  lemma FreshRoom(v: D.DieView, pages: nat)
    requires Blank(v, pages) && Listed(v, pages)
    ensures |Good(v)| >= 2 && Left(v, pages) == (|Good(v)| - 1) * pages
  {
    assert forall b :: 0 <= b < |v.blocks| && !v.blocks[b].free ==> b == v.current;
    GoodBlocks(v, pages);
    assert InUse(v, |v.blocks|) == {v.current};
    var f := |v.free|;
    assert f * pages == (f - 1) * pages + pages;
  }

  // ---- one die of two blocks with one page each ----

  /** Such a device with nothing but slice 0 on it. */
  ghost predicate Tiny<T>(f: Ftl<T>)
    reads f.Repr()
  {
    f.Valid() && f.pages == 1 && |f.arr.views| == |f.arr.dies| == 1 && f.arr.dies[0].blocks.Length == 2 &&
      f.l2v.Keys == {0}
  }

  lemma TinyTables(t: Tables)
    requires Inv(t, 1) && |t.dies| == 1 && t.dies[0].hand == None && Listed(t.dies[0], 1)
    requires |t.dies[0].blocks| == 2 && t.l2v.Keys == {0}
    ensures var v := t.dies[0];
            && v.current < 2 && |v.victims| == 2 && v.victims[1] == [] && |v.free| == 1
            && v.blocks[v.current].currentPage == 1 && v.blocks[v.current].invalidSliceCnt == 0
            && t.l2v[0].die == 0 && t.l2v[0].block == v.current
  {
    var v := t.dies[0];
    assert Located(t, 0) && DieOk(v, 1);
    assert BlockOk(t, 1, 0, 0) && BlockOk(t, 1, 0, 1) && BlockOk(t, 1, 0, v.current);
    hide Inv;
    GoodBlocks(v, 1);
    Within(Good(v), Upto(2));
    RunsOutExactly(t, 0, 1);
  }

  lemma TinyDie<T>(f: Ftl<T>)
    requires Tiny(f)
    ensures var v := f.arr.views[0];
            && |v.blocks| == 2 && v.current < 2 && |v.victims| == 2 && v.victims[1] == [] && |v.free| == 1
            && v.blocks[v.current].currentPage == 1 && v.blocks[v.current].invalidSliceCnt == 0
            && f.sliceAllocationTargetDie == 0 && f.l2v[0].die == 0 && f.l2v[0].block == v.current
  {
    hide DieArray.Valid, CellsMatch, Inv, Listed, Shadow.Journaled;
    f.arr.Lists(0);
    TinyTables(f.T());
  }

  lemma FirstFits<T>(f: Ftl<T>, l: nat)
    requires f.Valid() && f.cells == map[] && f.l2v == map[] && 0 < f.pages
    ensures Fits(f.Awaiting(l), f.pages)
  {
    var v := f.arr.views[f.sliceAllocationTargetDie];
    assert !Programmed(f.arr.views, Vsa(f.sliceAllocationTargetDie, v.current, 0));
  }

  lemma DieCount<T>(f: Ftl<T>)
    requires f.Valid()
    ensures |f.arr.views| == |f.arr.dies|
  {
  }

  lemma TinyRewrite<T>(f: Ftl<T>)
    requires Tiny(f)
    ensures !Fits(f.Awaiting(0), 1) && !RunsOut(f.Awaiting(0), 1)
  {
    hide DieArray.Valid, CellsMatch, Inv, Shadow.Journaled;
    TinyDie(f);
    var v, w := f.arr.views[0], f.Awaiting(0);
    assert w == D.Invalidated(v, v.current);
    assert w.victims[1] == [v.current];
  }

  lemma TinyMore<T>(f: Ftl<T>)
    requires Tiny(f)
    ensures RunsOut(f.Awaiting(1), 1)
  {
    hide DieArray.Valid, CellsMatch, Inv, Shadow.Journaled;
    TinyDie(f);
  }

  /** It holds one slice once slice 0 is written. */
  method WriteFirst(ghost start: S.Mem<bool>) returns (f: Ftl<bool>, r: Report)
    requires S.Total(start) && start.bufs[1]
    ensures r.Kept? && Tiny(f) && fresh(f.Repr())
    ensures S.Total(f.journal.mem) && f.journal.mem.bufs[1] && Sourced(f.journal.log, 1)
  {
    hide DieArray.Valid, CellsMatch, Inv, Slot, Shadow.Journaled;
    assert TwoGood([false, false]) by {
      assert ![false, false][0] && ![false, false][1];
    }
    f := new Ftl(1, 1, 1, [[false, false]], start, true);
    f.HostDma(1, Shadow.Same());
    FirstFits(f, 0);
    ghost var l2v, log := f.l2v, f.journal.log;
    r := f.WriteSlice(0, true, 1);
    StillSourced(log, f.journal.log, 1);
    DieCount(f);
    assert l2v - {0} == map[];
    assert f.l2v.Keys == {0} by {
      assert (f.l2v - {0}).Keys == {};
      assert f.l2v.Keys == (f.l2v - {0}).Keys + {0};
    }
  }

  /** A second slice finds nothing to collect. */
  method RunningOutHappens(ghost start: S.Mem<bool>) returns (first: Report, second: Report)
    requires S.Total(start) && start.bufs[1]
    ensures first.Kept? && second.NoVictim?
  {
    hide DieArray.Valid, CellsMatch, Inv, Slot, Shadow.Journaled;
    var f;
    f, first := WriteFirst(start);
    TinyMore(f);
    second := f.WriteSlice(1, true, 1);
  }

  /** Writing the slice again collects the current block, which is put on the free list in use. */
  method StrayHappens(ghost start: S.Mem<bool>) returns (first: Report, second: Report)
    requires S.Total(start) && start.bufs[1]
    ensures first.Kept? && second.Stray?
  {
    hide DieArray.Valid, CellsMatch, Inv, Slot, Shadow.Journaled;
    var f;
    f, first := WriteFirst(start);
    TinyRewrite(f);
    second := f.WriteSlice(0, true, 1);
  }
}
