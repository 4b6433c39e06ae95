/** How many pages the dies can still hand out before any collection. */
module Room {
  import opened Basics
  import opened Die
  import opened Tables

  /** The pages of the current block and of the free blocks but the reserve that are not handed out. */
  ghost function Left(v: DieView, pages: nat): (n: int) {
    if v.current < |v.blocks|
    then pages - v.blocks[v.current].currentPage + (|v.free| - RESERVED_FREE_BLOCK_COUNT) * pages
    else 0
  }

  /** Every die has at least n pages left. */
  ghost predicate HasRoom(dies: seq<DieView>, pages: nat, n: nat) {
    forall d :: 0 <= d < |dies| ==> Left(dies[d], pages) >= n
  }

  /** No die has lost more than n pages. */
  ghost predicate Used(dies: seq<DieView>, dies': seq<DieView>, pages: nat, n: nat) {
    |dies| == |dies'| && forall d :: 0 <= d < |dies| ==> Left(dies'[d], pages) + n >= Left(dies[d], pages)
  }

  lemma UsedTwice(a: seq<DieView>, b: seq<DieView>, c: seq<DieView>, pages: nat, m: nat, n: nat)
    requires Used(a, b, pages, m) && Used(b, c, pages, n)
    ensures Used(a, c, pages, m + n)
  {
  }

  /** Opening a block moves its pages from the free blocks to the current one. */
  lemma LeftOpened(v: DieView, pages: nat)
    requires v.current < |v.blocks| && v.blocks[v.current].currentPage == pages
    requires v.free != [] && v.free[0] < |v.blocks| && v.blocks[v.free[0]].currentPage == 0
    ensures Left(Opened(v), pages) == Left(v, pages)
  {
    var f := |v.free| - 1;
    assert f * pages == (f - 1) * pages + pages;
  }

  lemma LeftAdvanced(v: DieView, pages: nat)
    requires v.current < |v.blocks|
    ensures Left(Advanced(v), pages) == Left(v, pages) - 1
  {
  }

  lemma LeftInvalidated(v: DieView, b: nat, pages: nat)
    requires b < |v.blocks| && v.blocks[b].invalidSliceCnt + 1 < |v.victims|
    ensures Left(Invalidated(v, b), pages) == Left(v, pages)
  {
  }

  /** A die that has its reserve and no overfull block has none but whole pages left. */
  lemma LeftBounds(v: DieView, pages: nat)
    requires v.current < |v.blocks| && |v.free| >= RESERVED_FREE_BLOCK_COUNT && v.blocks[v.current].currentPage <= pages
    ensures Left(v, pages) >= 0
    ensures Left(v, pages) == 0 || v.blocks[v.current].currentPage < pages || |v.free| > RESERVED_FREE_BLOCK_COUNT
  {
    assert (|v.free| - RESERVED_FREE_BLOCK_COUNT) * pages >= 0;
  }
}
