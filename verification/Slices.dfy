/** Splitting an NVMe command into slice requests. */
module Slices {
  const NVME_BLOCKS_PER_SLICE: nat := 4

  /** A run of blocks inside one logical slice; startIndex counts the blocks of the command before it. */
  datatype Part = Part(lsa: nat, startIndex: nat, offset: nat, count: nat)

  function Lba(l: nat, o: nat): (lba: nat) {
    NVME_BLOCKS_PER_SLICE * l + o
  }

  predicate Fits(p: Part) {
    0 < p.count && p.offset + p.count <= NVME_BLOCKS_PER_SLICE
  }

  /** Where the part after part j starts. */
  function After(parts: seq<Part>, j: nat, n: nat): (next: nat)
    requires j < |parts|
  {
    if j + 1 < |parts| then parts[j + 1].startIndex else n
  }

  /** The parts stand for n blocks from lba on: non-empty pieces of consecutive slices, end to end. */
  ghost predicate Tiles(parts: seq<Part>, lba: nat, n: nat) {
    && (if parts == [] then n == 0 else parts[0].startIndex == 0)
    && (forall j :: 0 <= j < |parts| ==> Fits(parts[j]) && parts[j].lsa == parts[0].lsa + j)
    && (forall j :: 0 <= j < |parts| ==> Lba(parts[j].lsa, parts[j].offset) == lba + parts[j].startIndex)
    && (forall j :: 0 <= j < |parts| ==> parts[j].startIndex + parts[j].count == After(parts, j, n))
  }

  ghost predicate Holds(p: Part, i: nat) {
    p.startIndex <= i < p.startIndex + p.count
  }

  lemma TilesAppend(parts: seq<Part>, lba: nat, n: nat, p: Part)
    requires Tiles(parts, lba, n) && Fits(p) && p.startIndex == n && Lba(p.lsa, p.offset) == lba + n
    requires parts != [] ==> p.lsa == parts[0].lsa + |parts|
    ensures Tiles(parts + [p], lba, n + p.count)
  {
    var all := parts + [p];
    forall j | 0 <= j < |all| ensures all[j].startIndex + all[j].count == After(all, j, n + p.count) {
      if j < |parts| {
        assert parts[j].startIndex + parts[j].count == After(parts, j, n);
      }
    }
  }

  /** Everything before part j comes before it in the command too. */
  lemma {:induction false} Ordered(parts: seq<Part>, lba: nat, n: nat, j: nat, k: nat)
    requires Tiles(parts, lba, n) && j < k < |parts|
    ensures parts[j].startIndex + parts[j].count <= parts[k].startIndex
    ensures parts[k].startIndex + parts[k].count <= n
    decreases |parts| - j
  {
    assert parts[j].startIndex + parts[j].count == After(parts, j, n);
    if j + 1 < k {
      Ordered(parts, lba, n, j + 1, k);
    } else {
      Ends(parts, lba, n, k);
    }
  }

  lemma {:induction false} Ends(parts: seq<Part>, lba: nat, n: nat, k: nat)
    requires Tiles(parts, lba, n) && k < |parts|
    ensures parts[k].startIndex + parts[k].count <= n
    decreases |parts| - k
  {
    assert parts[k].startIndex + parts[k].count == After(parts, k, n);
    if k + 1 < |parts| {
      Ends(parts, lba, n, k + 1);
    }
  }

  lemma {:induction false} Reaches(parts: seq<Part>, lba: nat, n: nat, k: nat, i: nat)
    requires Tiles(parts, lba, n) && k < |parts| && parts[k].startIndex <= i < n
    ensures exists j :: k <= j < |parts| && Holds(parts[j], i)
    decreases |parts| - k
  {
    assert parts[k].startIndex + parts[k].count == After(parts, k, n);
    if !Holds(parts[k], i) {
      Reaches(parts, lba, n, k + 1, i);
    }
  }

  /** Every block of the command is in exactly one part, at its own place in that part's slice. */
  lemma EachBlockOnce(parts: seq<Part>, lba: nat, n: nat, i: nat)
    requires Tiles(parts, lba, n) && i < n
    ensures exists j :: 0 <= j < |parts| && Holds(parts[j], i)
    ensures forall j, k :: 0 <= j < k < |parts| ==> !(Holds(parts[j], i) && Holds(parts[k], i))
    ensures forall j :: 0 <= j < |parts| && Holds(parts[j], i) ==>
              Lba(parts[j].lsa, parts[j].offset + (i - parts[j].startIndex)) == lba + i
  {
    Reaches(parts, lba, n, 0, i);
    forall j, k | 0 <= j < k < |parts| ensures !(Holds(parts[j], i) && Holds(parts[k], i)) {
      Ordered(parts, lba, n, j, k);
    }
  }

  /** How many slices n blocks from lba on touch. */
  function Touched(lba: nat, n: nat): (count: nat)
    requires 0 < n
  {
    (lba + n - 1) / NVME_BLOCKS_PER_SLICE - lba / NVME_BLOCKS_PER_SLICE + 1
  }

  /** There is one part for every slice touched. */
  lemma OnePartPerSlice(parts: seq<Part>, lba: nat, n: nat)
    requires Tiles(parts, lba, n) && 0 < n
    ensures |parts| == Touched(lba, n)
  {
    var first, last := parts[0], parts[|parts| - 1];
    assert last.startIndex + last.count == After(parts, |parts| - 1, n);
    assert Lba(first.lsa, first.offset) == lba && Lba(last.lsa, last.offset) == lba + last.startIndex;
    assert Fits(first) && Fits(last) && last.lsa == first.lsa + |parts| - 1;
    hide Tiles;
    SliceOf(first.lsa, first.offset);
    SliceOf(last.lsa, last.offset + last.count - 1);
  }

  lemma SliceOf(l: nat, o: nat)
    requires o < NVME_BLOCKS_PER_SLICE
    ensures Lba(l, o) / NVME_BLOCKS_PER_SLICE == l
  {
  }

  lemma TilesOne(p: Part, lba: nat)
    requires Fits(p) && p.startIndex == 0 && Lba(p.lsa, p.offset) == lba
    ensures Tiles([p], lba, p.count)
  {
  }

  /** The remainders and quotients the splitting works with. The 32-bit sum may wrap around,
      which does not change its remainder because a slice divides the range evenly. */
  lemma Remainders(startLba: nat, requested: nat)
    ensures var offset, loop := startLba % NVME_BLOCKS_PER_SLICE,
            (startLba % NVME_BLOCKS_PER_SLICE + requested) / NVME_BLOCKS_PER_SLICE;
            && startLba == Lba(startLba / NVME_BLOCKS_PER_SLICE, offset) && offset < NVME_BLOCKS_PER_SLICE
            && (startLba + requested) % 0x1_0000_0000 % NVME_BLOCKS_PER_SLICE ==
               offset + requested - NVME_BLOCKS_PER_SLICE * loop
            && 0 <= offset + requested - NVME_BLOCKS_PER_SLICE * loop < NVME_BLOCKS_PER_SLICE
  {
  }

  /** The slice requests of a command for nlb + 1 blocks (nlb is 0's based). Addresses are
      32-bit and the three counts of a request are 16-bit fields. */
  method ReqTransNvmeToSlice(startLba: nat, nlb: nat) returns (parts: seq<Part>)
    requires startLba < 0x1_0000_0000 && nlb < 0x1_0000
    ensures Tiles(parts, startLba, nlb + 1)
    ensures parts != [] && parts[0].lsa == startLba / NVME_BLOCKS_PER_SLICE
  {
    hide Tiles;
    var requested := nlb + 1;
    var lsa := startLba / NVME_BLOCKS_PER_SLICE;
    var loop := (startLba % NVME_BLOCKS_PER_SLICE + requested) / NVME_BLOCKS_PER_SLICE;
    var offset := startLba % NVME_BLOCKS_PER_SLICE;
    Remainders(startLba, requested);
    var count: nat := if loop != 0 then NVME_BLOCKS_PER_SLICE - offset else requested;
    parts := [Field(lsa, 0, offset, count)];
    TilesOne(parts[0], startLba);
    ghost var lsa0 := lsa;
    lsa := lsa + 1;
    var trans, index: nat := 1, count;
    while trans < loop
      invariant 1 <= trans == |parts| && (loop == 0 || trans <= loop)
      invariant lsa == lsa0 + trans && Tiles(parts, startLba, index) && parts[0].lsa == lsa0
      invariant if loop == 0 then index == requested else index + offset == NVME_BLOCKS_PER_SLICE * trans
    {
      var p := Field(lsa, index, 0, NVME_BLOCKS_PER_SLICE);
      TilesAppend(parts, startLba, index, p);
      parts := parts + [p];
      lsa := lsa + 1;
      trans := trans + 1;
      index := index + NVME_BLOCKS_PER_SLICE;
    }
    count := (startLba + requested) % 0x1_0000_0000 % NVME_BLOCKS_PER_SLICE;
    if count == 0 || loop == 0 {
      return;
    }
    var p := Field(lsa, index, 0, count);
    TilesAppend(parts, startLba, index, p);
    parts := parts + [p];
  }

  /** A request as its 16-bit fields store it. */
  function Field(lsa: nat, startIndex: nat, offset: nat, count: nat): (p: Part)
    ensures startIndex < 0x1_0000 && offset < 0x1_0000 && count < 0x1_0000 ==> p == Part(lsa, startIndex, offset, count)
  {
    Part(lsa, startIndex % 0x1_0000, offset % 0x1_0000, count % 0x1_0000)
  }
}
