/** Address arithmetic: virtual slice addresses, channels and ways, physical blocks and rows. */
module Address {
  import opened Tables
  import opened Remap
  import F = Ftl

  const PAGES_PER_MLC_BLOCK: nat := 256
  const PAGES_PER_SLC_BLOCK: nat := 128
  const LUN_1_BASE_ADDR: nat := 0x200000

  lemma DivMod(n: nat, q: nat, r: nat)
    requires r < n
    ensures (r + n * q) / n == q && (r + n * q) % n == r
  {
    var x := r + n * q;
    var d := q - x / n;
    assert n * d == x % n - r by {
      assert x == n * (x / n) + x % n;
      assert n * d == n * q - n * (x / n);
    }
    Bounded(n, d);
  }

  lemma Bounded(n: nat, d: int)
    ensures d >= 1 ==> n * d >= n
    ensures d <= -1 ==> n * d <= 0 - n
  {
  }

  /** The integer a virtual slice address is stored as, and back. */
  function Vorg2Vsa(v: Vsa, dies: nat, slices: nat): (a: nat) {
    v.die + dies * (v.block * slices + v.page)
  }

  function Vsa2Vorg(a: nat, dies: nat, slices: nat): (v: Vsa)
    requires 0 < dies && 0 < slices
  {
    Vsa(a % dies, a / dies / slices, a / dies % slices)
  }

  /** Triples and integers stand for each other one to one. */
  lemma VsaRoundTrip(v: Vsa, dies: nat, slices: nat)
    requires v.die < dies && v.page < slices
    ensures Vsa2Vorg(Vorg2Vsa(v, dies, slices), dies, slices) == v
  {
    DivMod(dies, v.block * slices + v.page, v.die);
    DivMod(slices, v.block, v.page);
    assert v.block * slices == slices * v.block;
  }

  lemma VorgRoundTrip(a: nat, dies: nat, slices: nat)
    requires 0 < dies && 0 < slices
    ensures Vorg2Vsa(Vsa2Vorg(a, dies, slices), dies, slices) == a
    ensures Vsa2Vorg(a, dies, slices).die < dies && Vsa2Vorg(a, dies, slices).page < slices
  {
    var s := a / dies;
    assert s == slices * (s / slices) + s % slices;
    assert (s / slices) * slices == slices * (s / slices);
    assert a == dies * s + a % dies;
  }

  /** Addresses go over all dies first, then over the pages of a block, then over the blocks. */
  lemma VsaOrder(v: Vsa, dies: nat, slices: nat)
    requires v.die < dies && v.page < slices
    ensures Vorg2Vsa(Vsa(0, 0, 0), dies, slices) == 0
    ensures v.die > 0 ==> Vorg2Vsa(v, dies, slices) == Vorg2Vsa(v.(die := v.die - 1), dies, slices) + 1
    ensures v.page > 0 ==> Vorg2Vsa(v, dies, slices) == Vorg2Vsa(v.(page := v.page - 1), dies, slices) + dies
    ensures v.block > 0 ==>
              Vorg2Vsa(v, dies, slices) == Vorg2Vsa(v.(block := v.block - 1), dies, slices) + dies * slices
  {
    if v.page > 0 {
      assert dies * (v.block * slices + v.page) == dies * (v.block * slices + (v.page - 1)) + dies;
    }
    if v.block > 0 {
      assert v.block * slices == (v.block - 1) * slices + slices;
      assert dies * (v.block * slices + v.page) == dies * ((v.block - 1) * slices + v.page) + dies * slices;
    }
  }

  function Vdie2Pch(die: nat, channels: nat): (ch: nat)
    requires 0 < channels
  {
    die % channels
  }

  function Vdie2Pway(die: nat, channels: nat): (way: nat)
    requires 0 < channels
  {
    die / channels
  }

  /** A die is its channel and way. */
  lemma DieRoundTrip(die: nat, channels: nat)
    requires 0 < channels
    ensures F.Slot(Vdie2Pch(die, channels), Vdie2Pway(die, channels), channels) == die
  {
    assert die == channels * (die / channels) + die % channels;
    assert (die / channels) * channels == channels * (die / channels);
  }

  lemma ChannelWayRoundTrip(ch: nat, way: nat, channels: nat)
    requires ch < channels
    ensures Vdie2Pch(F.Slot(ch, way, channels), channels) == ch && Vdie2Pway(F.Slot(ch, way, channels), channels) == way
  {
    DivMod(channels, way, ch);
    assert way * channels == channels * way;
  }

  /** The physical block a virtual block stands for before remapping. */
  function Vblock2Pblock(b: nat, user: nat): (p: nat)
    requires 0 < user
  {
    (b / user) * TOTAL_BLOCKS_PER_LUN + b % user
  }

  function Base(b: nat, user: nat): (base: nat) {
    if b < user then 0 else TOTAL_BLOCKS_PER_LUN
  }

  lemma Pblock(b: nat, user: nat)
    requires b < 2 * user
    ensures Vblock2Pblock(b, user) == Base(b, user) + (if b < user then b else b - user)
  {
    if b < user {
      DivMod(user, 0, b);
    } else {
      DivMod(user, 1, b - user);
    }
  }

  function Vpage2PlsbPage(page: nat): (p: nat) {
    if page > 0 then 2 * page - 1 else 0
  }

  function PlsbPage2Vpage(p: nat): (page: nat) {
    if p > 0 then (p + 1) / 2 else 0
  }

  lemma LsbRoundTrip(page: nat)
    ensures PlsbPage2Vpage(Vpage2PlsbPage(page)) == page
    ensures page < PAGES_PER_SLC_BLOCK ==> Vpage2PlsbPage(page) < PAGES_PER_MLC_BLOCK
  {
  }

  /** The pages of an MLC block that are programmed in SLC mode: the first, and the odd ones. */
  predicate Lsb(p: nat) {
    p == 0 || p % 2 == 1
  }

  /** The other way round: every such page is the place of one virtual page, and no other page is. */
  lemma PlsbRoundTrip(p: nat)
    ensures Vpage2PlsbPage(PlsbPage2Vpage(p)) == p <==> Lsb(p)
    ensures forall page :: Lsb(Vpage2PlsbPage(page))
  {
    if p > 0 && p % 2 == 1 {
      assert p == 2 * (p / 2) + 1;
    }
  }

  /** The row of a page of a virtual block, through the remapping table of its die. */
  function RowAddr(remapped: seq<nat>, user: nat, b: nat, page: nat): (row: nat)
    requires 0 < user && Vblock2Pblock(b, user) < |remapped|
  {
    var phy := Vblock2Pblock(b, user);
    (if phy / TOTAL_BLOCKS_PER_LUN == 0 then 0 else LUN_1_BASE_ADDR) +
    remapped[phy] % TOTAL_BLOCKS_PER_LUN * PAGES_PER_MLC_BLOCK + Vpage2PlsbPage(page)
  }

  /** The physical block recorded as grown bad when an operation on a row fails. */
  function GrownBadBlock(row: nat): (p: nat) {
    row % LUN_1_BASE_ADDR / PAGES_PER_MLC_BLOCK + row / LUN_1_BASE_ADDR * TOTAL_BLOCKS_PER_LUN
  }

  /** What the remapping makes of a virtual block. */
  lemma RemappedBlock(bad: seq<bool>, user: nat, remapped: seq<nat>, b: nat)
    requires |bad| == |remapped| == TOTAL_BLOCKS_PER_DIE && 0 < user <= TOTAL_BLOCKS_PER_LUN
    requires Done(bad, user, user, user, remapped)
    requires b < 2 * user
    ensures var phy, base := Vblock2Pblock(b, user), Base(b, user);
            && base <= phy < base + user
            && remapped[phy] == Replacement(bad, user, base, phy)
            && base <= remapped[phy] < base + TOTAL_BLOCKS_PER_LUN
            && (bad[remapped[phy]] <==>
                  bad[phy] && |Marked(bad, true, base, phy)| >= |Marked(bad, false, base + user,
                    base + TOTAL_BLOCKS_PER_LUN)|)
  {
    Pblock(b, user);
    ReplacementGood(bad, user, Base(b, user), Vblock2Pblock(b, user));
  }

  /** The parts of a row can be read back. */
  lemma RowParts(lun: nat, block: nat, page: nat)
    requires lun < 2 && block < TOTAL_BLOCKS_PER_LUN && page < PAGES_PER_MLC_BLOCK
    ensures var row := lun * LUN_1_BASE_ADDR + block * PAGES_PER_MLC_BLOCK + page;
            && row / LUN_1_BASE_ADDR == lun && row % LUN_1_BASE_ADDR / PAGES_PER_MLC_BLOCK == block &&
              row % PAGES_PER_MLC_BLOCK == page
            && GrownBadBlock(row) == block + lun * TOTAL_BLOCKS_PER_LUN
  {
  }

  /** A row is read off as the LUN of the virtual block, the block of that LUN it is remapped to, and an LSB
      page: the first for page 0, an odd one for every other, further on by two for the next page. */
  lemma RowExact(bad: seq<bool>, user: nat, remapped: seq<nat>, b: nat, page: nat)
    requires |bad| == |remapped| == TOTAL_BLOCKS_PER_DIE && 0 < user <= TOTAL_BLOCKS_PER_LUN
    requires Done(bad, user, user, user, remapped)
    requires b < 2 * user && page < PAGES_PER_SLC_BLOCK
    ensures Vblock2Pblock(b, user) < |remapped|
    ensures var row, phy := RowAddr(remapped, user, b, page), remapped[Vblock2Pblock(b, user)];
            && row / LUN_1_BASE_ADDR == (if b < user then 0 else 1)
            && row % LUN_1_BASE_ADDR / PAGES_PER_MLC_BLOCK == (if b < user then phy else phy - TOTAL_BLOCKS_PER_LUN)
            && (if page == 0 then row % PAGES_PER_MLC_BLOCK == 0 else row % PAGES_PER_MLC_BLOCK % 2 == 1)
            && (0 < page ==> row - RowAddr(remapped, user, b, page - 1) == if page == 1 then 1 else 2)
  {
    RemappedBlock(bad, user, remapped, b);
    LsbRoundTrip(page);
    PlsbRoundTrip(page);
    Pblock(b, user);
    var phy := Vblock2Pblock(b, user);
    RowParts(phy / TOTAL_BLOCKS_PER_LUN, remapped[phy] % TOTAL_BLOCKS_PER_LUN, Vpage2PlsbPage(page));
  }

  /** The grown-bad formula gives back the physical block that was really used. */
  lemma GrownBadExact(bad: seq<bool>, user: nat, remapped: seq<nat>, b: nat, page: nat)
    requires |bad| == |remapped| == TOTAL_BLOCKS_PER_DIE && 0 < user <= TOTAL_BLOCKS_PER_LUN
    requires Done(bad, user, user, user, remapped)
    requires b < 2 * user && page < PAGES_PER_SLC_BLOCK
    ensures Vblock2Pblock(b, user) < |remapped|
    ensures GrownBadBlock(RowAddr(remapped, user, b, page)) == remapped[Vblock2Pblock(b, user)]
    ensures PlsbPage2Vpage(RowAddr(remapped, user, b, page) % PAGES_PER_MLC_BLOCK) == page
  {
    RemappedBlock(bad, user, remapped, b);
    LsbRoundTrip(page);
    var phy := Vblock2Pblock(b, user);
    RowParts(phy / TOTAL_BLOCKS_PER_LUN, remapped[phy] % TOTAL_BLOCKS_PER_LUN, Vpage2PlsbPage(page));
  }

  /** Different pages of a die have different rows. */
  lemma RowInjective(bad: seq<bool>, user: nat, remapped: seq<nat>, b: nat, page: nat, c: nat, other: nat)
    requires |bad| == |remapped| == TOTAL_BLOCKS_PER_DIE && 0 < user <= TOTAL_BLOCKS_PER_LUN
    requires Done(bad, user, user, user, remapped)
    requires b < 2 * user && c < 2 * user && page < PAGES_PER_SLC_BLOCK && other < PAGES_PER_SLC_BLOCK
    requires Vblock2Pblock(b, user) < |remapped| && Vblock2Pblock(c, user) < |remapped|
    requires RowAddr(remapped, user, b, page) == RowAddr(remapped, user, c, other)
    ensures b == c && page == other
  {
    GrownBadExact(bad, user, remapped, b, page);
    GrownBadExact(bad, user, remapped, c, other);
    hide RowAddr;
    RemappedBlock(bad, user, remapped, b);
    RemappedBlock(bad, user, remapped, c);
    Pblock(b, user);
    Pblock(c, user);
    hide Vblock2Pblock, Replacement;
    var p, q := Vblock2Pblock(b, user), Vblock2Pblock(c, user);
    if p < q {
      ReplacementInjective(bad, user, Base(b, user), p, q);
    } else if q < p {
      ReplacementInjective(bad, user, Base(b, user), q, p);
    }
  }

  /** A virtual slice address names one place in the flash: its channel, way and row. */
  lemma FlashInjective(bad: seq<seq<bool>>, user: nat, remapped: seq<seq<nat>>, channels: nat, v: Vsa, w: Vsa)
    requires |bad| == |remapped| && 0 < channels && 0 < user <= TOTAL_BLOCKS_PER_LUN
    requires forall d :: 0 <= d < |bad| ==>
               |bad[d]| == |remapped[d]| == TOTAL_BLOCKS_PER_DIE && Done(bad[d], user, user, user, remapped[d])
    requires v.die < |bad| && v.block < 2 * user && v.page < PAGES_PER_SLC_BLOCK
    requires Vblock2Pblock(v.block, user) < TOTAL_BLOCKS_PER_DIE
    requires w.die < |bad| && w.block < 2 * user && w.page < PAGES_PER_SLC_BLOCK
    requires Vblock2Pblock(w.block, user) < TOTAL_BLOCKS_PER_DIE
    requires Vdie2Pch(v.die, channels) == Vdie2Pch(w.die, channels)
    requires Vdie2Pway(v.die, channels) == Vdie2Pway(w.die, channels)
    requires RowAddr(remapped[v.die], user, v.block, v.page) == RowAddr(remapped[w.die], user, w.block, w.page)
    ensures v == w
  {
    DieRoundTrip(v.die, channels);
    DieRoundTrip(w.die, channels);
    RowInjective(bad[v.die], user, remapped[v.die], v.block, v.page, w.block, w.page);
  }
}
