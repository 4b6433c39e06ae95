/** Slice requests served through the two buffers, the slice maps and the flash pages,
    one after another, against the flat array of NVMe blocks the host believes in. */
module Store {
  import opened Basics
  import opened Slices
  import opened Tables
  import opened Buffer
  import Links
  import Dies
  import D = Die
  import F = Ftl
  import opened Room
  import S = Serial
  import opened Journal
  import opened Shadow

  const MAIN: nat := 0
  const RBUF: nat := 1

  /** A slice request: some of the blocks of one logical slice. */
  datatype Request<+B> =
    | Read(lsa: nat, offset: nat, count: nat)
    | Write(lsa: nat, offset: nat, blocks: seq<B>)

  function Blocks<B>(r: Request<B>): (n: nat) {
    if r.Read? then r.count else |r.blocks|
  }

  predicate InSlice<B>(r: Request<B>) {
    0 < Blocks(r) && r.offset + Blocks(r) <= NVME_BLOCKS_PER_SLICE
  }

  /** The blocks of a slice with those of a write laid over them. */
  function Overlaid<B>(s: seq<B>, offset: nat, blocks: seq<B>): (r: seq<B>)
    requires offset + |blocks| <= |s|
  {
    s[..offset] + blocks + s[offset + |blocks|..]
  }

  /** The flat array after consecutive blocks from lba on have been written. */
  ghost function Laid<B>(flat: map<nat, B>, lba: nat, blocks: seq<B>): (f: map<nat, B>)
    decreases |blocks|
  {
    if blocks == [] then flat else Laid(flat[lba := blocks[0]], lba + 1, blocks[1..])
  }

  lemma {:induction false} LaidAt<B>(flat: map<nat, B>, lba: nat, blocks: seq<B>, i: nat)
    ensures i in Laid(flat, lba, blocks) <==> i in flat || lba <= i < lba + |blocks|
    ensures lba <= i < lba + |blocks| ==> Laid(flat, lba, blocks)[i] == blocks[i - lba]
    ensures i in flat && !(lba <= i < lba + |blocks|) ==> Laid(flat, lba, blocks)[i] == flat[i]
    decreases |blocks|
  {
    if blocks != [] {
      LaidAt(flat[lba := blocks[0]], lba + 1, blocks[1..], i);
    }
  }

  /** The flat array of the host: a block is present once it has been written. */
  ghost function Apply<B>(flat: map<nat, B>, r: Request<B>): (f: map<nat, B>) {
    if r.Read? then flat else Laid(flat, Lba(r.lsa, r.offset), r.blocks)
  }

  /** A read returns every block that was ever written as it was last written. */
  ghost predicate Answers<B>(flat: map<nat, B>, r: Request<B>, out: seq<B>) {
    r.Read? ==>
      && |out| == r.count
      && forall i :: 0 <= i < r.count && Lba(r.lsa, r.offset + i) in flat ==> out[i] == flat[Lba(r.lsa, r.offset + i)]
  }

  /** Slice contents that agree with the flat array. */
  ghost predicate Agrees<B>(flat: map<nat, B>, l: nat, s: seq<B>) {
    && |s| == NVME_BLOCKS_PER_SLICE
    && forall o :: 0 <= o < NVME_BLOCKS_PER_SLICE && Lba(l, o) in flat ==> s[o] == flat[Lba(l, o)]
  }

  ghost predicate Unwritten<B>(flat: map<nat, B>, l: nat) {
    forall o :: 0 <= o < NVME_BLOCKS_PER_SLICE ==> Lba(l, o) !in flat
  }

  /** The flash holds the slice as the host last wrote it. */
  ghost predicate OnFlash<B>(flat: map<nat, B>, l2v: map<nat, Vsa>, cells: map<Vsa, seq<B>>, l: nat) {
    if l in l2v then l2v[l] in cells && Agrees(flat, l, cells[l2v[l]]) else Unwritten(flat, l)
  }

  /** The contents of the two buffers, the flash and the host's array. */
  datatype Mem<B> = Mem(bufs: seq<View<seq<B>>>, l2v: map<nat, Vsa>, cells: map<Vsa, seq<B>>, flat: map<nat, B>)

  ghost predicate Shaped<B>(v: View<seq<B>>) {
    && |v.lsa| == |v.dirty| == |v.data| && Unique(v.lsa)
    && forall e :: 0 <= e < |v.data| ==> |v.data[e]| == NVME_BLOCKS_PER_SLICE
  }

  /** A buffered copy is right, and the flash copy too unless the entry is dirty. */
  ghost predicate EntryOk<B>(m: Mem<B>, k: nat, e: nat)
    requires k < |m.bufs| && e < |m.bufs[k].lsa| == |m.bufs[k].dirty| == |m.bufs[k].data|
  {
    var v := m.bufs[k];
    if v.lsa[e].None? then !v.dirty[e]
    else Agrees(m.flat, v.lsa[e].value, v.data[e]) && (v.dirty[e] || OnFlash(m.flat, m.l2v, m.cells, v.lsa[e].value))
  }

  ghost predicate Buffered<B>(m: Mem<B>, l: nat) {
    exists k :: 0 <= k < |m.bufs| && Cached(m.bufs[k].lsa, l)
  }

  /** Buffers, maps and flash together hold the host's array, no slice in two buffers. */
  ghost predicate Coherent<B>(m: Mem<B>) {
    && (forall k :: 0 <= k < |m.bufs| ==> Shaped(m.bufs[k]))
    && (forall k, e :: 0 <= k < |m.bufs| && 0 <= e < |m.bufs[k].lsa| ==> EntryOk(m, k, e))
    && (forall j, k, l :: 0 <= j < k < |m.bufs| && Cached(m.bufs[j].lsa, l) ==> !Cached(m.bufs[k].lsa, l))
    && (forall l :: !Buffered(m, l) ==> OnFlash(m.flat, m.l2v, m.cells, l))
  }

  ghost predicate SameElsewhere<B>(flat: map<nat, B>, flat': map<nat, B>, l: nat) {
    forall x, o :: x != l && 0 <= o < NVME_BLOCKS_PER_SLICE ==>
      (Lba(x, o) in flat' <==> Lba(x, o) in flat) && (Lba(x, o) in flat ==> flat'[Lba(x, o)] == flat[Lba(x, o)])
  }

  lemma OtherSlice<B>(m: Mem<B>, flat': map<nat, B>, l: nat, x: nat)
    requires SameElsewhere(m.flat, flat', l) && x != l
    ensures forall s: seq<B> :: Agrees(m.flat, x, s) ==> Agrees(flat', x, s)
    ensures OnFlash(m.flat, m.l2v, m.cells, x) ==> OnFlash(flat', m.l2v, m.cells, x)
  {
  }

  /** Entry e of buffer k given to slice l. */
  ghost function Filled<B>(v: View<seq<B>>, e: nat, l: nat, s: seq<B>, d: bool): (r: View<seq<B>>)
    requires e < |v.lsa| == |v.dirty| == |v.data|
  {
    v.(lsa := v.lsa[e := Some(l)], data := v.data[e := s], dirty := v.dirty[e := d])
  }

  /** Entry e of buffer k may take slice l: it has it already, or nobody has and the entry is clean. */
  ghost predicate CanTake<B>(m: Mem<B>, k: nat, e: nat, l: nat)
    requires k < |m.bufs| && e < |m.bufs[k].lsa| == |m.bufs[k].dirty|
  {
    m.bufs[k].lsa[e] == Some(l) || (!Buffered(m, l) && !m.bufs[k].dirty[e])
  }

  /** A hit: the entry that holds slice l has become the most recently used of its buffer, the order of the
      others is kept, and no entry has changed hands. */
  ghost predicate Refreshed<T>(v: View<T>, w: View<T>, l: nat) {
    && w.lsa == v.lsa && w.order != [] && w.order == [w.order[0]] + Drop(v.order, w.order[0])
    && w.order[0] < |w.lsa| && w.lsa[w.order[0]] == Some(l)
  }

  /** A miss: the least recently used entry of the buffer has been given to slice l and has become the most
      recently used, the order of the others is kept. */
  ghost predicate TakenIn<T>(v: View<T>, w: View<T>, l: nat) {
    && v.order != []
    && var e := v.order[|v.order|-1];
       e < |v.lsa| && w.lsa == v.lsa[e := Some(l)] && w.order == [e] + v.order[..|v.order|-1]
  }

  /** Buffer k serves a request: the buffer that has its slice, or on a miss R-Buf for a read and the main
      buffer for a write. The other buffer is as it was. */
  ghost predicate ServedFrom<B>(bufs: seq<View<seq<B>>>, bufs': seq<View<seq<B>>>, r: Request<B>, k: nat) {
    && |bufs| == |bufs'| == 2 && k <= RBUF && bufs'[RBUF - k] == bufs[RBUF - k] && !Cached(bufs[RBUF - k].lsa, r.lsa)
    && if Cached(bufs[k].lsa, r.lsa) then Refreshed(bufs[k], bufs'[k], r.lsa)
       else k == (if r.Read? then RBUF else MAIN) && TakenIn(bufs[k], bufs'[k], r.lsa)
  }

  /** How many pages a miss reads: one, unless the request overwrites the whole slice or the slice was never
      written out. */
  function ReadsIn<B>(r: Request<B>, l2v: map<nat, Vsa>): (n: nat) {
    if r.lsa in l2v && (r.Read? || |r.blocks| != NVME_BLOCKS_PER_SLICE) then 1 else 0
  }

  /** The least recently used entry of a buffer is clean. */
  ghost predicate LastClean<T>(v: View<T>) {
    v.order != [] && v.order[|v.order|-1] < |v.dirty| && !v.dirty[v.order[|v.order|-1]]
  }

  /** Slice l has been found in buffer k. */
  ghost predicate FoundIn<B>(bufs: seq<View<seq<B>>>, bufs': seq<View<seq<B>>>, l: nat, k: nat) {
    && |bufs| == |bufs'| == 2 && k <= RBUF && bufs'[RBUF - k] == bufs[RBUF - k] && !Cached(bufs[RBUF - k].lsa, l)
    && Cached(bufs[k].lsa, l) && Refreshed(bufs[k], bufs'[k], l)
  }

  lemma HitFound<B>(m: Mem<B>, k: nat, e: nat, l: nat, v: View<seq<B>>)
    requires Coherent(m) && |m.bufs| == 2 && k <= RBUF && e < |m.bufs[k].lsa| && m.bufs[k].lsa[e] == Some(l)
    requires v.lsa == m.bufs[k].lsa && v.order == [e] + Drop(m.bufs[k].order, e)
    ensures FoundIn(m.bufs, m.bufs[k := v], l, k)
  {
    assert Cached(m.bufs[k].lsa, l);
  }

  /** What changes dirty marks and contents only keeps that. */
  lemma ServedStill<B>(bufs: seq<View<seq<B>>>, a: seq<View<seq<B>>>, b: seq<View<seq<B>>>, r: Request<B>, k: nat)
    requires ServedFrom(bufs, a, r, k) && |b| == 2 && b[RBUF - k] == a[RBUF - k]
    requires b[k].lsa == a[k].lsa && b[k].order == a[k].order
    ensures ServedFrom(bufs, b, r, k)
  {
  }

  /** What that means for the two buffers. */
  lemma ServedTells<B>(m: Mem<B>, m': Mem<B>, r: Request<B>, k: nat)
    requires ServedFrom(m.bufs, m'.bufs, r, k)
    ensures |m.bufs| == |m'.bufs| == 2
    ensures Cached(m.bufs[MAIN].lsa, r.lsa) ==>
              Refreshed(m.bufs[MAIN], m'.bufs[MAIN], r.lsa) && m'.bufs[RBUF] == m.bufs[RBUF]
    ensures Cached(m.bufs[RBUF].lsa, r.lsa) ==>
              Refreshed(m.bufs[RBUF], m'.bufs[RBUF], r.lsa) && m'.bufs[MAIN] == m.bufs[MAIN]
    ensures !Buffered(m, r.lsa) && r.Read? ==>
              && Cached(m'.bufs[RBUF].lsa, r.lsa) && m'.bufs[MAIN] == m.bufs[MAIN]
              && TakenIn(m.bufs[RBUF], m'.bufs[RBUF], r.lsa)
    ensures !Buffered(m, r.lsa) && r.Write? ==>
              && Cached(m'.bufs[MAIN].lsa, r.lsa) && m'.bufs[RBUF] == m.bufs[RBUF]
              && TakenIn(m.bufs[MAIN], m'.bufs[MAIN], r.lsa)
    ensures Buffered(m, r.lsa) ==> forall l :: Buffered(m', l) <==> Buffered(m, l)
  {
    assert Buffered(m, r.lsa) <==> Cached(m.bufs[MAIN].lsa, r.lsa) || Cached(m.bufs[RBUF].lsa, r.lsa);
    if TakenIn(m.bufs[k], m'.bufs[k], r.lsa) {
      var e := m.bufs[k].order[|m.bufs[k].order|-1];
      assert m'.bufs[k].lsa[e] == Some(r.lsa);
    }
  }

  /** Entry e, the least recently used of buffer k, has been taken in hand and is the most recently used. */
  ghost predicate Chosen<B>(bufs: seq<View<seq<B>>>, bufs': seq<View<seq<B>>>, k: nat, e: nat) {
    && |bufs| == |bufs'| == 2 && k <= RBUF && bufs'[RBUF - k] == bufs[RBUF - k]
    && bufs[k].order != [] && e == bufs[k].order[|bufs[k].order|-1] < |bufs[k].lsa|
    && bufs'[k].lsa == bufs[k].lsa && bufs'[k].order == [e] + bufs[k].order[..|bufs[k].order|-1]
  }

  lemma ChosenTaken<B>(m: Mem<B>, a: seq<View<seq<B>>>, b: seq<View<seq<B>>>, k: nat, e: nat, r: Request<B>)
    requires Chosen(m.bufs, a, k, e) && |b| == 2 && b[RBUF - k] == a[RBUF - k] && e < |a[k].lsa|
    requires b[k].lsa == a[k].lsa[e := Some(r.lsa)] && b[k].order == a[k].order
    requires !Buffered(m, r.lsa) && k == if r.Read? then RBUF else MAIN
    ensures ServedFrom(m.bufs, b, r, k)
  {
    assert !Cached(m.bufs[k].lsa, r.lsa) && !Cached(m.bufs[RBUF - k].lsa, r.lsa);
  }

  /** Which slices are buffered once entry e has taken slice l. */
  lemma FilledCached<B>(v: View<seq<B>>, e: nat, l: nat, s: seq<B>, d: bool, x: nat)
    requires Shaped(v) && e < |v.lsa| && (v.lsa[e] == Some(l) || !Cached(v.lsa, l))
    ensures Cached(Filled(v, e, l, s, d).lsa, x) <==> x == l || (Cached(v.lsa, x) && v.lsa[e] != Some(x))
    ensures Unique(Filled(v, e, l, s, d).lsa)
  {
    var lsa' := v.lsa[e := Some(l)];
    if x == l {
      assert lsa'[e] == Some(x);
    } else if Cached(v.lsa, x) && v.lsa[e] != Some(x) {
      var f :| 0 <= f < |v.lsa| && v.lsa[f] == Some(x);
      assert lsa'[f] == Some(x);
    }
    forall f, g | 0 <= f < g < |lsa'| && lsa'[f].Some? ensures lsa'[f] != lsa'[g] {
      assert v.lsa[e] == Some(l) || (v.lsa[f] != Some(l) && v.lsa[g] != Some(l));
    }
  }

  /** A clean entry taken over by slice l, or a slice rewritten in its own entry. */
  lemma FillKeeps<B>(m: Mem<B>, k: nat, e: nat, l: nat, s: seq<B>, d: bool, flat': map<nat, B>)
    requires Coherent(m) && k < |m.bufs| && e < |m.bufs[k].lsa| == |m.bufs[k].dirty| == |m.bufs[k].data|
    requires CanTake(m, k, e, l) && SameElsewhere(m.flat, flat', l)
    requires Agrees(flat', l, s) && (d || OnFlash(flat', m.l2v, m.cells, l))
    ensures Coherent(m.(bufs := m.bufs[k := Filled(m.bufs[k], e, l, s, d)], flat := flat'))
  {
    assert |s| == NVME_BLOCKS_PER_SLICE;
    hide Agrees, OnFlash, SameElsewhere;
    var v := m.bufs[k];
    var m' := m.(bufs := m.bufs[k := Filled(v, e, l, s, d)], flat := flat');
    assert Shaped(v) && EntryOk(m, k, e);
    forall j, x | 0 <= j < |m.bufs|
      ensures Cached(m'.bufs[j].lsa, x) <==>
                if j == k then x == l || (Cached(v.lsa, x) && v.lsa[e] != Some(x)) else Cached(m.bufs[j].lsa, x)
      ensures Shaped(m'.bufs[j])
    {
      assert Shaped(m.bufs[j]);
      if j == k {
        FilledCached(v, e, l, s, d, x);
      }
    }
    forall j, f | 0 <= j < |m'.bufs| && 0 <= f < |m'.bufs[j].lsa| ensures EntryOk(m', j, f) {
      if (j, f) != (k, e) {
        assert EntryOk(m, j, f);
        if m.bufs[j].lsa[f].Some? {
          assert Cached(m.bufs[j].lsa, m.bufs[j].lsa[f].value);
          OtherSlice(m, flat', l, m.bufs[j].lsa[f].value);
        }
      }
    }
    forall x | !Buffered(m', x) ensures OnFlash(flat', m.l2v, m.cells, x) {
      assert x != l;
      OtherSlice(m, flat', l, x);
    }
  }

  /** A dirty entry written out and marked clean. */
  lemma EvictKeeps<B>(m: Mem<B>, k: nat, e: nat, l: nat, l2v': map<nat, Vsa>, cells': map<Vsa, seq<B>>)
    requires Coherent(m) && k < |m.bufs| && e < |m.bufs[k].lsa| == |m.bufs[k].dirty| == |m.bufs[k].data|
    requires m.bufs[k].lsa[e] == Some(l)
    requires F.SameData(m.l2v - {l}, m.cells, l2v' - {l}, cells')
    requires l in l2v' && l2v'[l] in cells' && cells'[l2v'[l]] == m.bufs[k].data[e]
    ensures Coherent(m.(bufs := m.bufs[k := m.bufs[k].(dirty := m.bufs[k].dirty[e := false])], l2v := l2v',
            cells := cells'))
  {
    var m' := m.(bufs := m.bufs[k := m.bufs[k].(dirty := m.bufs[k].dirty[e := false])], l2v := l2v', cells := cells');
    assert EntryOk(m, k, e) && OnFlash(m.flat, l2v', cells', l);
    forall x | x != l && OnFlash(m.flat, m.l2v, m.cells, x) ensures OnFlash(m.flat, l2v', cells', x) {
      assert x in l2v' <==> x in l2v' - {l};
      assert x in m.l2v <==> x in m.l2v - {l};
    }
    forall j | 0 <= j < |m.bufs| ensures Shaped(m'.bufs[j]) && m'.bufs[j].lsa == m.bufs[j].lsa {
      assert Shaped(m.bufs[j]);
    }
    forall j, f | 0 <= j < |m'.bufs| && 0 <= f < |m'.bufs[j].lsa| ensures EntryOk(m', j, f) {
      assert EntryOk(m, j, f);
    }
    forall x | !Buffered(m', x) ensures OnFlash(m.flat, l2v', cells', x) {
      assert !Buffered(m, x) && Cached(m.bufs[k].lsa, l);
    }
  }

  /** Recency and the entry in hand have no bearing on the contents. */
  lemma TouchCoherent<B>(m: Mem<B>, k: nat, v: View<seq<B>>)
    requires Coherent(m) && k < |m.bufs|
    requires v.lsa == m.bufs[k].lsa && v.dirty == m.bufs[k].dirty && v.data == m.bufs[k].data
    ensures Coherent(m.(bufs := m.bufs[k := v]))
    ensures forall l :: Buffered(m.(bufs := m.bufs[k := v]), l) <==> Buffered(m, l)
  {
    var m' := m.(bufs := m.bufs[k := v]);
    forall j | 0 <= j < |m.bufs| ensures Shaped(m'.bufs[j]) && m'.bufs[j].lsa == m.bufs[j].lsa {
      assert Shaped(m.bufs[j]);
    }
    forall j, f | 0 <= j < |m'.bufs| && 0 <= f < |m'.bufs[j].lsa| ensures EntryOk(m', j, f) {
      assert EntryOk(m, j, f);
    }
  }

  /** What filling an entry from the flash, or writing over it, makes of the contents. */
  lemma ReadAgrees<B>(m: Mem<B>, l: nat, s: seq<B>)
    requires Coherent(m) && !Buffered(m, l) && |s| == NVME_BLOCKS_PER_SLICE
    ensures OnFlash(m.flat, m.l2v, m.cells, l)
    ensures l in m.l2v ==> Mapped(m, l) && Agrees(m.flat, l, m.cells[m.l2v[l]])
    ensures l !in m.l2v ==> Agrees(m.flat, l, s)
  {
  }

  ghost predicate Mapped<B>(m: Mem<B>, l: nat) {
    l in m.l2v && m.l2v[l] in m.cells
  }

  lemma WriteAgrees<B>(flat: map<nat, B>, r: Request<B>, s: seq<B>)
    requires r.Write? && InSlice(r) && |s| == NVME_BLOCKS_PER_SLICE
    requires Agrees(flat, r.lsa, s) || |r.blocks| == NVME_BLOCKS_PER_SLICE
    ensures Agrees(Apply(flat, r), r.lsa, Overlaid(s, r.offset, r.blocks))
    ensures SameElsewhere(flat, Apply(flat, r), r.lsa)
  {
    var s' := Overlaid(s, r.offset, r.blocks);
    forall x, o | 0 <= o < NVME_BLOCKS_PER_SLICE
      ensures Lba(x, o) in Apply(flat, r) <==>
              Lba(x, o) in flat || (x == r.lsa && r.offset <= o < r.offset + |r.blocks|)
      ensures x == r.lsa && r.offset <= o < r.offset + |r.blocks| ==>
              Apply(flat, r)[Lba(x, o)] == r.blocks[o - r.offset]
      ensures Lba(x, o) in flat && !(x == r.lsa && r.offset <= o < r.offset + |r.blocks|) ==>
                Apply(flat, r)[Lba(x, o)] == flat[Lba(x, o)]
    {
      LaidAt(flat, Lba(r.lsa, r.offset), r.blocks, Lba(x, o));
    }
    forall o | 0 <= o < NVME_BLOCKS_PER_SLICE && Lba(r.lsa, o) in Apply(flat, r)
      ensures s'[o] == Apply(flat, r)[Lba(r.lsa, o)]
    {
    }
  }

  lemma HitAgrees<B>(m: Mem<B>, k: nat, e: nat, l: nat)
    requires Coherent(m) && k < |m.bufs| && e < |m.bufs[k].lsa| && m.bufs[k].lsa[e] == Some(l)
    ensures |m.bufs[k].lsa| == |m.bufs[k].dirty| == |m.bufs[k].data|
    ensures Agrees(m.flat, l, m.bufs[k].data[e])
    ensures m.bufs[k].dirty[e] || OnFlash(m.flat, m.l2v, m.cells, l)
  {
    assert EntryOk(m, k, e) && Shaped(m.bufs[k]);
  }

  // ---- the buffers as the low-level requests know them ----

  /** The number of entry e of buffer k, behind the temporary buffers of the dies. */
  function EntryNo(dies: nat, mainEntries: nat, k: nat, e: nat): (no: nat) {
    dies + (if k == MAIN then e else mainEntries + e)
  }

  /** Buffer entries hold what the low-level requests have left in them, and dirty ones have been filled. */
  ghost predicate Shadowed<B>(bufs: seq<View<seq<B>>>, j: Journal<seq<B>>, dies: nat) {
    && |bufs| == 2 && S.Total(j.mem)
    && (forall k, e :: 0 <= k <= RBUF && 0 <= e < |bufs[k].data| ==>
          j.mem.bufs[EntryNo(dies, |bufs[MAIN].data|, k, e)] == bufs[k].data[e])
    && forall k, e :: 0 <= k <= RBUF && 0 <= e < |bufs[k].dirty| && bufs[k].dirty[e] ==>
         Sourced(j.log, EntryNo(dies, |bufs[MAIN].data|, k, e))
  }

  /** The same contents, and no more dirty entries. */
  ghost predicate SameContents<B>(bufs: seq<View<seq<B>>>, bufs': seq<View<seq<B>>>) {
    && |bufs| == |bufs'| == 2 && (forall k :: 0 <= k <= RBUF ==> bufs'[k].data == bufs[k].data)
    && forall k, e :: 0 <= k <= RBUF && 0 <= e < |bufs'[k].dirty| && bufs'[k].dirty[e] ==>
         e < |bufs[k].dirty| && bufs[k].dirty[e]
  }

  lemma ShadowKept<B>(bufs: seq<View<seq<B>>>, j: Journal<seq<B>>, bufs': seq<View<seq<B>>>, j': Journal<seq<B>>,
                      dies: nat)
    requires Shadowed(bufs, j, dies) && SameContents(bufs, bufs') && KeptFrom(dies, j, j')
    ensures Shadowed(bufs', j', dies)
  {
    hide Sourced;
    AllSourced(j, j');
  }

  lemma AllSourced<B>(j: Journal<seq<B>>, j': Journal<seq<B>>)
    requires Extends(j, j')
    ensures forall no :: Sourced(j.log, no) ==> Sourced(j'.log, no)
  {
    forall no | Sourced(j.log, no) ensures Sourced(j'.log, no) {
      StillSourced(j.log, j'.log, no);
    }
  }

  /** Entry e of buffer k and its number given new contents. */
  lemma ShadowSet<B>(bufs: seq<View<seq<B>>>, j: Journal<seq<B>>, j': Journal<seq<B>>, dies: nat, k: nat, e: nat,
                     s: seq<B>)
    requires Shadowed(bufs, j, dies) && k <= RBUF && e < |bufs[k].data| == |bufs[k].dirty| && Extends(j, j')
    requires var no := EntryNo(dies, |bufs[MAIN].data|, k, e);
             j'.mem.bufs == j.mem.bufs[no := s] && S.Total(j'.mem) && Sourced(j'.log, no)
    ensures Shadowed(Altered(bufs, k, e, s), j', dies)
  {
    hide Sourced;
    AllSourced(j, j');
  }

  lemma SameShadow<B>(bufs: seq<View<seq<B>>>, j: Journal<seq<B>>, bufs': seq<View<seq<B>>>, dies: nat)
    requires Shadowed(bufs, j, dies) && SameContents(bufs, bufs')
    ensures Shadowed(bufs', j, dies)
  {
    hide Sourced;
  }

  lemma ShadowAt<B>(bufs: seq<View<seq<B>>>, j: Journal<seq<B>>, dies: nat, k: nat, e: nat)
    requires Shadowed(bufs, j, dies) && k <= RBUF && e < |bufs[k].data|
    ensures var no := EntryNo(dies, |bufs[MAIN].data|, k, e);
            && S.Total(j.mem) && j.mem.bufs[no] == bufs[k].data[e]
            && (e < |bufs[k].dirty| && bufs[k].dirty[e] ==> Sourced(j.log, no))
  {
    hide Sourced;
  }

  /** A buffer of n entries before first use, with the contents the memory has from `first` on. */
  ghost predicate Unused<B>(v: View<seq<B>>, n: nat, junk: nat -> seq<B>, first: nat) {
    && |v.lsa| == |v.dirty| == |v.data| == n && v.hand == None
    && forall e :: 0 <= e < n ==> v.lsa[e] == None && !v.dirty[e] && v.data[e] == junk(first + e)
  }

  method NewBuffer<B>(n: nat, junk: nat -> seq<B>, first: nat) returns (b: DataBuffer<seq<B>>)
    requires 0 < n <= Links.NONE
    ensures b.Valid() && fresh(b.Repr) && b in b.Repr && b.n == n && Unused(b.view, n, junk, first)
    ensures b.view.hand == None
  {
    b := new DataBuffer(n, e => junk(first + e));
  }

  lemma ShadowStart<B>(bufs: seq<View<seq<B>>>, j: Journal<seq<B>>, dies: nat,
                       junk: nat -> seq<B>, mainEntries: nat, rbufEntries: nat)
    requires |bufs| == 2 && S.Total(j.mem) && forall e: nat :: j.mem.bufs[dies + e] == junk(e)
    requires Unused(bufs[MAIN], mainEntries, junk, 0) && Unused(bufs[RBUF], rbufEntries, junk, mainEntries)
    ensures Shadowed(bufs, j, dies)
  {
  }

  ghost function Removed(lsa: seq<Option<nat>>, e: nat): (r: seq<Option<nat>>) {
    if e < |lsa| then lsa[e := None] else lsa
  }

  ghost function Contents<B>(bufs: seq<View<seq<B>>>, k: nat, e: nat): (s: seq<B>) {
    if k < |bufs| && e < |bufs[k].data| then bufs[k].data[e] else []
  }

  /** The buffers with other contents in entry e of buffer k, which may be dirty then. */
  ghost function Altered<B>(bufs: seq<View<seq<B>>>, k: nat, e: nat, s: seq<B>): (r: seq<View<seq<B>>>) {
    if k < |bufs| && e < |bufs[k].data| == |bufs[k].dirty|
      then bufs[k := bufs[k].(data := bufs[k].data[e := s], dirty := bufs[k].dirty[e := true])]
    else bufs
  }

  /** What the last request sent to the host. */
  ghost function LastSent<B>(j: Journal<seq<B>>): (s: seq<B>) {
    if j.log != [] && |j.log| - 1 in j.mem.sent then j.mem.sent[|j.log| - 1] else []
  }

  ghost function Cut<B>(s: seq<B>, offset: nat, count: nat): (r: seq<B>) {
    if offset + count <= |s| then s[offset..offset + count] else []
  }

  /** At least n more requests have been submitted, and only they have sent anything. */
  ghost predicate Sending<B>(j: Journal<seq<B>>, j': Journal<seq<B>>, n: nat) {
    && Extends(j, j') && |j'.log| >= |j.log| + n && S.Total(j.mem) && S.Total(j'.mem)
    && forall i :: 0 <= i < |j.log| ==> j'.mem.sent[i] == j.mem.sent[i]
  }

  lemma SendingTwice<B>(a: Journal<seq<B>>, b: Journal<seq<B>>, c: Journal<seq<B>>, m: nat, n: nat)
    requires Sending(a, b, m) && Sending(b, c, n)
    ensures Sending(a, c, m + n)
  {
  }

  lemma SendingLess<B>(a: Journal<seq<B>>, b: Journal<seq<B>>, n: nat)
    requires Sending(a, b, n)
    ensures Sending(a, b, 0)
  {
  }

  lemma KeptSending<B>(n: nat, j: Journal<seq<B>>, j': Journal<seq<B>>)
    requires KeptFrom(n, j, j')
    ensures Sending(j, j', 0)
  {
  }

  /** What a write makes of the contents of a buffer entry. */
  ghost function Lay<B>(offset: nat, blocks: seq<B>): (f: seq<B> -> seq<B>) {
    (s: seq<B>) => if offset + |blocks| <= |s| then Overlaid(s, offset, blocks) else s
  }

  lemma LayLays<B>(offset: nat, blocks: seq<B>, s: seq<B>)
    requires offset + |blocks| <= |s|
    ensures Lay(offset, blocks)(s) == Overlaid(s, offset, blocks) && Same<seq<B>>()(s) == s
  {
  }

  class Store<B> {
    const main: DataBuffer<seq<B>>
    const rbuf: DataBuffer<seq<B>>
    const ftl: F.Ftl<seq<B>>
    ghost var flat: map<nat, B>

    ghost function Repr(): set<object> {
      {this} + main.Repr + rbuf.Repr + ftl.Repr()
    }

    ghost predicate Apart() {
      && main in main.Repr && rbuf in rbuf.Repr && ftl in ftl.Repr()
      && this !in main.Repr && this !in rbuf.Repr && this !in ftl.Repr()
      && main.Repr !! rbuf.Repr && main.Repr !! ftl.Repr() && rbuf.Repr !! ftl.Repr()
    }

    ghost function M(): Mem<B>
      reads this, main, rbuf, ftl
    {
      Mem([main.view, rbuf.view], ftl.l2v, ftl.cells, flat)
    }

    /** The parts are in order, and the buffer entries are what the requests have left. */
    ghost predicate Parts()
      reads Repr()
    {
      && Apart() && main.Valid() && rbuf.Valid() && ftl.Valid()
      && Shadowed(M().bufs, ftl.journal, |ftl.arr.dies|)
    }

    /** The parts are in order and together hold the host's array. */
    ghost predicate Sound()
      reads Repr()
    {
      Parts() && Coherent(M())
    }

    ghost predicate Valid()
      reads Repr()
    {
      Sound() && main.view.hand == None && rbuf.view.hand == None
    }

    /** Empty buffers over blank flash; the buffer memory holds whatever it holds. */
    constructor (channels: nat, ways: nat, pages: nat, bad: seq<seq<bool>>, mainEntries: nat, rbufEntries: nat,
                 junk: nat -> seq<B>, ghost start: S.Mem<seq<B>>, ghost blank: seq<B>)
      requires 0 < channels && 0 < ways && 0 < pages && |bad| == channels * ways
      requires forall d :: 0 <= d < |bad| ==> 0 < |bad[d]| <= Links.NONE && Dies.TwoGood(bad[d])
      requires 0 < mainEntries <= Links.NONE && 0 < rbufEntries <= Links.NONE
      requires forall e: nat :: |junk(e)| == NVME_BLOCKS_PER_SLICE
      requires S.Total(start) && forall e: nat :: start.bufs[|bad| + e] == junk(e)
      ensures Valid() && fresh(Repr()) && flat == map[] && ftl.journal == Journal([], [], start, start, blank)
    {
      hide DataBuffer.Valid, F.Ftl.Valid, Coherent, Dies.TwoGood, Shadowed, S.Total, Unused;
      var m := NewBuffer(mainEntries, junk, 0);
      var r := NewBuffer(rbufEntries, junk, mainEntries);
      main, rbuf := m, r;
      ftl := new F.Ftl(channels, ways, pages, bad, start, blank);
      flat := map[];
      new;
      EmptyCoherent(M(), junk, mainEntries, rbufEntries);
      ShadowStart(M().bufs, ftl.journal, |ftl.arr.dies|, junk, mainEntries, rbufEntries);
    }

    function Buf(k: nat): (b: DataBuffer<seq<B>>) {
      if k == MAIN then main else rbuf
    }

    /** Entry e of buffer k can be written out with the tables intact, if it needs to be. */
    ghost predicate CanEvict(k: nat, e: nat)
      requires Sound() && k <= RBUF && e < Buf(k).n
      reads Repr()
    {
      var v := Buf(k).view;
      v.dirty[e] ==> v.lsa[e].Some? && F.Fits(ftl.Awaiting(v.lsa[e].value), ftl.pages)
    }

    /** Write entry e of buffer k, which is dirty, out to flash. */
    method WriteOut(k: nat, e: nat) returns (ok: bool)
      requires Sound() && k <= RBUF && e < Buf(k).n == Buf(k).dirty.Length && Buf(k).dirty[e]
      modifies ftl.Repr(), Buf(k).Repr
      ensures ok <==> old(CanEvict(k, e))
      ensures ok ==>
                && Sound() && |old(M()).bufs[k].dirty| == Buf(k).n
                && M().bufs == old(M()).bufs[k := old(M()).bufs[k].(dirty := old(M()).bufs[k].dirty[e := false])]
                && Used(old(ftl.arr.views), ftl.arr.views, ftl.pages, 1)
                && KeptFrom(|ftl.arr.dies|, old(ftl.journal), ftl.journal)
    {
      hide DataBuffer.Valid, F.Ftl.Valid, Coherent, F.SameData, F.Ftl.Awaiting, F.Fits, F.RunsOut, Left, KeptFrom,
        Shadowed, Used, Sourced, LastIs, S.Total;
      main.Shape();
      rbuf.Shape();
      HasSlice(M(), k, e);
      var b := Buf(k);
      ghost var m, j := M(), ftl.journal;
      ShadowAt(m.bufs, j, |ftl.arr.dies|, k, e);
      var l := b.lsa[e].value;
      var r := ftl.WriteSlice(l, b.data[e], EntryNo(|ftl.arr.dies|, main.n, k, e));
      if !r.Kept? {
        return false;
      }
      EvictKeeps(m, k, e, l, ftl.l2v, ftl.cells);
      b.SetDirty(e, false);
      assert M().bufs == m.bufs[k := m.bufs[k].(dirty := m.bufs[k].dirty[e := false])];
      ShadowKept(m.bufs, j, M().bufs, ftl.journal, |ftl.arr.dies|);
      return true;
    }

    /** Write entry e of buffer k out if it is dirty. */
    method Evict(k: nat, e: nat) returns (ok: bool)
      requires Sound() && k <= RBUF && e < Buf(k).n
      modifies ftl.Repr(), Buf(k).Repr
      ensures ok ==> KeptFrom(|ftl.arr.dies|, old(ftl.journal), ftl.journal)
      ensures ok <==> old(CanEvict(k, e))
      ensures ok ==>
                && Sound() && |old(M()).bufs[k].dirty| == Buf(k).n
                && M().bufs == old(M()).bufs[k := old(M()).bufs[k].(dirty := old(M()).bufs[k].dirty[e := false])]
                && Used(old(ftl.arr.views), ftl.arr.views, ftl.pages, 1)
                && (!old(M()).bufs[k].dirty[e] ==> ftl.journal == old(ftl.journal) && ftl.l2v == old(ftl.l2v))
    {
      hide DataBuffer.Valid, F.Ftl.Valid, Coherent, F.Ftl.Awaiting, F.Fits, Left, KeptFrom, Shadowed;
      main.Shape();
      rbuf.Shape();
      Unchanged();
      if Buf(k).dirty[e] {
        ok := WriteOut(k, e);
      } else {
        assert M().bufs[k].dirty[e := false] == M().bufs[k].dirty;
        ok := true;
      }
    }

    lemma NothingSent()
      requires Valid()
      ensures Sending(ftl.journal, ftl.journal, 0)
    {
      Unchanged();
      KeptSending(|ftl.arr.dies|, ftl.journal, ftl.journal);
    }

    lemma Unchanged()
      requires ftl.Valid()
      ensures KeptFrom(|ftl.arr.dies|, ftl.journal, ftl.journal)
    {
      KeptAll(ftl.cells, ftl.journal, |ftl.arr.dies|, ftl.pages);
    }

    /** Look a slice up in the main buffer, then in R-Buf. */
    method Probe(l: nat) returns (hit: bool, k: nat, e: nat)
      requires Valid()
      modifies main.Repr, rbuf.Repr
      ensures Valid() && (hit <==> Buffered(old(M()), l)) && (!hit ==> M() == old(M()))
      ensures hit ==> k <= RBUF && e < Buf(k).n == |M().bufs[k].lsa| && M().bufs[k].lsa[e] == Some(l)
      ensures hit ==> FoundIn(old(M()).bufs, M().bufs, l, k)
      ensures !hit ==> (CanDisplace(MAIN) <==> old(CanDisplace(MAIN)))
      ensures !hit ==> (CanDisplace(RBUF) <==> old(CanDisplace(RBUF)))
    {
      hide DataBuffer.Valid, F.Ftl.Valid, Coherent, Shadowed, FoundIn;
      ghost var m := M();
      main.Shape();
      rbuf.Shape();
      var h := main.CheckHit(l);
      if h.Some? {
        TouchCoherent(m, MAIN, main.view);
        assert Cached(m.bufs[MAIN].lsa, l) && M().bufs == m.bufs[MAIN := main.view];
        SameShadow(m.bufs, ftl.journal, M().bufs, |ftl.arr.dies|);
        HitFound(m, MAIN, h.value, l, main.view);
        return true, MAIN, h.value;
      }
      h := rbuf.CheckHit(l);
      if h.Some? {
        TouchCoherent(m, RBUF, rbuf.view);
        assert Cached(m.bufs[RBUF].lsa, l) && M().bufs == m.bufs[RBUF := rbuf.view];
        SameShadow(m.bufs, ftl.journal, M().bufs, |ftl.arr.dies|);
        HitFound(m, RBUF, h.value, l, rbuf.view);
        return true, RBUF, h.value;
      }
      return false, 0, 0;
    }

    /** The least recently used entry of buffer k is clean or can be written out. */
    ghost predicate CanDisplace(k: nat)
      requires Valid() && k <= RBUF
      reads Repr()
    {
      var v := Buf(k).view;
      v.order != [] && v.order[|v.order| - 1] < Buf(k).n && CanEvict(k, v.order[|v.order| - 1])
    }

    /** While no die is used up, either buffer can give up an entry. */
    lemma RoomToDisplace(k: nat)
      requires Valid() && k <= RBUF && HasRoom(ftl.arr.views, ftl.pages, 1)
      ensures CanDisplace(k)
    {
      hide DataBuffer.Valid, F.Ftl.Valid, Coherent, Shadowed, HasRoom, F.Ftl.Awaiting, F.Fits;
      var v := Buf(k).view;
      Buf(k).NotEmpty();
      Buf(k).Shape();
      Buf(k).Oldest(0);
      var e := v.order[|v.order| - 1];
      HasSlice(M(), k, e);
      if v.dirty[e] {
        ftl.RoomFits(v.lsa[e].value);
      }
    }

    /** Take the least recently used entry of buffer k in hand. */
    method Choose(k: nat) returns (e: nat)
      requires Valid() && k <= RBUF
      modifies Buf(k).Repr
      ensures Sound() && e < Buf(k).n == |M().bufs[k].lsa| == |M().bufs[k].dirty|
      ensures M().bufs[k].hand == Some(e) && M().bufs[RBUF - k].hand == None
      ensures CanEvict(k, e) <==> old(CanDisplace(k))
      ensures Chosen(old(M()).bufs, M().bufs, k, e) && M().bufs[k].dirty == old(M()).bufs[k].dirty
      ensures forall l :: Buffered(M(), l) <==> Buffered(old(M()), l)
    {
      hide DataBuffer.Valid, F.Ftl.Valid, Coherent, F.Ftl.Awaiting, F.Fits, Shadowed, Buffered;
      ghost var m := M();
      e := Buf(k).Allocate();
      TouchCoherent(m, k, Buf(k).view);
      assert M().bufs == m.bufs[k := Buf(k).view];
      SameShadow(m.bufs, ftl.journal, M().bufs, |ftl.arr.dies|);
      Buf(k).Shape();
    }

    lemma SameBuffered(m: Mem<B>, n: Mem<B>)
      requires |m.bufs| == |n.bufs| && forall j :: 0 <= j < |m.bufs| ==> n.bufs[j].lsa == m.bufs[j].lsa
      ensures forall l :: Buffered(n, l) <==> Buffered(m, l)
    {
    }

    /** Make the least recently used entry of buffer k ready for another slice. */
    method Displace(k: nat) returns (ok: bool, e: nat)
      requires Valid() && k <= RBUF
      modifies Repr()
      ensures flat == old(flat) && (ok <==> old(CanDisplace(k)))
      ensures ok ==>
                && Sound() && e < Buf(k).n == |M().bufs[k].lsa| == |M().bufs[k].dirty|
                && M().bufs[k].hand == Some(e) && M().bufs[RBUF - k].hand == None && !M().bufs[k].dirty[e]
                && (forall l :: Buffered(M(), l) <==> Buffered(old(M()), l)) && Chosen(old(M()).bufs, M().bufs, k, e)
                && Used(old(ftl.arr.views), ftl.arr.views, ftl.pages, 1) && Sending(old(ftl.journal), ftl.journal, 0)
                && (LastClean(old(M()).bufs[k]) ==> ftl.journal == old(ftl.journal) && ftl.l2v == old(ftl.l2v))
    {
      hide DataBuffer.Valid, F.Ftl.Valid, Coherent, Used, Shadowed, KeptFrom, Sending, CanEvict, Buffered;
      ghost var j := ftl.journal;
      e := Choose(k);
      ghost var m := M();
      ok := Evict(k, e);
      if ok {
        KeptSending(|ftl.arr.dies|, j, ftl.journal);
        SameBuffered(m, M());
      }
    }

    /** Read a page into entry e of buffer k. The entry itself is set next. */
    method ReadInto(k: nat, e: nat, v: Vsa) returns (s: seq<B>)
      requires Parts() && k <= RBUF && e < |Buf(k).view.data| && v in ftl.cells
      modifies ftl`journal
      ensures ftl.Valid() && main.Valid() && rbuf.Valid() && s == old(ftl.cells)[v]
      ensures Sending(old(ftl.journal), ftl.journal, 0) && |ftl.journal.log| == |old(ftl.journal).log| + 1
      ensures Shadowed(Altered(old(M()).bufs, k, e, s), ftl.journal, |ftl.arr.dies|)
    {
      hide DataBuffer.Valid, F.Ftl.Valid, Shadowed;
      ghost var j := ftl.journal;
      main.Shape();
      rbuf.Shape();
      JournalThere();
      s := ftl.ReadPage(v, EntryNo(|ftl.arr.dies|, main.n, k, e));
      ShadowSet(M().bufs, j, ftl.journal, |ftl.arr.dies|, k, e, s);
    }

    /** Record a host DMA of entry e of buffer k that makes f of its contents. The entry itself is set next. */
    ghost method NoteDma(k: nat, e: nat, f: seq<B> -> seq<B>)
      requires Parts() && k <= RBUF && e < |Buf(k).view.data|
      modifies ftl`journal
      ensures ftl.Valid() && main.Valid() && rbuf.Valid() && Sending(old(ftl.journal), ftl.journal, 1)
      ensures |ftl.journal.log| == |old(ftl.journal).log| + 1
      ensures LastSent(ftl.journal) == Contents(old(M()).bufs, k, e)
      ensures Shadowed(Altered(old(M()).bufs, k, e, f(Contents(old(M()).bufs, k, e))), ftl.journal, |ftl.arr.dies|)
    {
      hide DataBuffer.Valid, F.Ftl.Valid, Shadowed;
      ghost var j := ftl.journal;
      main.Shape();
      rbuf.Shape();
      JournalThere();
      ShadowAt(M().bufs, j, |ftl.arr.dies|, k, e);
      ftl.HostDma(EntryNo(|ftl.arr.dies|, main.n, k, e), f);
      var s := f(Buf(k).view.data[e]);
      ShadowSet(M().bufs, j, ftl.journal, |ftl.arr.dies|, k, e, s);
    }

    lemma JournalThere()
      requires ftl.Valid()
      ensures Journaled(ftl.cells, ftl.journal, |ftl.arr.dies|, ftl.pages) && S.Total(ftl.journal.mem)
    {
    }

    /** Give the entry in hand to another slice, contents unchanged. */
    method Retag(k: nat, e: nat, l: nat)
      requires Parts() && k <= RBUF && Buf(k).view.hand == Some(e) && !Cached(Removed(Buf(k).view.lsa, e), l)
      modifies Buf(k).Repr
      ensures Parts() && e < |old(M()).bufs[k].lsa|
      ensures M().bufs[k] == old(M()).bufs[k].(lsa := old(M()).bufs[k].lsa[e := Some(l)], hand := None)
    {
      hide DataBuffer.Valid, F.Ftl.Valid, Shadowed;
      ghost var bufs := M().bufs;
      Buf(k).HandShape();
      Buf(k).Tag(e, l);
      SameShadow(bufs, ftl.journal, M().bufs, |ftl.arr.dies|);
    }

    /** Read a page into entry e of buffer k. */
    method Fetch(k: nat, e: nat, v: Vsa)
      requires Parts() && k <= RBUF && e < Buf(k).n && v in ftl.cells
      modifies Buf(k).Repr, ftl`journal
      ensures Parts() && Sending(old(ftl.journal), ftl.journal, 0) && e < |old(M()).bufs[k].data|
      ensures |ftl.journal.log| == |old(ftl.journal).log| + 1
      ensures M().bufs[k] == old(M()).bufs[k].(data := old(M()).bufs[k].data[e := old(ftl.cells)[v]])
    {
      hide DataBuffer.Valid, F.Ftl.Valid, Shadowed, Sending;
      Buf(k).Shape();
      var s := ReadInto(k, e, v);
      ghost var bufs := Altered(M().bufs, k, e, s);
      Buf(k).SetData(e, s);
      SameShadow(bufs, ftl.journal, M().bufs, |ftl.arr.dies|);
    }

    /** Give the entry in hand to the slice of a request, reading the slice in from flash
        unless the request overwrites all of it. An unmapped slice leaves the old contents. */
    method Load(k: nat, e: nat, r: Request<B>)
      requires Sound() && k <= RBUF && e < Buf(k).n == |M().bufs[k].lsa| && M().bufs[k].hand == Some(e)
      requires !Buffered(M(), r.lsa)
      modifies Buf(k).Repr, ftl`journal
      ensures Parts() && |old(M()).bufs[k].data| == Buf(k).n && Sending(old(ftl.journal), ftl.journal, 0)
      ensures |ftl.journal.log| == |old(ftl.journal).log| + ReadsIn(r, ftl.l2v)
      ensures var v, v' := old(M()).bufs[k], M().bufs[k];
              && e < |v'.data| && |v'.data[e]| == NVME_BLOCKS_PER_SLICE
              && (Agrees(flat, r.lsa, v'.data[e]) || (r.Write? && |r.blocks| == NVME_BLOCKS_PER_SLICE))
              && OnFlash(flat, ftl.l2v, ftl.cells, r.lsa)
              && v' == v.(lsa := v.lsa[e := Some(r.lsa)], data := v.data[e := v'.data[e]], hand := None)
    {
      hide DataBuffer.Valid, F.Ftl.Valid, Coherent, Shadowed, Sending;
      Unchanged();
      KeptSending(|ftl.arr.dies|, ftl.journal, ftl.journal);
      Buf(k).Shape();
      HasSlice(M(), k, e);
      ReadAgrees(M(), r.lsa, Buf(k).data[e]);
      NotThere(M(), k, e, r.lsa);
      Retag(k, e, r.lsa);
      if r.Read? || |r.blocks| != NVME_BLOCKS_PER_SLICE {
        var v := ftl.AddrTransRead(r.lsa);
        if v.Some? {
          Fetch(k, e, v.value);
        }
      }
    }

    /** Move the blocks of a request between the host and its buffer entry. */
    method Transfer(k: nat, e: nat, r: Request<B>) returns (out: seq<B>)
      requires Parts() && InSlice(r)
      requires k <= RBUF && e < Buf(k).n == |Buf(k).view.data| == |Buf(k).view.dirty|
      requires |Buf(k).view.data[e]| == NVME_BLOCKS_PER_SLICE
      modifies Buf(k).Repr, ftl`journal
      ensures Parts() && Sending(old(ftl.journal), ftl.journal, 1) && |ftl.journal.log| == |old(ftl.journal).log| + 1
      ensures LastSent(ftl.journal) == Contents(old(M()).bufs, k, e)
      ensures r.Read? ==> M() == old(M()) && out == M().bufs[k].data[e][r.offset..r.offset + r.count]
      ensures r.Write? ==>
                var v := old(M()).bufs[k];
                M().bufs[k] == v.(dirty := v.dirty[e := true],
                  data := v.data[e := Overlaid(v.data[e], r.offset, r.blocks)])
    {
      hide DataBuffer.Valid, F.Ftl.Valid, Shadowed, Sending, Lay, Same, LastSent;
      var b := Buf(k);
      b.Shape();
      out := [];
      LayLays<B>(r.offset, if r.Write? then r.blocks else [], b.data[e]);
      if r.Write? {
        NoteDma(k, e, Lay(r.offset, r.blocks));
        ghost var bufs := Altered(M().bufs, k, e, Overlaid(b.data[e], r.offset, r.blocks));
        b.SetDirty(e, true);
        b.Shape();
        b.SetData(e, Overlaid(b.data[e], r.offset, r.blocks));
        SameShadow(bufs, ftl.journal, M().bufs, |ftl.arr.dies|);
      } else {
        NoteDma(k, e, Same());
        out := b.data[e][r.offset..r.offset + r.count];
        assert b.view.data[e := b.view.data[e]] == b.view.data;
        SameShadow(Altered(M().bufs, k, e, b.view.data[e]), ftl.journal, M().bufs, |ftl.arr.dies|);
      }
    }

    /** An entry is ready for a request: the parts are in order and from the contents m it took over the slice. */
    ghost predicate Ready(m: Mem<B>, k: nat, e: nat, r: Request<B>)
      reads Repr()
    {
      && Parts() && main.view.hand == rbuf.view.hand == None
      && k <= RBUF && e < Buf(k).n == |Buf(k).view.data| == |Buf(k).view.dirty| && Attached(m, k, e, r, M())
    }

    /** The least recently used entry written out, retagged and filled. */
    method Replace(r: Request<B>) returns (ok: bool, k: nat, e: nat, ghost m: Mem<B>)
      requires Valid() && !Buffered(M(), r.lsa)
      modifies Repr()
      ensures flat == old(flat) && (ok <==> old(CanDisplace(if r.Read? then RBUF else MAIN)))
      ensures ok ==> ServedFrom(old(M()).bufs, M().bufs, r, k)
      ensures ok ==> Ready(m, k, e, r) && Sending(old(ftl.journal), ftl.journal, 0)
      ensures ok ==> Used(old(ftl.arr.views), ftl.arr.views, ftl.pages, 1)
      ensures ok && LastClean(old(if r.Read? then rbuf.view else main.view)) ==>
                |ftl.journal.log| == |old(ftl.journal).log| + ReadsIn(r, old(ftl.l2v))
    {
      hide DataBuffer.Valid, F.Ftl.Valid, Coherent, CanDisplace, Used, Shadowed, Sending;
      ghost var j := ftl.journal;
      k := if r.Read? then RBUF else MAIN;
      ghost var m0 := M();
      ok, e := Displace(k);
      m := M();
      if ok {
        HasSlice(m, k, e);
        ghost var j1 := ftl.journal;
        Load(k, e, r);
        SendingTwice(j, j1, ftl.journal, 0, 0);
        Buf(k).Shape();
        ChosenTaken(m0, m.bufs, M().bufs, k, e, r);
      }
    }

    /** The entry that holds the slice of a request is ready for it. */
    lemma HitReady(k: nat, e: nat, r: Request<B>)
      requires Valid() && k <= RBUF && e < Buf(k).n == |M().bufs[k].lsa| && M().bufs[k].lsa[e] == Some(r.lsa)
      ensures Ready(M(), k, e, r)
    {
      hide DataBuffer.Valid, F.Ftl.Valid, Coherent, Shadowed;
      var m := M();
      HasSlice(m, k, e);
      HitAgrees(m, k, e, r.lsa);
      assert m.bufs[k].lsa[e := Some(r.lsa)] == m.bufs[k].lsa;
      Buf(k).Shape();
    }

    /** An entry for a request: the one that holds its slice, or the least recently used
        one written out, retagged and filled. The last result are the contents before
        the entry was retagged. */
    method Attach(r: Request<B>) returns (ok: bool, k: nat, e: nat, ghost m: Mem<B>)
      requires Valid()
      modifies Repr()
      ensures flat == old(flat)
      ensures ok <==> old(Buffered(M(), r.lsa) || CanDisplace(if r.Read? then RBUF else MAIN))
      ensures ok ==> ServedFrom(old(M()).bufs, M().bufs, r, k)
      ensures old(Buffered(M(), r.lsa)) ==> ftl.journal == old(ftl.journal) && ftl.arr.views == old(ftl.arr.views)
      ensures ok && !old(Buffered(M(), r.lsa)) && LastClean(old(if r.Read? then rbuf.view else main.view)) ==>
                |ftl.journal.log| == |old(ftl.journal).log| + ReadsIn(r, old(ftl.l2v))
      ensures ok ==> Ready(m, k, e, r) && Sending(old(ftl.journal), ftl.journal, 0)
      ensures ok ==> Used(old(ftl.arr.views), ftl.arr.views, ftl.pages, 1)
    {
      hide DataBuffer.Valid, F.Ftl.Valid, Coherent, CanDisplace, Left, Shadowed, Sending, Ready, Buffered;
      Unchanged();
      KeptSending(|ftl.arr.dies|, ftl.journal, ftl.journal);
      var hit;
      hit, k, e := Probe(r.lsa);
      if hit {
        HitReady(k, e, r);
        return true, k, e, M();
      }
      ok, k, e, m := Replace(r);
    }

    lemma Places(bufs: seq<View<seq<B>>>, bufs': seq<View<seq<B>>>, r: Request<B>, k: nat)
      requires ServedFrom(bufs, bufs', r, k)
      ensures |bufs'| == 2 && k <= RBUF
    {
    }

    lemma SameFlat(m: Mem<B>, k: nat, e: nat, r: Request<B>)
      requires Ready(m, k, e, r)
      ensures m.flat == flat
    {
    }

    /** Move the blocks of a request with the entry that is ready for it. */
    method Exchange(r: Request<B>, k: nat, e: nat, ghost m: Mem<B>) returns (out: seq<B>)
      requires Ready(m, k, e, r) && InSlice(r) && m.flat == flat
      modifies Repr()
      ensures Valid() && flat == Apply(old(flat), r) && Answers(old(flat), r, out)
      ensures Sending(old(ftl.journal), ftl.journal, 1) && ftl.arr.views == old(ftl.arr.views)
      ensures |ftl.journal.log| == |old(ftl.journal).log| + 1
      ensures M().bufs[RBUF - k] == old(M()).bufs[RBUF - k]
      ensures M().bufs[k].lsa == old(M()).bufs[k].lsa && M().bufs[k].order == old(M()).bufs[k].order
      ensures r.Read? ==> out == Cut(LastSent(ftl.journal), r.offset, r.count)
    {
      hide DataBuffer.Valid, F.Ftl.Valid, Coherent, Shadowed, Sending, LastSent;
      ghost var m1 := M();
      out := Transfer(k, e, r);
      flat := Apply(flat, r);
      Served(m, k, e, r, m1, M());
    }

    /** Serve one slice request. It fails only where writing out the entry to be reused
        would run into the end of the free blocks or the collection of the current block.
        What a read returns is what its DMA request sends. */
    method Serve(r: Request<B>) returns (ok: bool, out: seq<B>)
      requires Valid() && InSlice(r)
      modifies Repr()
      ensures ok <==> old(Buffered(M(), r.lsa) || CanDisplace(if r.Read? then RBUF else MAIN))
      ensures ok && Cached(old(main.view).lsa, r.lsa) ==>
                Refreshed(old(main.view), main.view, r.lsa) && rbuf.view == old(rbuf.view)
      ensures ok && Cached(old(rbuf.view).lsa, r.lsa) ==>
                Refreshed(old(rbuf.view), rbuf.view, r.lsa) && main.view == old(main.view)
      ensures ok && !old(Buffered(M(), r.lsa)) && r.Read? ==>
                Cached(rbuf.view.lsa, r.lsa) && TakenIn(old(rbuf.view), rbuf.view, r.lsa) && main.view == old(main.view)
      ensures ok && !old(Buffered(M(), r.lsa)) && r.Write? ==>
                Cached(main.view.lsa, r.lsa) && TakenIn(old(main.view), main.view, r.lsa) && rbuf.view == old(rbuf.view)
      ensures old(Buffered(M(), r.lsa)) ==>
                && (forall l :: Buffered(M(), l) <==> old(Buffered(M(), l)))
                && ftl.arr.views == old(ftl.arr.views) && |ftl.journal.log| == |old(ftl.journal).log| + 1
      ensures ok && !old(Buffered(M(), r.lsa)) && LastClean(old(if r.Read? then rbuf.view else main.view)) ==>
                |ftl.journal.log| == |old(ftl.journal).log| + ReadsIn(r, old(ftl.l2v)) + 1
      ensures ok ==> Valid() && flat == Apply(old(flat), r) && Answers(old(flat), r, out)
      ensures ok ==> Used(old(ftl.arr.views), ftl.arr.views, ftl.pages, 1)
      ensures ok ==> Sending(old(ftl.journal), ftl.journal, 1)
      ensures ok && r.Read? ==> out == Cut(LastSent(ftl.journal), r.offset, r.count)
      ensures old(HasRoom(ftl.arr.views, ftl.pages, 1)) ==> ok
    {
      hide Valid, Ready, CanDisplace, Used, HasRoom, Sending, LastSent, Cut, Buffered, ServedFrom, Refreshed, TakenIn,
        LastClean, ReadsIn;
      ghost var j, m0 := ftl.journal, M();
      if HasRoom(ftl.arr.views, ftl.pages, 1) {
        RoomToDisplace(if r.Read? then RBUF else MAIN);
      }
      var k, e;
      ghost var m;
      ok, k, e, m := Attach(r);
      if !ok {
        return false, [];
      }
      SameFlat(m, k, e, r);
      ghost var j1, bufs := ftl.journal, M().bufs;
      Places(m0.bufs, bufs, r, k);
      out := Exchange(r, k, e, m);
      SendingTwice(j, j1, ftl.journal, 0, 1);
      ServedStill(m0.bufs, bufs, M().bufs, r, k);
      ServedTells(m0, M(), r, k);
    }
  }

  /** Entry e of buffer k is ready for a request: from the coherent contents m it took over
      the slice, with contents that agree with the host's array or will all be overwritten. */
  ghost predicate Attached<B>(m: Mem<B>, k: nat, e: nat, r: Request<B>, m1: Mem<B>) {
    && Coherent(m) && k < |m.bufs| == |m1.bufs| && e < |m.bufs[k].lsa| == |m.bufs[k].dirty| == |m.bufs[k].data|
    && CanTake(m, k, e, r.lsa) && (m.bufs[k].dirty[e] || OnFlash(m.flat, m.l2v, m.cells, r.lsa))
    && e < |m1.bufs[k].data| && |m1.bufs[k].data[e]| == NVME_BLOCKS_PER_SLICE
    && (Agrees(m.flat, r.lsa, m1.bufs[k].data[e]) || (r.Write? && |r.blocks| == NVME_BLOCKS_PER_SLICE))
    && m1.l2v == m.l2v && m1.cells == m.cells && m1.flat == m.flat
    && (forall j :: 0 <= j < |m.bufs| && j != k ==> m1.bufs[j] == m.bufs[j])
    && m1.bufs[k] == m.bufs[k].(lsa := m.bufs[k].lsa[e := Some(r.lsa)],
                                data := m.bufs[k].data[e := m1.bufs[k].data[e]], hand := None)
  }

  /** The contents after a request served from an entry that was ready for it. */
  lemma Served<B>(m: Mem<B>, k: nat, e: nat, r: Request<B>, m1: Mem<B>, m': Mem<B>)
    requires Attached(m, k, e, r, m1) && InSlice(r)
    requires m'.l2v == m.l2v && m'.cells == m.cells && m'.flat == Apply(m.flat, r)
    requires |m'.bufs| == |m.bufs| && forall j :: 0 <= j < |m.bufs| && j != k ==> m'.bufs[j] == m.bufs[j]
    requires r.Read? ==> m'.bufs[k] == m1.bufs[k]
    requires r.Write? ==>
               var v := m1.bufs[k];
               m'.bufs[k] == v.(dirty := v.dirty[e := true],
                 data := v.data[e := Overlaid(v.data[e], r.offset, r.blocks)])
    ensures Coherent(m')
    ensures r.Read? ==> Answers(m.flat, r, m1.bufs[k].data[e][r.offset..r.offset + r.count])
  {
    hide Coherent;
    var s := m1.bufs[k].data[e];
    var s', d := if r.Write? then Overlaid(s, r.offset, r.blocks) else s, r.Write? || m.bufs[k].dirty[e];
    if r.Write? {
      WriteAgrees(m.flat, r, s);
    }
    var v := Filled(m.bufs[k], e, r.lsa, s', d);
    FillKeeps(m, k, e, r.lsa, s', d, m'.flat);
    TouchCoherent(m.(bufs := m.bufs[k := v], flat := m'.flat), k, m'.bufs[k]);
    assert m' == m.(bufs := m.bufs[k := v], flat := m'.flat).(bufs := m.bufs[k := v][k := m'.bufs[k]]);
  }

  lemma EmptyCoherent<B>(m: Mem<B>, junk: nat -> seq<B>, mainEntries: nat, rbufEntries: nat)
    requires m.l2v == map[] && m.flat == map[] && |m.bufs| == 2
    requires Unused(m.bufs[MAIN], mainEntries, junk, 0) && Unused(m.bufs[RBUF], rbufEntries, junk, mainEntries)
    requires forall e: nat :: |junk(e)| == NVME_BLOCKS_PER_SLICE
    ensures Coherent(m)
  {
    assert forall k :: 0 <= k < |m.bufs| ==> Shaped(m.bufs[k]);
    forall k, l | 0 <= k < |m.bufs| ensures !Cached(m.bufs[k].lsa, l) {
    }
  }

  lemma NotThere<B>(m: Mem<B>, k: nat, e: nat, l: nat)
    requires k < |m.bufs| && e < |m.bufs[k].lsa| && !Buffered(m, l)
    ensures !Cached(m.bufs[k].lsa[e := None], l)
  {
    assert !Cached(m.bufs[k].lsa, l);
  }

  lemma HasSlice<B>(m: Mem<B>, k: nat, e: nat)
    requires Coherent(m) && k < |m.bufs| && e < |m.bufs[k].lsa|
    ensures |m.bufs[k].lsa| == |m.bufs[k].dirty| == |m.bufs[k].data|
    ensures |m.bufs[k].data[e]| == NVME_BLOCKS_PER_SLICE
    ensures m.bufs[k].dirty[e] ==> m.bufs[k].lsa[e].Some?
  {
    assert EntryOk(m, k, e) && Shaped(m.bufs[k]);
  }
}
