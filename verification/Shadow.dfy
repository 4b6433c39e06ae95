/** The journal beside the flash pages: which low-level requests stand behind the contents. */
module Shadow {
  import opened Basics
  import opened Requests
  import opened Serial
  import opened Journal
  import Tables

  type Vsa = Tables.Vsa

  /** Blocks of all dies numbered through. */
  function BlockNo(v: Vsa, dies: nat): (b: nat) {
    v.block * dies + v.die
  }

  lemma RowsApart(a: nat, x: nat, b: nat, dies: nat)
    requires a < b && x < dies
    ensures a * dies + x < b * dies
  {
    var k := b - a - 1;
    assert b * dies == a * dies + k * dies + dies;
    assert k * dies >= 0;
  }

  lemma BlockNoTells(u: Vsa, v: Vsa, dies: nat)
    requires u.die < dies && v.die < dies && BlockNo(u, dies) == BlockNo(v, dies)
    ensures u.die == v.die && u.block == v.block
  {
    if u.block < v.block {
      RowsApart(u.block, u.die, v.block, dies);
    } else if v.block < u.block {
      RowsApart(v.block, v.die, u.block, dies);
    }
  }

  /** The pages programmed are those the requests leave programmed, with what they leave there. */
  ghost predicate Mirrors<T>(cells: map<Vsa, T>, j: Journal<T>, dies: nat) {
    && Total(j.mem)
    && (forall v :: v in cells ==> v.die < dies && j.mem.flash[(BlockNo(v, dies), v.page)] == cells[v])
    && (forall v: Vsa :: v.die < dies ==> (v in cells <==> v.page < Filled(j.log, BlockNo(v, dies))))
  }

  ghost predicate Journaled<T>(cells: map<Vsa, T>, j: Journal<T>, dies: nat, pages: nat) {
    Sound(j, pages) && Mirrors(cells, j, dies)
  }

  /** More requests have been submitted. */
  ghost predicate Extends<T>(j: Journal<T>, j': Journal<T>) {
    j.log <= j'.log && j.fills <= j'.fills && j'.start == j.start && j'.blank == j.blank
  }

  /** Requests submitted meanwhile have touched only buffers below n, and sent nothing. */
  ghost predicate KeptFrom<T>(n: nat, j: Journal<T>, j': Journal<T>) {
    && Extends(j, j') && Total(j.mem) && Total(j'.mem)
    && j'.mem.sent == j.mem.sent && forall k: nat :: k >= n ==> j'.mem.bufs[k] == j.mem.bufs[k]
  }

  lemma KeptTwice<T>(n: nat, a: Journal<T>, b: Journal<T>, c: Journal<T>)
    requires KeptFrom(n, a, b) && KeptFrom(n, b, c)
    ensures KeptFrom(n, a, c)
  {
  }

  lemma KeptAll<T>(cells: map<Vsa, T>, j: Journal<T>, dies: nat, pages: nat)
    requires Journaled(cells, j, dies, pages)
    ensures Total(j.mem) && KeptFrom(dies, j, j)
  {
  }

  lemma NothingYet<T>(j: Journal<T>, dies: nat, pages: nat)
    requires j.log == [] && j.fills == [] && Total(j.start) && j.mem == j.start
    ensures Journaled<T>(map[], j, dies, pages)
  {
  }

  ghost function Same<T>(): (f: T -> T) {
    (d: T) => d
  }

  ghost function Blanked<T>(cells: map<Vsa, T>, d: nat, b: nat): (r: map<Vsa, T>) {
    map u | u in cells && !(u.die == d && u.block == b) :: cells[u]
  }

  lemma FilledMore(log: seq<Req>, r: Req, b: nat)
    ensures Filled(log + [r], b) ==
            if r.kind.Write? && r.kind.block == b then Filled(log, b) + 1
            else if r.kind.Erase? && r.kind.block == b then 0 else Filled(log, b)
  {
    assert (log + [r])[..|log|] == log;
  }

  lemma DmaEffect<T>(j: Journal<T>, buf: nat, f: T -> T, pages: nat)
    requires Sound(j, pages) && Total(j.mem)
    ensures Noted(j, Dma, Some(buf), f).mem == j.mem.(bufs := j.mem.bufs[buf := f(j.mem.bufs[buf])],
              sent := j.mem.sent[|j.log| := j.mem.bufs[buf]])
  {
    assert |j.fills| == |j.log| && (j.fills + [f])[|j.log|] == f;
  }

  /** A request that neither programs nor erases leaves the pages alone. */
  lemma SameCells<T>(cells: map<Vsa, T>, j: Journal<T>, n: Journal<T>, dies: nat)
    requires Mirrors(cells, j, dies) && Total(n.mem) && n.mem.flash == j.mem.flash
    requires |n.log| == |j.log| + 1 && n.log[..|j.log|] == j.log
    requires !n.log[|j.log|].kind.Write? && !n.log[|j.log|].kind.Erase?
    ensures Mirrors(cells, n, dies)
  {
    assert n.log == j.log + [n.log[|j.log|]];
    forall u: Vsa ensures Filled(n.log, BlockNo(u, dies)) == Filled(j.log, BlockNo(u, dies)) {
      FilledMore(j.log, n.log[|j.log|], BlockNo(u, dies));
    }
    hide Filled, BlockNo;
  }

  /** A page read into a buffer. */
  lemma ReadNoted<T>(cells: map<Vsa, T>, j: Journal<T>, dies: nat, pages: nat, v: Vsa, buf: nat)
    requires Journaled(cells, j, dies, pages) && v in cells
    ensures Total(j.mem)
    ensures var n := Noted(j, Read(BlockNo(v, dies), v.page), Some(buf), Same());
            && Journaled(cells, n, dies, pages)
            && n.mem == j.mem.(bufs := j.mem.bufs[buf := cells[v]])
            && Extends(j, n) && Sourced(n.log, buf) && (buf < dies ==> KeptFrom(dies, j, n))
  {
    var k := Read(BlockNo(v, dies), v.page);
    NoteSound(j, k, Some(buf), Same(), pages);
    NowSourced(j, k, buf, Same());
    hide Sound, Sourced;
    var n := Noted(j, k, Some(buf), Same());
    SameCells(cells, j, n, dies);
  }

  /** The next page of a block programmed from a buffer. */
  lemma ProgramNoted<T>(cells: map<Vsa, T>, j: Journal<T>, dies: nat, pages: nat, v: Vsa, buf: nat)
    requires Journaled(cells, j, dies, pages) && v.die < dies && v.page < pages
    requires v !in cells && (v.page > 0 ==> v.(page := v.page - 1) in cells) && Sourced(j.log, buf)
    ensures Total(j.mem)
    ensures var n := Noted(j, Write(BlockNo(v, dies), v.page), Some(buf), Same());
            && Journaled(cells[v := j.mem.bufs[buf]], n, dies, pages)
            && KeptFrom(dies, j, n)
  {
    hide BlockNo, Filled;
    var k := Write(BlockNo(v, dies), v.page);
    PageDue(cells, j, dies, v);
    NoteSound(j, k, Some(buf), Same(), pages);
    hide Sound;
    var n := Noted(j, k, Some(buf), Same());
    forall u: Vsa | u.die < dies
      ensures Filled(n.log, BlockNo(u, dies)) ==
              Filled(j.log, BlockNo(u, dies)) + (if u.die == v.die && u.block == v.block then 1 else 0)
      ensures BlockNo(u, dies) == BlockNo(v, dies) <==> u.die == v.die && u.block == v.block
    {
      FilledMore(j.log, n.log[|j.log|], BlockNo(u, dies));
      NumbersTell(u, v, dies);
    }
  }

  lemma NumbersTell(u: Vsa, v: Vsa, dies: nat)
    requires u.die < dies && v.die < dies
    ensures BlockNo(u, dies) == BlockNo(v, dies) <==> u.die == v.die && u.block == v.block
  {
    if BlockNo(u, dies) == BlockNo(v, dies) {
      BlockNoTells(u, v, dies);
    }
  }

  lemma PageDue<T>(cells: map<Vsa, T>, j: Journal<T>, dies: nat, v: Vsa)
    requires Mirrors(cells, j, dies) && v.die < dies
    requires v !in cells && (v.page > 0 ==> v.(page := v.page - 1) in cells)
    ensures v.page == Filled(j.log, BlockNo(v, dies))
  {
    if v.page > 0 {
      assert BlockNo(v.(page := v.page - 1), dies) == BlockNo(v, dies);
    }
  }

  /** A full block erased. */
  lemma EraseNoted<T>(cells: map<Vsa, T>, j: Journal<T>, dies: nat, pages: nat, d: nat, b: nat)
    requires Journaled(cells, j, dies, pages) && d < dies
    requires forall p: nat :: Tables.Vsa(d, b, p) in cells <==> p < pages
    ensures Total(j.mem)
    ensures var n := Noted(j, Erase(BlockNo(Tables.Vsa(d, b, 0), dies), pages), None, Same());
            && Journaled(Blanked(cells, d, b), n, dies, pages)
            && KeptFrom(dies, j, n)
  {
    var v := Tables.Vsa(d, b, 0);
    var k := Erase(BlockNo(v, dies), pages);
    FullyFilled(cells, j, dies, pages, d, b);
    NoteSound(j, k, None, Same(), pages);
    hide Sound;
    var n := Noted(j, k, None, Same());
    forall u: Vsa | u.die < dies
      ensures Filled(n.log, BlockNo(u, dies)) ==
              if u.die == d && u.block == b then 0 else Filled(j.log, BlockNo(u, dies))
    {
      FilledMore(j.log, n.log[|j.log|], BlockNo(u, dies));
      if BlockNo(u, dies) == BlockNo(v, dies) {
        BlockNoTells(u, v, dies);
      }
    }
    forall u | u in Blanked(cells, d, b) ensures BlockNo(u, dies) != BlockNo(v, dies) {
      if BlockNo(u, dies) == BlockNo(v, dies) {
        BlockNoTells(u, v, dies);
      }
    }
  }

  lemma FullyFilled<T>(cells: map<Vsa, T>, j: Journal<T>, dies: nat, pages: nat, d: nat, b: nat)
    requires Mirrors(cells, j, dies) && d < dies
    requires forall p: nat :: Tables.Vsa(d, b, p) in cells <==> p < pages
    ensures Filled(j.log, BlockNo(Tables.Vsa(d, b, 0), dies)) == pages
  {
    var n := Filled(j.log, BlockNo(Tables.Vsa(d, b, 0), dies));
    assert forall p: nat :: BlockNo(Tables.Vsa(d, b, p), dies) == BlockNo(Tables.Vsa(d, b, 0), dies);
    assert Tables.Vsa(d, b, n) !in cells;
    assert n > 0 ==> Tables.Vsa(d, b, n - 1) in cells;
  }

  /** A buffer sent to the host, or filled by it. */
  lemma DmaNoted<T>(cells: map<Vsa, T>, j: Journal<T>, dies: nat, pages: nat, buf: nat, f: T -> T)
    requires Journaled(cells, j, dies, pages)
    ensures Total(j.mem)
    ensures var n := Noted(j, Dma, Some(buf), f);
            && Journaled(cells, n, dies, pages)
            && Extends(j, n) && |n.log| == |j.log| + 1 && Sourced(n.log, buf)
            && n.mem == j.mem.(bufs := j.mem.bufs[buf := f(j.mem.bufs[buf])],
              sent := j.mem.sent[|j.log| := j.mem.bufs[buf]])
  {
    NoteSound(j, Dma, Some(buf), f, pages);
    NowSourced(j, Dma, buf, f);
    DmaEffect(j, buf, f, pages);
    hide Sound, Sourced;
    var n := Noted(j, Dma, Some(buf), f);
    SameCells(cells, j, n, dies);
  }
}
