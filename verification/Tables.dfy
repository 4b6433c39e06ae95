/** The mapping tables as values: logical-to-virtual and virtual-to-logical slice maps
    over the dies, the invariant that ties them to the block records, and one lemma
    for each way the firmware changes them. */
module Tables {
  import opened Basics
  import opened Die

  /** A virtual slice address, as the triple the integer encodes. */
  datatype Vsa = Vsa(die: nat, block: nat, page: nat)

  /** An absent key stands for VSA_NONE in l2v and for LSA_NONE in v2l. */
  datatype Tables = Tables(dies: seq<DieView>, l2v: map<nat, Vsa>, v2l: map<Vsa, nat>)

  predicate InRange(t: Tables, v: Vsa) {
    v.die < |t.dies| && v.block < |t.dies[v.die].blocks|
  }

  function BlockOf(t: Tables, v: Vsa): (i: BlockInfo)
    requires InRange(t, v)
  {
    t.dies[v.die].blocks[v.block]
  }

  /** The logical slices whose current copy is in the given block: its valid slices. */
  ghost function Residents(l2v: map<nat, Vsa>, d: nat, b: nat): (r: set<nat>) {
    set l | l in l2v && l2v[l].die == d && l2v[l].block == b
  }

  /** Logical slice l sits on a programmed page whose reverse entry names l. */
  ghost predicate Located(t: Tables, l: nat)
    requires l in t.l2v
  {
    var v := t.l2v[l];
    InRange(t, v) && v.page < BlockOf(t, v).currentPage && v in t.v2l && t.v2l[v] == l
  }

  /** A free block holds nothing and is not being filled. A block in use is filled up
      unless it is the current one, and every page handed out is valid or counted invalid. */
  ghost predicate BlockOk(t: Tables, pages: nat, d: nat, b: nat)
    requires d < |t.dies| && b < |t.dies[d].blocks|
  {
    var i := t.dies[d].blocks[b];
    if i.free then
      i.currentPage == 0 && i.invalidSliceCnt == 0 && Residents(t.l2v, d, b) == {} && t.dies[d].current != b
    else
      && !i.bad && i.currentPage <= pages
      && (t.dies[d].current != b ==> i.currentPage == pages)
      && |Residents(t.l2v, d, b)| + i.invalidSliceCnt == i.currentPage
  }

  ghost predicate DieOk(v: DieView, pages: nat) {
    && v.current < |v.blocks| && |v.victims| == pages + 1
    && (v.hand.None? ==> |v.free| >= RESERVED_FREE_BLOCK_COUNT)
    && (v.hand.Some? ==> v.hand.value < |v.blocks| && !v.blocks[v.hand.value].free && !v.blocks[v.hand.value].bad)
  }

  /** The invariant of the tables; the accounting of a block in hand is left open. */
  ghost predicate Inv(t: Tables, pages: nat) {
    && (forall d :: 0 <= d < |t.dies| ==> DieOk(t.dies[d], pages))
    && (forall l :: l in t.l2v ==> Located(t, l))
    && (forall v :: v in t.v2l ==> InRange(t, v) && v.page < BlockOf(t, v).currentPage)
    && (forall d, b :: 0 <= d < |t.dies| && 0 <= b < |t.dies[d].blocks| && t.dies[d].hand != Some(b) ==>
          BlockOk(t, pages, d, b))
  }

  /** No two logical slices share a virtual slice. */
  lemma Injective(t: Tables, pages: nat, l: nat, m: nat)
    requires Inv(t, pages) && l in t.l2v && m in t.l2v && t.l2v[l] == t.l2v[m]
    ensures l == m
  {
    assert Located(t, l) && Located(t, m);
  }

  lemma ResidentsAdded(l2v: map<nat, Vsa>, l: nat, v: Vsa, d: nat, b: nat)
    requires l !in l2v
    ensures Residents(l2v[l := v], d, b) ==
            Residents(l2v, d, b) + (if v.die == d && v.block == b then {l} else {})
    ensures l !in Residents(l2v, d, b)
  {
  }

  lemma ResidentsRemoved(l2v: map<nat, Vsa>, l: nat, d: nat, b: nat)
    requires l in l2v
    ensures Residents(l2v - {l}, d, b) == Residents(l2v, d, b) - {l}
    ensures l in Residents(l2v, d, b) <==> l2v[l].die == d && l2v[l].block == b
  {
  }

  /** One die replaced in the tables. */
  function WithDie(t: Tables, d: nat, v: DieView): (r: Tables)
    requires d < |t.dies|
  {
    t.(dies := t.dies[d := v])
  }

  /** The tables after the old copy of logical slice l has been given up. */
  ghost function Unmapped(t: Tables, l: nat): (r: Tables)
    requires l in t.l2v && InRange(t, t.l2v[l])
    requires BlockOf(t, t.l2v[l]).invalidSliceCnt + 1 < |t.dies[t.l2v[l].die].victims|
  {
    var v := t.l2v[l];
    WithDie(t, v.die, Invalidated(t.dies[v.die], v.block)).(l2v := t.l2v - {l})
  }

  lemma CanUnmap(t: Tables, pages: nat, l: nat)
    requires Inv(t, pages) && l in t.l2v
    ensures InRange(t, t.l2v[l]) && l in Residents(t.l2v, t.l2v[l].die, t.l2v[l].block)
    ensures |t.dies[t.l2v[l].die].victims| == pages + 1
    ensures t.dies[t.l2v[l].die].hand == None ==>
              !BlockOf(t, t.l2v[l]).free && BlockOf(t, t.l2v[l]).invalidSliceCnt < pages
  {
    var v := t.l2v[l];
    assert Located(t, l);
    assert DieOk(t.dies[v.die], pages);
    if t.dies[v.die].hand == None {
      assert BlockOk(t, pages, v.die, v.block);
      assert |Residents(t.l2v, v.die, v.block) - {l}| >= 0;
    }
  }

  /** Giving up a copy turns one valid slice of its block into an invalid one. */
  lemma UnmapKeeps(t: Tables, pages: nat, l: nat)
    requires Inv(t, pages) && l in t.l2v
    requires forall d :: 0 <= d < |t.dies| ==> t.dies[d].hand == None
    requires InRange(t, t.l2v[l]) && BlockOf(t, t.l2v[l]).invalidSliceCnt < pages
    requires |t.dies[t.l2v[l].die].victims| == pages + 1
    ensures Inv(Unmapped(t, l), pages)
  {
    CanUnmap(t, pages, l);
    var v, t' := t.l2v[l], Unmapped(t, l);
    assert DieOk(t.dies[v.die], pages);
    forall m | m in t'.l2v ensures Located(t', m) {
      assert Located(t, m);
    }
    forall d, b | 0 <= d < |t'.dies| && 0 <= b < |t'.dies[d].blocks| ensures BlockOk(t', pages, d, b) {
      ResidentsRemoved(t.l2v, l, d, b);
      assert BlockOk(t, pages, d, b);
    }
  }

  /** The first free block becomes the current block. */
  ghost function Opened(v: DieView): (r: DieView)
    requires v.free != [] && v.free[0] < |v.blocks|
  {
    var b := v.free[0];
    v.(free := v.free[1..], current := b, blocks := v.blocks[b := v.blocks[b].(free := false)])
  }

  /** The next page of the current block of die d. */
  function NextPage(v: DieView, d: nat): (p: Vsa)
    requires v.current < |v.blocks|
  {
    Vsa(d, v.current, v.blocks[v.current].currentPage)
  }

  ghost predicate CanOpen(v: DieView, pages: nat) {
    && v.free != [] && v.free[0] < |v.blocks| && v.current < |v.blocks|
    && v.blocks[v.free[0]].free && !v.blocks[v.free[0]].bad && v.hand != Some(v.free[0])
    && (v.hand == Some(v.current) || v.blocks[v.current].currentPage == pages)
    && (v.hand == None ==> |v.free| > RESERVED_FREE_BLOCK_COUNT)
  }

  lemma OpenKeeps(t: Tables, pages: nat, d: nat)
    requires Inv(t, pages) && d < |t.dies| && CanOpen(t.dies[d], pages)
    ensures Inv(WithDie(t, d, Opened(t.dies[d])), pages) && NextPage(Opened(t.dies[d]), d).page == 0
  {
    var t' := WithDie(t, d, Opened(t.dies[d]));
    assert DieOk(t.dies[d], pages) && BlockOk(t, pages, d, t.dies[d].free[0]);
    forall m | m in t'.l2v ensures Located(t', m) {
      assert Located(t, m);
    }
    forall e, b | 0 <= e < |t'.dies| && 0 <= b < |t'.dies[e].blocks| && t'.dies[e].hand != Some(b)
      ensures BlockOk(t', pages, e, b)
    {
      assert BlockOk(t, pages, e, b);
    }
  }

  /** One more page of the current block handed out. */
  ghost function Advanced(v: DieView): (r: DieView)
    requires v.current < |v.blocks|
  {
    var i := v.blocks[v.current];
    v.(blocks := v.blocks[v.current := i.(currentPage := i.currentPage + 1)])
  }

  /** Logical slice l, unmapped before, gets the next page of the current block of die d. */
  ghost function Placed(t: Tables, d: nat, l: nat): (r: Tables)
    requires d < |t.dies| && t.dies[d].current < |t.dies[d].blocks|
  {
    var p := NextPage(t.dies[d], d);
    Tables(t.dies[d := Advanced(t.dies[d])], t.l2v[l := p], t.v2l[p := l])
  }

  lemma PlaceAccounts(t: Tables, pages: nat, d: nat, l: nat, e: nat, b: nat)
    requires d < |t.dies| && t.dies[d].current < |t.dies[d].blocks| && l !in t.l2v
    requires e < |t.dies| && b < |t.dies[e].blocks| && BlockOk(t, pages, e, b)
    requires NextPage(t.dies[d], d).page < pages
    ensures BlockOk(Placed(t, d, l), pages, e, b)
  {
    ResidentsAdded(t.l2v, l, NextPage(t.dies[d], d), e, b);
  }

  lemma PlaceLocates(t: Tables, pages: nat, d: nat, l: nat, m: nat)
    requires d < |t.dies| && t.dies[d].current < |t.dies[d].blocks| && l !in t.l2v && NextPage(t.dies[d], d) !in t.v2l
    requires m == l || (m in t.l2v && Located(t, m))
    ensures Located(Placed(t, d, l), m)
  {
  }

  lemma PlaceKeeps(t: Tables, pages: nat, d: nat, l: nat)
    requires Inv(t, pages) && d < |t.dies| && t.dies[d].current < |t.dies[d].blocks| && l !in t.l2v
    requires t.dies[d].hand != Some(t.dies[d].current) && NextPage(t.dies[d], d).page < pages
    ensures Inv(Placed(t, d, l), pages)
  {
    var t', p := Placed(t, d, l), NextPage(t.dies[d], d);
    assert DieOk(t.dies[d], pages) && BlockOk(t, pages, d, t.dies[d].current);
    assert p !in t.v2l;
    hide BlockOk, Located;
    forall m | m in t'.l2v ensures Located(t', m) {
      PlaceLocates(t, pages, d, l, m);
    }
    forall e, b | 0 <= e < |t'.dies| && 0 <= b < |t'.dies[e].blocks| && t'.dies[e].hand != Some(b)
      ensures BlockOk(t', pages, e, b)
    {
      PlaceAccounts(t, pages, d, l, e, b);
    }
  }

  ghost predicate NoInvalidSlice(v: DieView) {
    forall k :: 0 < k < |v.victims| ==> v.victims[k] == []
  }

  /** Block b is taken off its bucket. */
  ghost function TakenOut(v: DieView, b: nat, victims: seq<seq<nat>>): (r: DieView) {
    v.(victims := victims, hand := Some(b))
  }

  lemma TakeOutKeeps(t: Tables, pages: nat, d: nat, b: nat, victims: seq<seq<nat>>)
    requires Inv(t, pages) && d < |t.dies| && t.dies[d].hand == None
    requires b < |t.dies[d].blocks| && !t.dies[d].blocks[b].free && |victims| == pages + 1
    ensures Inv(WithDie(t, d, TakenOut(t.dies[d], b, victims)), pages) && !t.dies[d].blocks[b].bad
    ensures |Residents(t.l2v, d, b)| + t.dies[d].blocks[b].invalidSliceCnt == t.dies[d].blocks[b].currentPage
    ensures t.dies[d].current != b ==> t.dies[d].blocks[b].currentPage == pages
  {
    var t' := WithDie(t, d, TakenOut(t.dies[d], b, victims));
    assert DieOk(t.dies[d], pages) && BlockOk(t, pages, d, b);
    forall m | m in t'.l2v ensures Located(t', m) {
      assert Located(t, m);
    }
    forall e, c | 0 <= e < |t'.dies| && 0 <= c < |t'.dies[e].blocks| && t'.dies[e].hand != Some(c)
      ensures BlockOk(t', pages, e, c)
    {
      assert BlockOk(t, pages, e, c);
    }
  }

  /** Dropping a slice from the forward map, with its block in hand, keeps the invariant. */
  lemma LiftKeeps(t: Tables, pages: nat, l: nat)
    requires Inv(t, pages) && l in t.l2v && InRange(t, t.l2v[l]) && t.dies[t.l2v[l].die].hand == Some(t.l2v[l].block)
    ensures Inv(t.(l2v := t.l2v - {l}), pages)
  {
    var t' := t.(l2v := t.l2v - {l});
    forall m | m in t'.l2v ensures Located(t', m) {
      assert Located(t, m);
    }
    forall e, b | 0 <= e < |t'.dies| && 0 <= b < |t'.dies[e].blocks| && t'.dies[e].hand != Some(b)
      ensures BlockOk(t', pages, e, b)
    {
      ResidentsRemoved(t.l2v, l, e, b);
      assert BlockOk(t, pages, e, b);
    }
  }

  /** Block b has been erased and queued as free. */
  ghost function Recycled(v: DieView, b: nat): (r: DieView)
    requires b < |v.blocks|
  {
    v.(blocks := v.blocks[b := BlockInfo(false, true, 0, 0)], free := v.free + [b], hand := None)
  }

  /** The reverse map without the entries of a block. */
  ghost function Cleared(v2l: map<Vsa, nat>, d: nat, b: nat): (r: map<Vsa, nat>) {
    map u | u in v2l && !(u.die == d && u.block == b) :: v2l[u]
  }

  ghost function Erased(t: Tables, d: nat, b: nat): (r: Tables)
    requires d < |t.dies| && b < |t.dies[d].blocks|
  {
    WithDie(t, d, Recycled(t.dies[d], b)).(v2l := Cleared(t.v2l, d, b))
  }

  lemma EraseKeeps(t: Tables, pages: nat, d: nat, b: nat)
    requires Inv(t, pages) && d < |t.dies| && t.dies[d].hand == Some(b) && b < |t.dies[d].blocks|
    requires Residents(t.l2v, d, b) == {} && t.dies[d].current != b
    ensures Inv(Erased(t, d, b), pages)
  {
    var t' := Erased(t, d, b);
    assert DieOk(t.dies[d], pages);
    forall m | m in t'.l2v ensures Located(t', m) {
      assert Located(t, m);
      assert m !in Residents(t.l2v, d, b);
    }
    forall e, c | 0 <= e < |t'.dies| && 0 <= c < |t'.dies[e].blocks| && t'.dies[e].hand != Some(c)
      ensures BlockOk(t', pages, e, c)
    {
      assert (e, c) != (d, b) ==> BlockOk(t, pages, e, c);
    }
  }

  /** Erasing a block that is still the current one always breaks the invariant. */
  lemma EraseBreaks(t: Tables, pages: nat, d: nat, b: nat)
    requires d < |t.dies| && b < |t.dies[d].blocks| && t.dies[d].current == b
    ensures !Inv(Erased(t, d, b), pages)
  {
    assert !BlockOk(Erased(t, d, b), pages, d, b);
  }
}
