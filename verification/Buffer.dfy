/** A write-back buffer: entries on one LRU list and on hash chains by slice address.
    The main buffer and R-Buf are two instances. */
module Buffer {
  import opened Links
  import opened Basics

  /** What a buffer holds. An entry without a slice address has never been used;
      the entry in hand has been picked for reuse and is on no hash chain. */
  datatype View<+T> = View(lsa: seq<Option<nat>>, dirty: seq<bool>, data: seq<T>,
                           order: seq<nat>, used: seq<nat>, clock: nat, hand: Option<nat>)

  function Hash(l: nat, n: nat): (h: nat)
    requires 0 < n
    ensures h < n
  {
    l % n
  }

  /** The slice has a copy in the buffer. */
  ghost predicate Cached(lsa: seq<Option<nat>>, l: nat) {
    Some(l) in lsa
  }

  ghost predicate Unique(lsa: seq<Option<nat>>) {
    forall e, f :: 0 <= e < f < |lsa| && lsa[e].Some? ==> lsa[e] != lsa[f]
  }

  /** Entries in the order of their last use, the most recent first, none twice. */
  ghost predicate Recency(order: seq<nat>, used: seq<nat>, clock: nat) {
    && (forall i :: 0 <= i < |order| ==> order[i] < |used| && used[order[i]] < clock)
    && (forall i, j :: 0 <= i < j < |order| ==> used[order[i]] > used[order[j]])
  }

  /** Entry e has just been used. */
  ghost function Touched<T>(v: View<T>, e: nat): (r: View<T>)
    requires e < |v.used|
  {
    v.(order := [e] + Drop(v.order, e), used := v.used[e := v.clock], clock := v.clock + 1)
  }

  function Source(i: nat, j: nat): (k: nat)
    requires 0 < i
  {
    if i <= j then i - 1 else i
  }

  lemma FrontSorted(order: seq<nat>, used: seq<nat>, clock: nat, j: nat, order': seq<nat>)
    requires Recency(order, used, clock) && j < |order| == |order'| && order'[0] == order[j] < |used|
    requires forall i :: 1 <= i < |order'| ==> order'[i] == order[Source(i, j)]
    ensures Recency(order', used[order[j] := clock], clock + 1)
  {
    var used' := used[order[j] := clock];
    forall i | 1 <= i < |order'|
      ensures order'[i] < |used'| && order'[i] != order[j] && used'[order'[i]] == used[order[Source(i, j)]] < clock
    {
      assert used[order[Source(i, j)]] != used[order[j]];
    }
    forall i, k | 1 <= i < k < |order'| ensures used'[order'[i]] > used'[order'[k]] {
      assert used[order[Source(i, j)]] > used[order[Source(k, j)]];
    }
  }

  lemma OnlyAt(order: seq<nat>, used: seq<nat>, clock: nat, j: nat)
    requires Recency(order, used, clock) && j < |order|
    ensures order[j] < |used| && forall i :: 0 <= i < j ==> order[i] != order[j]
  {
    forall i | 0 <= i < j ensures order[i] != order[j] {
      assert used[order[i]] > used[order[j]];
    }
  }

  lemma FrontAt(order: seq<nat>, j: nat, i: nat)
    requires j < |order| && 1 <= i < |order|
    ensures ([order[j]] + Without(order, j))[i] == order[Source(i, j)]
  {
  }

  lemma TouchKeeps<T>(v: View<T>, e: nat, j: nat)
    requires Recency(v.order, v.used, v.clock) && j < |v.order| && v.order[j] == e < |v.used|
    ensures Touched(v, e).order == [e] + Without(v.order, j)
    ensures Recency(Touched(v, e).order, Touched(v, e).used, Touched(v, e).clock)
  {
    hide Drop, Recency;
    OnlyAt(v.order, v.used, v.clock, j);
    DropIsWithout(v.order, j);
    var order' := [e] + Without(v.order, j);
    assert |order'| == |v.order|;
    hide Without;
    forall i | 1 <= i < |order'| ensures order'[i] == v.order[Source(i, j)] {
      FrontAt(v.order, j, i);
    }
    FrontSorted(v.order, v.used, v.clock, j, order');
  }

  /** The entry at the end of the list is the one unused for longest. */
  lemma OldestLast(order: seq<nat>, used: seq<nat>, clock: nat, f: nat)
    requires Recency(order, used, clock) && f in order
    ensures f < |used| && order[|order|-1] < |used| && used[order[|order|-1]] <= used[f]
  {
    var i :| 0 <= i < |order| && order[i] == f;
  }

  lemma DropLast(order: seq<nat>, used: seq<nat>, clock: nat)
    requires Recency(order, used, clock) && order != []
    ensures Drop(order, order[|order|-1]) == order[..|order|-1]
  {
    var j := |order| - 1;
    OnlyAt(order, used, clock, j);
    DropIsWithout(order, j);
    assert Without(order, j) == order[..j];
  }

  ghost function InitialUse(n: nat): (used: seq<nat>) {
    seq(n, e requires 0 <= e < n => n - e)
  }

  lemma InitialOrder(n: nat)
    ensures |InitialUse(n)| == n && Recency(Iota(n), InitialUse(n), n + 1)
  {
  }

  class DataBuffer<T> {
    const n: nat
    const lsa: array<Option<nat>>
    const dirty: array<bool>
    const data: array<T>
    const lru: LinkTable
    const chains: LinkTable
    ghost var view: View<T>
    ghost const Repr: set<object>

    ghost predicate Shaped()
      reads this
    {
      && Repr == {this, lsa, dirty, data} + lru.Repr + chains.Repr
      && 0 < n && lsa.Length == dirty.Length == data.Length == n
      && lru.size == n && lru.count == 1 && chains.size == n && chains.count == n
      && lru.Repr !! chains.Repr
      && this !in lru.Repr && this !in chains.Repr
      && lsa !in lru.Repr && lsa !in chains.Repr && dirty !in lru.Repr && dirty !in chains.Repr
      && data !in lru.Repr && data !in chains.Repr
      && (lsa as object) != dirty && (lsa as object) != data && (dirty as object) != data
    }

    ghost predicate Chained(e: nat)
      requires e < lsa.Length && e < |chains.place| && 0 < n
      reads this, lsa, chains
    {
      if view.hand == Some(e) || lsa[e].None? then chains.place[e].Nowhere?
      else chains.place[e].At? && chains.place[e].list == Hash(lsa[e].value, n)
    }

    ghost predicate Valid()
      reads this, Repr
    {
      && Shaped() && lru.Valid() && chains.Valid()
      && (forall e :: 0 <= e < n ==> lru.place[e].At?)
      && (forall e :: 0 <= e < n ==> Chained(e))
      && (view.hand.Some? ==> view.hand.value < n)
      && Unique(view.lsa) && |view.used| == n && Recency(view.order, view.used, view.clock)
      && view.lsa == lsa[..] && view.dirty == dirty[..] && view.data == data[..] && view.order == lru.lists[0]
    }

    lemma NotEmpty()
      requires Valid()
      ensures 0 < n
    {
    }

    lemma HandShape()
      requires Valid() && view.hand.Some?
      ensures view.hand.value < n == |view.lsa|
    {
    }

    lemma Shape()
      requires Valid()
      ensures lsa.Length == dirty.Length == data.Length == n
      ensures view.lsa == lsa[..] && view.dirty == dirty[..] && view.data == data[..]
      ensures |view.used| == n && {this, lsa, dirty, data} <= Repr
    {
    }

    /** No slice cached, the entries in index order. */
    constructor (count: nat, initial: nat -> T)
      requires 0 < count <= NONE
      ensures Valid() && fresh(Repr) && n == count && view.hand == None
      ensures |view.lsa| == |view.dirty| == |view.data| == count
      ensures forall e :: 0 <= e < count ==> view.lsa[e] == None && !view.dirty[e] && view.data[e] == initial(e)
    {
      hide WellLinked, Recency, Unique, Valid, Iota, LinkTable.Valid, LinkTable.Detached;
      n := count;
      lsa := new Option<nat>[count](_ => None);
      dirty := new bool[count](_ => false);
      data := new T[count](e => initial(e));
      var byUse := new LinkTable.InOrder(count, 1, 0);
      var byHash := new LinkTable(count, count);
      lru, chains := byUse, byHash;
      Repr := {this, lsa, dirty, data} + byUse.Repr + byHash.Repr;
      new;
      assert lru.Repr !! chains.Repr;
      assert lsa.Length == dirty.Length == data.Length == n && Shaped();
      hide Shaped;
      Begin();
    }

    ghost method Begin()
      requires Shaped() && lru.Valid() && chains.Valid() && lru.lists[0] == Iota(n)
      requires forall e :: 0 <= e < n ==> lru.place[e].At? && chains.Detached(e) && lsa[e] == None
      modifies this`view
      ensures Valid() && view.hand == None && view.lsa == lsa[..] && view.dirty == dirty[..] && view.data == data[..]
    {
      hide WellLinked, Recency;
      InitialOrder(n);
      view := View(lsa[..], dirty[..], data[..], lru.lists[0], InitialUse(n), n + 1, None);
    }

    /** Which entries a chain holds. */
    lemma OnChain(h: nat, e: nat)
      requires Valid() && h < n
      ensures e in chains.lists[h] <==>
                e < n && view.hand != Some(e) && lsa[e].Some? && Hash(lsa[e].value, n) == h
      ensures e in chains.lists[h] <==> e < n && view.hand != Some(e) && lsa[e].Some? && lsa[e].value % n == h
    {
      if e < n {
        assert Chained(e);
      }
      if e in chains.lists[h] {
        var _ := chains.PlaceIn(h, e);
      }
    }

    lemma InLru(e: nat)
      requires Valid() && e < n
      ensures e in lru.lists[0] && lru.PlaceIn(0, e) < |lru.lists[0]|
    {
      assert lru.place[e].At?;
    }

    /** Move an entry to the front of the LRU list. */
    method Touch(e: nat)
      requires Valid() && e < n
      modifies Repr
      ensures Valid() && view == Touched(old(view), e)
    {
      hide WellLinked, Recency, Unique;
      InLru(e);
      ghost var j := lru.Unlink(0, e);
      lru.PutFront(0, e);
      TouchKeeps(view, e, j);
      view := Touched(view, e);
      forall f | 0 <= f < n ensures Chained(f) {
        assert old(Chained(f));
      }
    }

    /** Walk the chain of slice l. */
    method Find(l: nat) returns (e: int)
      requires Valid() && view.hand == None
      ensures e == NONE <==> !Cached(view.lsa, l)
      ensures e != NONE ==> 0 <= e < n && lsa[e] == Some(l)
    {
      hide WellLinked, Recency, Unique, Hash;
      var h := Hash(l, n);
      chains.EndTells(h);
      e := chains.head[h];
      ghost var j := 0;
      while e != NONE && lsa[e] != Some(l)
        invariant j <= |chains.lists[h]|
        invariant e == if j < |chains.lists[h]| then chains.lists[h][j] else NONE
        invariant j < |chains.lists[h]| ==> chains.lists[h][j] < n
        invariant forall i :: 0 <= i < j ==> chains.lists[h][i] < n && lsa[chains.lists[h][i]] != Some(l)
        decreases |chains.lists[h]| - j
      {
        chains.NeighboursTell(h, j);
        e := chains.next[e];
        j := j + 1;
      }
      if e == NONE && Cached(view.lsa, l) {
        CachedChained(l);
        assert false;
      }
    }

    lemma CachedChained(l: nat)
      requires Valid() && view.hand == None && Cached(view.lsa, l)
      ensures exists i :: 0 <= i < |chains.lists[Hash(l, n)]| &&
                chains.lists[Hash(l, n)][i] < n && lsa[chains.lists[Hash(l, n)][i]] == Some(l)
    {
      hide WellLinked, Recency, Unique, Hash;
      var f :| 0 <= f < |view.lsa| && view.lsa[f] == Some(l);
      OnChain(Hash(l, n), f);
    }

    /** Find the entry that holds slice l, making it the most recently used. */
    method CheckHit(l: nat) returns (r: Option<nat>)
      requires Valid() && view.hand == None
      modifies Repr
      ensures Valid()
      ensures r.Some? <==> Cached(old(view).lsa, l)
      ensures r.None? ==> view == old(view)
      ensures r.Some? ==> r.value < n && old(view).lsa[r.value] == Some(l) && view == Touched(old(view), r.value)
      ensures r.Some? ==> view.order == [r.value] + Drop(old(view).order, r.value)
    {
      hide WellLinked, Recency, Unique;
      var e := Find(l);
      if e == NONE {
        return None;
      }
      Touch(e);
      return Some(e);
    }

    /** Every entry is on the LRU list, and the last one is the one unused for longest. */
    lemma Oldest(f: nat)
      requires Valid() && f < n
      ensures f in view.order && view.order[|view.order|-1] < n
      ensures forall i, j :: 0 <= i < j < |view.order| ==> view.order[i] != view.order[j]
      ensures view.used[view.order[|view.order|-1]] <= view.used[f]
    {
      InLru(f);
      OldestLast(view.order, view.used, view.clock, f);
      forall j | 0 <= j < |view.order| ensures forall i :: 0 <= i < j ==> view.order[i] != view.order[j] {
        OnlyAt(view.order, view.used, view.clock, j);
      }
    }

    /** Pick the least recently used entry for reuse and take it off its hash chain. */
    method Allocate() returns (e: nat)
      requires Valid() && view.hand == None
      modifies Repr
      ensures Valid() && old(view).order != [] && e == old(view).order[|old(view).order|-1] < n
      ensures forall f :: 0 <= f < n ==> old(view).used[e] <= old(view).used[f]
      ensures view == Touched(old(view), e).(hand := Some(e))
      ensures view.order == [e] + old(view).order[..|old(view).order|-1]
    {
      forall f | 0 <= f < n
        ensures f in view.order && view.order[|view.order|-1] < n
        ensures view.used[view.order[|view.order|-1]] <= view.used[f]
      {
        Oldest(f);
      }
      hide WellLinked, Recency, Unique;
      assert view.order != [] by { assert 0 in view.order; }
      lru.EndTells(0);
      e := lru.tail[0];
      DropLast(view.order, view.used, view.clock);
      Touch(e);
      Unchain(e);
    }

    /** Take an entry off the chain of its slice, if it has one. */
    method Unchain(e: nat)
      requires Valid() && view.hand == None && e < n
      modifies Repr
      ensures Valid() && view == old(view).(hand := Some(e))
    {
      hide WellLinked, Recency, Unique;
      assert Chained(e);
      if lsa[e].Some? {
        OnChain(Hash(lsa[e].value, n), e);
        var _ := chains.Unlink(Hash(lsa[e].value, n), e);
      }
      view := view.(hand := Some(e));
      forall f | 0 <= f < n ensures Chained(f) {
        assert old(Chained(f));
      }
    }

    /** Give the entry in hand to slice l and put it on the chain of l. */
    method Tag(e: nat, l: nat)
      requires Valid() && view.hand == Some(e) && !Cached(view.lsa[e := None], l)
      modifies Repr
      ensures Valid() && view == old(view).(lsa := old(view).lsa[e := Some(l)], hand := None)
    {
      hide WellLinked, Recency;
      assert Chained(e);
      lsa[e] := Some(l);
      chains.PutTail(Hash(l, n), e);
      forall f | 0 <= f < n ensures f != e ==> view.lsa[f] != Some(l) && lsa[f] == view.lsa[f] {
        assert f != e ==> view.lsa[e := None][f] == view.lsa[f];
      }
      view := view.(lsa := view.lsa[e := Some(l)], hand := None);
      forall f | 0 <= f < n ensures Chained(f) {
        assert old(Chained(f));
      }
    }

    method SetData(e: nat, d: T)
      requires Valid() && e < n
      modifies Repr
      ensures Valid() && view == old(view).(data := old(view).data[e := d])
    {
      hide WellLinked, Recency, Unique;
      data[e] := d;
      view := view.(data := view.data[e := d]);
      forall f | 0 <= f < n ensures Chained(f) {
        assert old(Chained(f));
      }
    }

    method SetDirty(e: nat, d: bool)
      requires Valid() && e < n
      modifies Repr
      ensures Valid() && view == old(view).(dirty := old(view).dirty[e := d])
    {
      hide WellLinked, Recency, Unique;
      dirty[e] := d;
      view := view.(dirty := view.dirty[e := d]);
      forall f | 0 <= f < n ensures Chained(f) {
        assert old(Chained(f));
      }
    }
  }
}
