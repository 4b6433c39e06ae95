/** Doubly linked lists embedded in fixed arrays.

    The firmware keeps every queue the same way: entries of one table carry a
    previous and a next index, several lists share those two fields, and each
    list has a head and a tail index, with 0xffff for "none". Blocks of a die
    (free list and victim buckets), buffer entries (LRU list, hash chains),
    request slots (all request queues) and ways (seven way lists) are all
    instances of this table. */
module Links {
  import opened Basics

  const NONE: int := 0xffff

  /** Where an entry currently is: on no list, or at an index of a list. */
  datatype Place = Nowhere | At(list: nat, index: nat)

  ghost function Iota(n: nat): (s: seq<nat>)
    ensures |s| == n && forall i :: 0 <= i < n ==> s[i] == i
  {
    seq(n, i => i)
  }

  /** The places after the entries of list k from index `from` on moved by `delta`. */
  ghost function Shift(p: seq<Place>, k: nat, from: nat, delta: int): (r: seq<Place>)
    requires from + delta >= 0
  {
    seq(|p|, y requires 0 <= y < |p| =>
      if p[y].At? && p[y].list == k && p[y].index >= from then At(k, p[y].index + delta) else p[y])
  }

  /** Entry number i of list k, whose contents are s, is recorded there and holds the right links. */
  ghost predicate Linked(s: seq<nat>, i: nat, k: nat, place: seq<Place>, prev: seq<int>, next: seq<int>)
    requires i < |s| && |place| == |prev| == |next|
  {
    var x := s[i];
    && x < |place|
    && place[x] == At(k, i)
    && prev[x] == (if i == 0 then NONE else s[i-1])
    && next[x] == (if i == |s| - 1 then NONE else s[i+1])
  }

  ghost predicate EndsOf(s: seq<nat>, h: int, t: int) {
    && h == (if s == [] then NONE else s[0])
    && t == (if s == [] then NONE else s[|s|-1])
  }

  ghost predicate Ends(lists: seq<seq<nat>>, head: seq<int>, tail: seq<int>) {
    && |lists| == |head| == |tail|
    && forall k :: 0 <= k < |lists| ==> EndsOf(lists[k], head[k], tail[k])
  }

  ghost predicate Chains(lists: seq<seq<nat>>, place: seq<Place>, prev: seq<int>, next: seq<int>) {
    && |place| == |prev| == |next| <= NONE
    && forall k, i :: 0 <= k < |lists| && 0 <= i < |lists[k]| ==> Linked(lists[k], i, k, place, prev, next)
  }

  ghost predicate Places(lists: seq<seq<nat>>, place: seq<Place>) {
    forall x :: 0 <= x < |place| && place[x].At? ==>
      place[x].list < |lists| && place[x].index < |lists[place[x].list]| &&
      lists[place[x].list][place[x].index] == x
  }

  /** The links, heads and tails spell out exactly the given lists, which are disjoint
      and without repetition because every entry has one place. */
  ghost predicate WellLinked(lists: seq<seq<nat>>, place: seq<Place>,
                             prev: seq<int>, next: seq<int>, head: seq<int>, tail: seq<int>)
  {
    Chains(lists, place, prev, next) && Ends(lists, head, tail) && Places(lists, place)
  }

  /** The links after x has been bypassed by its two neighbours. */
  ghost predicate Bypassed(x: nat, prev: seq<int>, next: seq<int>, prev': seq<int>, next': seq<int>)
    requires x < |prev| == |next|
  {
    && |prev'| == |next'| == |prev|
    && (forall y :: 0 <= y < |prev| ==> next'[y] == if y == prev[x] then next[x] else next[y])
    && (forall y :: 0 <= y < |prev| ==> prev'[y] == if y == next[x] then prev[x] else prev[y])
  }

  /** The links of entry i of list m once entry j of list k is bypassed. */
  lemma BypassLink(lists: seq<seq<nat>>, place: seq<Place>, k: nat, j: nat, m: nat, i: nat,
                   prev: seq<int>, next: seq<int>, prev': seq<int>, next': seq<int>)
    requires Chains(lists, place, prev, next) && k < |lists| && j < |lists[k]| && m < |lists| && i < |lists[m]|
    requires (m, i) != (k, j) && lists[k][j] < |place| && Bypassed(lists[k][j], prev, next, prev', next')
    ensures var o := if m == k && i > j then i - 1 else i;
            Linked(lists[k := Without(lists[k], j)][m], o, m, Shift(place, k, j + 1, -1)[lists[k][j] := Nowhere],
              prev', next')
  {
    var s := lists[k];
    assert Linked(s, j, k, place, prev, next) && Linked(lists[m], i, m, place, prev, next);
    assert j > 0 ==> Linked(s, j - 1, k, place, prev, next);
    assert j + 1 < |s| ==> Linked(s, j + 1, k, place, prev, next);
  }

  lemma BypassChains(lists: seq<seq<nat>>, place: seq<Place>, k: nat, j: nat,
                     prev: seq<int>, next: seq<int>, prev': seq<int>, next': seq<int>)
    requires Chains(lists, place, prev, next) && k < |lists| && j < |lists[k]|
    requires lists[k][j] < |place| && Bypassed(lists[k][j], prev, next, prev', next')
    ensures Chains(lists[k := Without(lists[k], j)], Shift(place, k, j + 1, -1)[lists[k][j] := Nowhere], prev', next')
  {
    assert |prev'| == |next'| == |place|;
    hide Linked, Bypassed;
    var lists', place' := lists[k := Without(lists[k], j)], Shift(place, k, j + 1, -1)[lists[k][j] := Nowhere];
    forall m, i | 0 <= m < |lists'| && 0 <= i < |lists'[m]|
      ensures Linked(lists'[m], i, m, place', prev', next')
    {
      BypassLink(lists, place, k, j, m, if m == k && i >= j then i + 1 else i, prev, next, prev', next');
    }
  }

  lemma BypassPlaces(lists: seq<seq<nat>>, place: seq<Place>, k: nat, j: nat, prev: seq<int>, next: seq<int>)
    requires Chains(lists, place, prev, next) && Places(lists, place) && k < |lists| && j < |lists[k]|
    requires lists[k][j] < |place|
    ensures Places(lists[k := Without(lists[k], j)], Shift(place, k, j + 1, -1)[lists[k][j] := Nowhere])
  {
    assert Linked(lists[k], j, k, place, prev, next);
  }

  lemma BypassEnds(lists: seq<seq<nat>>, place: seq<Place>, k: nat, j: nat,
                   prev: seq<int>, next: seq<int>, head: seq<int>, tail: seq<int>, head': seq<int>, tail': seq<int>)
    requires Chains(lists, place, prev, next) && Ends(lists, head, tail) && k < |lists| && j < |lists[k]|
    requires lists[k][j] < |place|
    requires head' == if prev[lists[k][j]] == NONE then head[k := next[lists[k][j]]] else head
    requires tail' == if next[lists[k][j]] == NONE then tail[k := prev[lists[k][j]]] else tail
    ensures Ends(lists[k := Without(lists[k], j)], head', tail')
  {
    var s := lists[k];
    assert EndsOf(s, head[k], tail[k]);
    assert Linked(s, j, k, place, prev, next);
    assert j > 0 ==> Linked(s, j - 1, k, place, prev, next);
    assert j + 1 < |s| ==> Linked(s, j + 1, k, place, prev, next);
  }

  /** Bypassing entry j of list k leaves every list as it was, list k without that entry. */
  lemma BypassKeeps(lists: seq<seq<nat>>, place: seq<Place>, k: nat, j: nat,
                    prev: seq<int>, next: seq<int>, head: seq<int>, tail: seq<int>,
                    prev': seq<int>, next': seq<int>, head': seq<int>, tail': seq<int>)
    requires WellLinked(lists, place, prev, next, head, tail) && k < |lists| && j < |lists[k]|
    requires lists[k][j] < |place| && Bypassed(lists[k][j], prev, next, prev', next')
    requires head' == if prev[lists[k][j]] == NONE then head[k := next[lists[k][j]]] else head
    requires tail' == if next[lists[k][j]] == NONE then tail[k := prev[lists[k][j]]] else tail
    ensures WellLinked(lists[k := Without(lists[k], j)], Shift(place, k, j + 1, -1)[lists[k][j] := Nowhere],
                       prev', next', head', tail')
  {
    hide Ends, Places, Linked, Bypassed;
    BypassChains(lists, place, k, j, prev, next, prev', next');
    BypassPlaces(lists, place, k, j, prev, next);
    BypassEnds(lists, place, k, j, prev, next, head, tail, head', tail');
  }

  /** The links after x has been put at one end of list k. */
  ghost predicate Joined(s: seq<nat>, x: nat, front: bool, prev: seq<int>, next: seq<int>, prev': seq<int>,
                         next': seq<int>)
    requires x < |prev| == |next|
  {
    && |prev'| == |next'| == |prev|
    && (forall y :: 0 <= y < |prev| ==>
          prev'[y] == if y == x then (if front || s == [] then NONE else s[|s|-1])
                      else if front && s != [] && y == s[0] then x else prev[y])
    && (forall y :: 0 <= y < |prev| ==>
          next'[y] == if y == x then (if !front || s == [] then NONE else s[0])
                      else if !front && s != [] && y == s[|s|-1] then x else next[y])
  }

  ghost function JoinedList(s: seq<nat>, x: nat, front: bool): seq<nat> {
    if front then [x] + s else s + [x]
  }

  ghost function JoinedPlace(place: seq<Place>, k: nat, n: nat, x: nat, front: bool): seq<Place>
    requires x < |place|
  {
    if front then Shift(place, k, 0, 1)[x := At(k, 0)] else place[x := At(k, n)]
  }

  lemma JoinLink(lists: seq<seq<nat>>, place: seq<Place>, k: nat, x: nat, front: bool, m: nat, i: nat,
                 prev: seq<int>, next: seq<int>, prev': seq<int>, next': seq<int>)
    requires Chains(lists, place, prev, next) && k < |lists| && x < |place| && place[x].Nowhere? && m < |lists|
    requires Joined(lists[k], x, front, prev, next, prev', next')
    requires i < |lists[k := JoinedList(lists[k], x, front)][m]|
    ensures Linked(lists[k := JoinedList(lists[k], x, front)][m], i, m, JoinedPlace(place, k, |lists[k]|, x, front),
            prev', next')
  {
    var s := lists[k];
    assert s != [] ==> Linked(s, 0, k, place, prev, next) && Linked(s, |s| - 1, k, place, prev, next);
    assert m != k ==> Linked(lists[m], i, m, place, prev, next);
    assert m == k && !front && i < |s| ==> Linked(s, i, k, place, prev, next);
    assert m == k && front && i > 0 ==> Linked(s, i - 1, k, place, prev, next);
  }

  lemma JoinEnds(lists: seq<seq<nat>>, k: nat, x: nat, front: bool, head: seq<int>, tail: seq<int>, head': seq<int>,
                 tail': seq<int>)
    requires Ends(lists, head, tail) && k < |lists|
    requires head' == if front || lists[k] == [] then head[k := x] else head
    requires tail' == if !front || lists[k] == [] then tail[k := x] else tail
    ensures Ends(lists[k := JoinedList(lists[k], x, front)], head', tail')
  {
    assert EndsOf(lists[k], head[k], tail[k]);
  }

  lemma JoinPlaces(lists: seq<seq<nat>>, place: seq<Place>, k: nat, x: nat, front: bool)
    requires Places(lists, place) && k < |lists| && x < |place|
    ensures Places(lists[k := JoinedList(lists[k], x, front)], JoinedPlace(place, k, |lists[k]|, x, front))
  {
  }

  /** Putting an entry that is on no list at either end of list k. */
  lemma JoinKeeps(lists: seq<seq<nat>>, place: seq<Place>, k: nat, x: nat, front: bool,
                  prev: seq<int>, next: seq<int>, head: seq<int>, tail: seq<int>,
                  prev': seq<int>, next': seq<int>, head': seq<int>, tail': seq<int>)
    requires WellLinked(lists, place, prev, next, head, tail) && k < |lists| && x < |place| && place[x].Nowhere?
    requires Joined(lists[k], x, front, prev, next, prev', next')
    requires head' == if front || lists[k] == [] then head[k := x] else head
    requires tail' == if !front || lists[k] == [] then tail[k := x] else tail
    ensures WellLinked(lists[k := JoinedList(lists[k], x, front)], JoinedPlace(place, k, |lists[k]|, x, front),
                       prev', next', head', tail')
  {
    assert |prev'| == |next'| == |place| == |JoinedPlace(place, k, |lists[k]|, x, front)|;
    hide Linked, Joined, Ends, Places;
    JoinEnds(lists, k, x, front, head, tail, head', tail');
    JoinPlaces(lists, place, k, x, front);
    var lists', place' := lists[k := JoinedList(lists[k], x, front)], JoinedPlace(place, k, |lists[k]|, x, front);
    hide JoinedList;
    forall m, i | 0 <= m < |lists'| && 0 <= i < |lists'[m]|
      ensures Linked(lists'[m], i, m, place', prev', next')
    {
      JoinLink(lists, place, k, x, front, m, i, prev, next, prev', next');
    }
  }

  class LinkTable {
    const size: nat        // number of entries
    const count: nat       // number of lists
    const prev: array<int>
    const next: array<int>
    const head: array<int>
    const tail: array<int>

    // The contents of every list, first entry first, and the place of every entry.
    ghost var lists: seq<seq<nat>>
    ghost var place: seq<Place>

    ghost const Repr: set<object> := {this, prev, next, head, tail}

    ghost predicate Valid()
      reads this, prev, next, head, tail
    {
      && prev.Length == next.Length == |place| == size <= NONE
      && head.Length == tail.Length == |lists| == count
      && prev != next && prev != head && prev != tail
      && next != head && next != tail && head != tail
      && WellLinked(lists, place, prev[..], next[..], head[..], tail[..])
    }

    lemma Counts()
      requires Valid()
      ensures |lists| == count && prev.Length == next.Length == |place| == size <= NONE
    {
    }

    /** On no list, with both links cleared. */
    ghost predicate Detached(x: nat)
      reads this, prev, next
    {
      x < |place| && x < prev.Length && x < next.Length &&
      place[x].Nowhere? && prev[x] == NONE && next[x] == NONE
    }

    ghost function PlaceIn(k: nat, x: nat): (j: nat)
      requires Valid() && k < count && x in lists[k]
      reads this, prev, next, head, tail
      ensures j < |lists[k]| && lists[k][j] == x && x < size && place[x] == At(k, j)
      ensures Linked(lists[k], j, k, place, prev[..], next[..])
    {
      var j :| 0 <= j < |lists[k]| && lists[k][j] == x;
      assert Linked(lists[k], j, k, place, prev[..], next[..]);
      j
    }

    /** The ends of a list are none exactly when the list is empty. */
    lemma EndTells(k: nat)
      requires Valid() && k < count
      ensures head[k] == NONE <==> lists[k] == []
      ensures tail[k] == NONE <==> lists[k] == []
      ensures lists[k] != [] ==> 0 <= head[k] < size && head[k] == lists[k][0] && place[head[k]].At?
      ensures lists[k] != [] ==> 0 <= tail[k] < size && tail[k] == lists[k][|lists[k]|-1] && place[tail[k]].At?
    {
      assert EndsOf(lists[k], head[k], tail[k]);
      if lists[k] != [] {
        var _ := PlaceIn(k, lists[k][0]);
        var _ := PlaceIn(k, lists[k][|lists[k]|-1]);
      }
    }

    /** The links of entry j of list k are none or entries of the list next to it. */
    lemma NeighboursTell(k: nat, j: nat)
      requires Valid() && k < count && j < |lists[k]|
      ensures var x := lists[k][j];
              && x < size && place[x] == At(k, j)
              && prev[x] == (if j == 0 then NONE else lists[k][j-1])
              && next[x] == (if j == |lists[k]| - 1 then NONE else lists[k][j+1])
              && (j > 0 ==> lists[k][j-1] < size && place[lists[k][j-1]] == At(k, j - 1))
              && (j + 1 < |lists[k]| ==> lists[k][j+1] < size && place[lists[k][j+1]] == At(k, j + 1))
    {
      assert Linked(lists[k], j, k, place, prev[..], next[..]);
      assert j > 0 ==> Linked(lists[k], j - 1, k, place, prev[..], next[..]);
      assert j + 1 < |lists[k]| ==> Linked(lists[k], j + 1, k, place, prev[..], next[..]);
    }

    /** All lists empty, all links cleared. */
    constructor (n: nat, q: nat)
      requires n <= NONE
      ensures Valid() && size == n && count == q
      ensures fresh(Repr)
      ensures forall k :: 0 <= k < q ==> lists[k] == []
      ensures forall x :: 0 <= x < n ==> Detached(x)
    {
      size, count := n, q;
      prev := new int[n](_ => NONE);
      next := new int[n](_ => NONE);
      head := new int[q](_ => NONE);
      tail := new int[q](_ => NONE);
      lists := seq(q, _ => []);
      place := seq(n, _ => Nowhere);
    }

    /** Every entry chained onto one list in index order, the others empty. */
    constructor InOrder(n: nat, q: nat, k: nat)
      requires 0 < n <= NONE && k < q
      ensures Valid() && size == n && count == q
      ensures fresh(Repr)
      ensures lists[k] == Iota(n) && |place| == n && forall x :: 0 <= x < n ==> place[x] == At(k, x)
      ensures forall j :: 0 <= j < q && j != k ==> lists[j] == []
    {
      size, count := n, q;
      prev := new int[n](i => if i == 0 then NONE else i - 1);
      next := new int[n](i => if i == n - 1 then NONE else i + 1);
      head := new int[q](j => if j == k then 0 else NONE);
      tail := new int[q](j => if j == k then n - 1 else NONE);
      lists := seq(q, j => if j == k then Iota(n) else []);
      place := seq(n, (i: nat) => At(k, i));
    }

    /** Append. The old tail, when there is one, gets its next link here. */
    method PutTail(k: nat, x: nat)
      requires Valid() && k < count && x < size && place[x].Nowhere?
      modifies Repr
      ensures Valid()
      ensures lists == old(lists)[k := old(lists)[k] + [x]]
      ensures place == old(place)[x := At(k, |old(lists)[k]|)]
      ensures forall y :: old(Detached(y)) && y != x ==> Detached(y)
    {
      EndTells(k);
      hide Chains, Ends, Places;
      ghost var p, n, h, t := prev[..], next[..], head[..], tail[..];
      if tail[k] != NONE {
        prev[x] := tail[k];
        next[x] := NONE;
        next[tail[k]] := x;
        tail[k] := x;
      } else {
        prev[x] := NONE;
        next[x] := NONE;
        head[k] := x;
        tail[k] := x;
      }
      JoinKeeps(lists, place, k, x, false, p, n, h, t, prev[..], next[..], head[..], tail[..]);
      place := place[x := At(k, |lists[k]|)];
      lists := lists[k := lists[k] + [x]];
    }

    /** Insert before the head, as the LRU lists do for the most recent entry. */
    method PutFront(k: nat, x: nat)
      requires Valid() && k < count && x < size && place[x].Nowhere?
      modifies Repr
      ensures Valid()
      ensures lists == old(lists)[k := [x] + old(lists)[k]]
      ensures place == Shift(old(place), k, 0, 1)[x := At(k, 0)]
    {
      EndTells(k);
      hide Chains, Ends, Places;
      ghost var p, n, h, t := prev[..], next[..], head[..], tail[..];
      if head[k] != NONE {
        prev[x] := NONE;
        next[x] := head[k];
        prev[head[k]] := x;
        head[k] := x;
      } else {
        prev[x] := NONE;
        next[x] := NONE;
        head[k] := x;
        tail[k] := x;
      }
      JoinKeeps(lists, place, k, x, true, p, n, h, t, prev[..], next[..], head[..], tail[..]);
      lists := lists[k := [x] + lists[k]];
      place := Shift(place, k, 0, 1)[x := At(k, 0)];
    }

    /** The four-way pointer update shared by every selective removal. */
    method Bypass(k: nat, x: nat)
      requires prev.Length == next.Length == size && head.Length == tail.Length == count && k < count && x < size
      requires prev != next && prev != head && prev != tail && next != head && next != tail && head != tail
      requires prev[x] == NONE || 0 <= prev[x] < size
      requires next[x] == NONE || 0 <= next[x] < size
      requires prev[x] != x && next[x] != x && size <= NONE
      modifies prev, next, head, tail
      ensures Bypassed(x, old(prev[..]), old(next[..]), prev[..], next[..])
      ensures head[..] == if old(prev[x]) == NONE then old(head[..])[k := old(next[x])] else old(head[..])
      ensures tail[..] == if old(next[x]) == NONE then old(tail[..])[k := old(prev[x])] else old(tail[..])
    {
      var nx, pv := next[x], prev[x];
      if nx != NONE && pv != NONE {
        next[pv] := nx;
        prev[nx] := pv;
      } else if nx == NONE && pv != NONE {
        next[pv] := NONE;
        tail[k] := pv;
      } else if nx != NONE && pv == NONE {
        prev[nx] := NONE;
        head[k] := nx;
      } else {
        head[k] := NONE;
        tail[k] := NONE;
      }
    }

    /** Take an entry out of the list it is on, leaving its own two links as they were.
        An entry on no list, with both links clear, may be "taken out" of an empty
        list: the both-ends branch then rewrites two ends that are already none. */
    method Unlink(k: nat, x: nat) returns (ghost j: nat)
      requires Valid() && k < count && x < size
      requires x in lists[k] || (lists[k] == [] && Detached(x))
      modifies Repr
      ensures Valid()
      ensures x !in old(lists)[k] ==> lists == old(lists) && place == old(place) && Detached(x)
      ensures x in old(lists)[k] ==>
                && old(place)[x] == At(k, j) && j < |old(lists)[k]| && old(lists)[k][j] == x
                && lists == old(lists)[k := Without(old(lists)[k], j)]
                && place == Shift(old(place), k, j + 1, -1)[x := Nowhere]
      ensures forall y :: old(Detached(y)) ==> Detached(y)
    {
      j := if x in lists[k] then PlaceIn(k, x) else 0;
      if x in lists[k] {
        NeighboursTell(k, j);
      } else {
        EndTells(k);
      }
      hide WellLinked;
      ghost var p, n, h, t := prev[..], next[..], head[..], tail[..];
      Bypass(k, x);
      assert forall y :: 0 <= y < size && place[y].Nowhere? ==> prev[y] == p[y] && next[y] == n[y];
      if x in lists[k] {
        Settle(k, j, p, n, h, t);
      } else {
        assert prev[..] == p && next[..] == n && head[..] == h && tail[..] == t;
      }
    }

    /** Record that entry j of list k has been bypassed. */
    ghost method Settle(k: nat, j: nat, p: seq<int>, n: seq<int>, h: seq<int>, t: seq<int>)
      requires prev.Length == next.Length == |place| == size <= NONE && head.Length == tail.Length == |lists| == count
      requires prev != next && prev != head && prev != tail && next != head && next != tail && head != tail
      requires WellLinked(lists, place, p, n, h, t) && k < count && j < |lists[k]| && lists[k][j] < size == |p| == |n|
      requires Bypassed(lists[k][j], p, n, prev[..], next[..]) && |h| == |t| == count
      requires head[..] == if p[lists[k][j]] == NONE then h[k := n[lists[k][j]]] else h
      requires tail[..] == if n[lists[k][j]] == NONE then t[k := p[lists[k][j]]] else t
      modifies this`lists, this`place
      ensures Valid()
      ensures lists == old(lists)[k := Without(old(lists)[k], j)]
      ensures place == Shift(old(place), k, j + 1, -1)[old(lists)[k][j] := Nowhere]
    {
      hide WellLinked, Bypassed;
      BypassKeeps(lists, place, k, j, p, n, h, t, prev[..], next[..], head[..], tail[..]);
      place := Shift(place, k, j + 1, -1)[lists[k][j] := Nowhere];
      lists := lists[k := Without(lists[k], j)];
    }

    /** Take the first entry off a list, leaving its own two links as they were. */
    method PopHead(k: nat) returns (x: nat)
      requires Valid() && k < count && lists[k] != []
      modifies Repr
      ensures Valid() && x < size
      ensures x == old(lists)[k][0] && lists == old(lists)[k := old(lists)[k][1..]]
      ensures place == Shift(old(place), k, 1, -1)[x := Nowhere]
      ensures forall y :: old(Detached(y)) ==> Detached(y)
    {
      EndTells(k);
      NeighboursTell(k, 0);
      hide Chains, Ends, Places;
      ghost var p, n, h, t := prev[..], next[..], head[..], tail[..];
      x := head[k];
      if next[x] != NONE {
        head[k] := next[x];
        prev[next[x]] := NONE;
      } else {
        head[k] := NONE;
        tail[k] := NONE;
      }
      assert Without(lists[k], 0) == lists[k][1..];
      Settle(k, 0, p, n, h, t);
    }

    /** Clear the links of an entry that is on no list. */
    method Clear(x: nat)
      requires Valid() && x < size && place[x].Nowhere?
      modifies prev, next
      ensures Valid() && Detached(x)
      ensures forall y :: old(Detached(y)) ==> Detached(y)
    {
      prev[x] := NONE;
      next[x] := NONE;
      forall j, i | 0 <= j < count && 0 <= i < |lists[j]|
        ensures Linked(lists[j], i, j, place, prev[..], next[..])
      {
        assert old(Linked(lists[j], i, j, place, prev[..], next[..]));
      }
    }
  }
}
