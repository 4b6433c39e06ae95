/** The request pool: every slot on one of the queues or in hand, with the firmware's counters. */
module ReqPool {
  import opened Basics
  import opened Links

  datatype Queue =
    | Free
    | Slice
    | BlockedByBufDep
    | NvmeDma
    | CustomCmd
    | BlockedByRowAddrDep(die: nat)
    | NandReq(die: nat)

  datatype QueueType =
    NoQueue | FreeQ | SliceQ | BlockedByBufDepQ | NvmeDmaQ | CustomCmdQ | BlockedByRowAddrDepQ | NandQ

  function TypeOf(q: Queue): (t: QueueType) {
    match q
    case Free => FreeQ
    case Slice => SliceQ
    case BlockedByBufDep => BlockedByBufDepQ
    case NvmeDma => NvmeDmaQ
    case CustomCmd => CustomCmdQ
    case BlockedByRowAddrDep(_) => BlockedByRowAddrDepQ
    case NandReq(_) => NandQ
  }

  /** The list of the shared link table a queue is kept on, and back. */
  function ListOf(q: Queue, dies: nat): (k: nat) {
    match q
    case Free => 0
    case Slice => 1
    case BlockedByBufDep => 2
    case NvmeDma => 3
    case CustomCmd => 4
    case BlockedByRowAddrDep(d) => 5 + d
    case NandReq(d) => 5 + dies + d
  }

  function QueueOf(k: nat, dies: nat): (q: Queue) {
    if k == 0 then Free
    else if k == 1 then Slice
    else if k == 2 then BlockedByBufDep
    else if k == 3 then NvmeDma
    else if k == 4 then CustomCmd
    else if k < 5 + dies then BlockedByRowAddrDep(k - 5)
    else if k < 5 + 2 * dies then NandReq(k - 5 - dies)
    else Free
  }

  predicate Exists(q: Queue, dies: nat) {
    q.BlockedByRowAddrDep? || q.NandReq? ==> q.die < dies
  }

  predicate Blocking(q: Queue) {
    q.BlockedByBufDep? || q.BlockedByRowAddrDep?
  }

  /** How many slots are on lists lo .. hi - 1. */
  ghost function Sum(lists: seq<seq<nat>>, lo: nat, hi: nat): (n: nat)
    requires hi <= |lists|
  {
    if hi <= lo then 0 else Sum(lists, lo, hi - 1) + |lists[hi - 1]|
  }

  lemma {:induction false} SumUpdate(lists: seq<seq<nat>>, lo: nat, hi: nat, k: nat, s: seq<nat>)
    requires hi <= |lists| && k < |lists|
    ensures Sum(lists[k := s], lo, hi) == Sum(lists, lo, hi) + (if lo <= k < hi then |s| - |lists[k]| else 0)
    decreases hi
  {
    if lo < hi {
      SumUpdate(lists, lo, hi - 1, k, s);
    }
  }

  lemma {:induction false} SumZero(lists: seq<seq<nat>>, lo: nat, hi: nat)
    requires hi <= |lists| && forall k :: lo <= k < hi ==> lists[k] == []
    ensures Sum(lists, lo, hi) == 0
    decreases hi
  {
    if lo < hi {
      SumZero(lists, lo, hi - 1);
    }
  }

  /** The counters tell the lengths of the queues and their sums. */
  ghost predicate Tallied(lists: seq<seq<nat>>, dies: nat, cnt: seq<nat>, blocked: nat, nand: nat, custom: nat) {
    && |lists| == |cnt| == 5 + 2 * dies
    && (forall k :: 0 <= k < |lists| ==> cnt[k] == |lists[k]|)
    && blocked == |lists[2]| + Sum(lists, 5, 5 + dies)
    && nand == Sum(lists, 5 + dies, 5 + 2 * dies)
    && custom == |lists[4]|
  }

  lemma {:induction false} SumAtLeast(lists: seq<seq<nat>>, lo: nat, hi: nat, k: nat)
    requires lo <= k < hi <= |lists|
    ensures Sum(lists, lo, hi) >= |lists[k]|
    decreases hi
  {
    if k < hi - 1 {
      SumAtLeast(lists, lo, hi - 1, k);
    }
  }

  lemma TallyChange(lists: seq<seq<nat>>, dies: nat, cnt: seq<nat>, blocked: nat, nand: nat, custom: nat, q: Queue,
                    s: seq<nat>)
    requires Tallied(lists, dies, cnt, blocked, nand, custom) && Exists(q, dies)
    ensures var k := ListOf(q, dies);
            var d := |s| - |lists[k]|;
            && k < |cnt| && cnt[k] + d >= 0
            && (Blocking(q) ==> blocked + d >= 0) && (q.NandReq? ==> nand + d >= 0) &&
              (q.CustomCmd? ==> custom + d >= 0)
            && Tallied(lists[k := s], dies, cnt[k := cnt[k] + d], if Blocking(q) then blocked + d else blocked,
                       if q.NandReq? then nand + d else nand, if q.CustomCmd? then custom + d else custom)
  {
    var k := ListOf(q, dies);
    SumUpdate(lists, 5, 5 + dies, k, s);
    SumUpdate(lists, 5 + dies, 5 + 2 * dies, k, s);
    if 5 <= k < 5 + dies {
      SumAtLeast(lists, 5, 5 + dies, k);
    } else if 5 + dies <= k {
      SumAtLeast(lists, 5 + dies, 5 + 2 * dies, k);
    }
  }

  lemma StartTally(lists: seq<seq<nat>>, dies: nat, cnt: seq<nat>, slots: nat)
    requires |lists| == |cnt| == 5 + 2 * dies && |lists[0]| == slots == cnt[0]
    requires forall k :: 1 <= k < |lists| ==> lists[k] == [] && cnt[k] == 0
    ensures Tallied(lists, dies, cnt, 0, 0, 0)
  {
    SumZero(lists, 5, 5 + dies);
    SumZero(lists, 5 + dies, 5 + 2 * dies);
  }

  class Pool {
    const dies: nat
    const links: LinkTable
    const queueType: array<QueueType>
    const reqCnt: array<nat>
    var blockedReqCnt: nat
    var notCompletedNandReqCnt: nat
    var notCompletedCustomCmdCnt: nat
    ghost const Repr: set<object> := {this, queueType, reqCnt} + links.Repr

    /** Slot x is on one queue, the one its type names, or in hand. */
    ghost predicate Typed(x: nat)
      requires x < queueType.Length && x < |links.place|
      reads this, queueType, links
    {
      match links.place[x]
      case Nowhere => queueType[x] == NoQueue
      case At(k, _) => queueType[x] == TypeOf(QueueOf(k, dies))
    }

    ghost predicate Shaped()
      reads this
    {
      && this !in links.Repr && queueType !in links.Repr && reqCnt !in links.Repr
      && links.count == 5 + 2 * dies == reqCnt.Length && links.size == queueType.Length &&
        (queueType as object) != reqCnt
    }

    ghost predicate Counted()
      reads this, links, reqCnt
    {
      Tallied(links.lists, dies, reqCnt[..], blockedReqCnt, notCompletedNandReqCnt, notCompletedCustomCmdCnt)
    }

    ghost predicate Valid()
      reads Repr
    {
      && Shaped() && links.Valid() && Counted()
      && forall x :: 0 <= x < links.size ==> Typed(x)
    }

    ghost function Contents(q: Queue): (s: seq<nat>)
      requires Valid() && Exists(q, dies)
      reads Repr
    {
      links.lists[ListOf(q, dies)]
    }

    /** All slots free, in order. */
    constructor (slots: nat, dieCount: nat)
      requires 0 < slots <= NONE
      ensures Valid() && fresh(Repr) && dies == dieCount && links.lists[0] == Iota(slots)
      ensures forall k :: 1 <= k < |links.lists| ==> links.lists[k] == []
    {
      hide WellLinked;
      dies := dieCount;
      links := new LinkTable.InOrder(slots, 5 + 2 * dieCount, 0);
      queueType := new QueueType[slots](_ => FreeQ);
      reqCnt := new nat[5 + 2 * dieCount](k => if k == 0 then slots else 0);
      blockedReqCnt, notCompletedNandReqCnt, notCompletedCustomCmdCnt := 0, 0, 0;
      new;
      hide Tallied, LinkTable.Valid, Iota;
      links.Counts();
      StartTally(links.lists, dies, reqCnt[..], slots);
    }

    /** Adjust the counters for a slot that joined or left a queue. */
    method Tally(q: Queue, joined: bool, ghost was: seq<seq<nat>>)
      requires Shaped() && Exists(q, dies) && |was| == |links.lists|
      requires Tallied(was, dies, reqCnt[..], blockedReqCnt, notCompletedNandReqCnt, notCompletedCustomCmdCnt)
      requires ListOf(q, dies) < |was| && links.lists == was[ListOf(q, dies) := links.lists[ListOf(q, dies)]]
      requires |links.lists[ListOf(q, dies)]| == |was[ListOf(q, dies)]| + (if joined then 1 else -1)
      modifies this, reqCnt
      ensures Counted()
    {
      var k := ListOf(q, dies);
      TallyChange(was, dies, reqCnt[..], blockedReqCnt, notCompletedNandReqCnt, notCompletedCustomCmdCnt, q,
        links.lists[k]);
      hide Tallied;
      var d: int := if joined then 1 else -1;
      reqCnt[k] := reqCnt[k] + d;
      match q {
        case BlockedByBufDep =>
          blockedReqCnt := blockedReqCnt + d;
        case BlockedByRowAddrDep(_) =>
          blockedReqCnt := blockedReqCnt + d;
        case NandReq(_) =>
          notCompletedNandReqCnt := notCompletedNandReqCnt + d;
        case CustomCmd =>
          notCompletedCustomCmdCnt := notCompletedCustomCmdCnt + d;
        case _ =>
      }
    }

    /** Append the slot in hand to a queue. */
    method PutTo(q: Queue, x: nat)
      requires Valid() && Exists(q, dies) && x < links.size && links.place[x].Nowhere?
      modifies Repr
      ensures Valid() && Contents(q) == old(Contents(q)) + [x]
      ensures forall r :: Exists(r, dies) && r != q ==> Contents(r) == old(Contents(r))
      ensures links.lists == old(links.lists)[ListOf(q, dies) := old(links.lists)[ListOf(q, dies)] + [x]]
      ensures links.place == old(links.place)[x := At(ListOf(q, dies), |old(links.lists)[ListOf(q, dies)]|)]
    {
      hide WellLinked, Tallied;
      links.Counts();
      ghost var was := links.lists;
      links.PutTail(ListOf(q, dies), x);
      queueType[x] := TypeOf(q);
      Tally(q, true, was);
      forall y | 0 <= y < links.size ensures Typed(y) {
        assert old(Typed(y));
      }
    }

    /** Take the first slot of a queue, if there is one. */
    method GetFrom(q: Queue) returns (x: int)
      requires Valid() && Exists(q, dies)
      modifies Repr
      ensures Valid() && (x == NONE <==> old(links.lists)[ListOf(q, dies)] == [])
      ensures x == NONE ==> links.lists == old(links.lists) && links.place == old(links.place)
      ensures x != NONE ==>
                && 0 <= x < links.size && links.place[x].Nowhere? && queueType[x] == NoQueue
                && x == old(links.lists)[ListOf(q, dies)][0]
                && links.lists == old(links.lists)[ListOf(q, dies) := old(links.lists)[ListOf(q, dies)][1..]]
      ensures forall r :: Exists(r, dies) && r != q ==> Contents(r) == old(Contents(r))
    {
      hide WellLinked, Tallied;
      links.Counts();
      var k := ListOf(q, dies);
      links.EndTells(k);
      if links.head[k] == NONE {
        return NONE;
      }
      ghost var was := links.lists;
      var h := links.PopHead(k);
      queueType[h] := NoQueue;
      Tally(q, false, was);
      forall y | 0 <= y < links.size ensures Typed(y) {
        assert old(Typed(y));
      }
      return h;
    }

    /** Take a slot out of the middle of its queue. */
    method SelectiveGetFrom(q: Queue, x: nat)
      requires Valid() && Exists(q, dies) && x in links.lists[ListOf(q, dies)]
      modifies Repr
      ensures Valid() && x < links.size && links.place[x].Nowhere? && queueType[x] == NoQueue
      ensures exists j :: 0 <= j < |old(links.lists)[ListOf(q, dies)]| && old(links.lists)[ListOf(q, dies)][j] == x &&
                links.lists == old(links.lists)[ListOf(q, dies) := Without(old(links.lists)[ListOf(q, dies)], j)]
      ensures forall r :: Exists(r, dies) && r != q ==> Contents(r) == old(Contents(r))
    {
      hide WellLinked, Tallied;
      links.Counts();
      ghost var was := links.lists;
      ghost var p := links.PlaceIn(ListOf(q, dies), x);
      ghost var j := links.Unlink(ListOf(q, dies), x);
      queueType[x] := NoQueue;
      Tally(q, false, was);
      forall y | 0 <= y < links.size ensures Typed(y) {
        assert old(Typed(y));
      }
    }
  }

  /** In every valid pool a slot is on exactly one queue or in hand, whichever its type names. */
  lemma OneQueue(p: Pool, x: nat, q: Queue)
    requires p.Valid() && x < p.links.size && Exists(q, p.dies)
    ensures ListOf(q, p.dies) < |p.links.lists|
    ensures x in p.Contents(q) ==>
              p.queueType[x] == TypeOf(q) && p.links.place[x].At? && p.links.place[x].list == ListOf(q, p.dies)
    ensures p.queueType[x] == NoQueue <==> p.links.place[x].Nowhere?
    ensures p.queueType[x] != NoQueue ==>
              exists r :: Exists(r, p.dies) && TypeOf(r) == p.queueType[x] && x in p.Contents(r)
    ensures QueueOf(ListOf(q, p.dies), p.dies) == q
  {
    hide Tallied;
    p.links.Counts();
    assert p.Typed(x);
    if x in p.Contents(q) {
      var _ := p.links.PlaceIn(ListOf(q, p.dies), x);
    }
    if p.links.place[x].At? {
      var r := QueueOf(p.links.place[x].list, p.dies);
      assert Exists(r, p.dies) && ListOf(r, p.dies) == p.links.place[x].list && x in p.Contents(r);
    }
  }

  /** The type a slot carries tells its queue: which of the shared queues it is on, or that it is on the
      NAND queue or the row-blocked queue of some die, or on none. */
  lemma TypeTells(p: Pool, x: nat)
    requires p.Valid() && x < p.links.size
    ensures p.queueType[x] == FreeQ <==> x in p.Contents(Free)
    ensures p.queueType[x] == SliceQ <==> x in p.Contents(Slice)
    ensures p.queueType[x] == BlockedByBufDepQ <==> x in p.Contents(BlockedByBufDep)
    ensures p.queueType[x] == NvmeDmaQ <==> x in p.Contents(NvmeDma)
    ensures p.queueType[x] == CustomCmdQ <==> x in p.Contents(CustomCmd)
    ensures p.queueType[x] == BlockedByRowAddrDepQ <==>
            exists d :: 0 <= d < p.dies && x in p.Contents(BlockedByRowAddrDep(d))
    ensures p.queueType[x] == NandQ <==> exists d :: 0 <= d < p.dies && x in p.Contents(NandReq(d))
    ensures p.queueType[x] == NoQueue <==> forall q :: Exists(q, p.dies) ==> x !in p.Contents(q)
  {
    assert x < p.queueType.Length;
    hide Pool.Valid, Pool.Contents;
    forall q | Exists(q, p.dies) && x in p.Contents(q) ensures p.queueType[x] == TypeOf(q) {
      OneQueue(p, x, q);
    }
    OneQueue(p, x, Free);
    if p.queueType[x] != NoQueue {
      var r :| Exists(r, p.dies) && TypeOf(r) == p.queueType[x] && x in p.Contents(r);
    }
  }

  /** The slots on the queues of all dies below n. */
  ghost function PerDie(p: Pool, nand: bool, n: nat): (count: nat)
    requires p.Valid() && n <= p.dies
    reads p.Repr
  {
    if n == 0 then 0
    else PerDie(p, nand, n - 1) + |p.Contents(if nand then NandReq(n - 1) else BlockedByRowAddrDep(n - 1))|
  }

  lemma {:induction false} SumPerDie(p: Pool, n: nat)
    requires p.Valid() && n <= p.dies
    ensures |p.links.lists| == 5 + 2 * p.dies
    ensures PerDie(p, false, n) == Sum(p.links.lists, 5, 5 + n)
    ensures PerDie(p, true, n) == Sum(p.links.lists, 5 + p.dies, 5 + p.dies + n)
  {
    if n > 0 {
      SumPerDie(p, n - 1);
    }
  }

  /** The three global counters count what they are named after. */
  lemma CountersTell(p: Pool)
    requires p.Valid()
    ensures p.blockedReqCnt == |p.Contents(BlockedByBufDep)| + PerDie(p, false, p.dies)
    ensures p.notCompletedNandReqCnt == PerDie(p, true, p.dies)
    ensures p.notCompletedCustomCmdCnt == |p.Contents(CustomCmd)|
  {
    SumPerDie(p, p.dies);
  }
}
