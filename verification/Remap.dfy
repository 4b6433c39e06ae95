/** Bad block remapping of one die: every bad block of the user range is given the next good
    block of the reserve behind it, in each of the two LUNs. */
module Remap {
  const TOTAL_BLOCKS_PER_LUN: nat := 4184
  const TOTAL_BLOCKS_PER_DIE: nat := 8368

  /** The blocks of [lo, hi) whose bad mark is as given, in order. */
  ghost function Marked(bad: seq<bool>, mark: bool, lo: nat, hi: nat): (s: seq<nat>)
    requires hi <= |bad|
    ensures forall i :: 0 <= i < |s| ==> lo <= s[i] < hi && bad[s[i]] == mark
    ensures forall i, j :: 0 <= i < j < |s| ==> s[i] < s[j]
  {
    if hi <= lo then []
    else if bad[hi - 1] == mark then Marked(bad, mark, lo, hi - 1) + [hi - 1]
    else Marked(bad, mark, lo, hi - 1)
  }

  lemma {:induction false} MarkedPrefix(bad: seq<bool>, mark: bool, lo: nat, mid: nat, hi: nat)
    requires mid <= hi <= |bad|
    ensures Marked(bad, mark, lo, mid) <= Marked(bad, mark, lo, hi)
    decreases hi
  {
    if mid < hi {
      MarkedPrefix(bad, mark, lo, mid, hi - 1);
    }
  }

  /** Where block p of the LUN that starts at base belongs: itself if good; the k-th bad block of
      the user range to the k-th good block of the reserve, as long as there is one. */
  ghost function Replacement(bad: seq<bool>, user: nat, base: nat, p: nat): (r: nat)
    requires base <= p && base + TOTAL_BLOCKS_PER_LUN <= |bad| && p < |bad|
  {
    var spare := Marked(bad, false, base + user, base + TOTAL_BLOCKS_PER_LUN);
    var k := |Marked(bad, true, base, p)|;
    if bad[p] && k < |spare| then spare[k] else p
  }

  /** A replacement is in the same LUN; it is the block itself, or a good block of the reserve. */
  lemma ReplacementGood(bad: seq<bool>, user: nat, base: nat, p: nat)
    requires base <= p < base + user && user <= TOTAL_BLOCKS_PER_LUN && base + TOTAL_BLOCKS_PER_LUN <= |bad|
    ensures var r := Replacement(bad, user, base, p);
            if bad[r] then r == p && |Marked(bad, true, base, p)| >= |Marked(bad, false, base + user,
              base + TOTAL_BLOCKS_PER_LUN)|
            else r == p || base + user <= r < base + TOTAL_BLOCKS_PER_LUN
  {
  }

  /** Different blocks of the user range have different replacements. */
  lemma ReplacementInjective(bad: seq<bool>, user: nat, base: nat, p: nat, q: nat)
    requires base <= p < q < base + user && user <= TOTAL_BLOCKS_PER_LUN && base + TOTAL_BLOCKS_PER_LUN <= |bad|
    ensures Replacement(bad, user, base, p) != Replacement(bad, user, base, q)
  {
    if bad[p] {
      MarkedPrefix(bad, true, base, p + 1, q);
    }
  }

  /** The reserve has been handed out up to r: to each bad block seen so far, or completely. */
  ghost predicate HandedOut(bad: seq<bool>, user: nat, base: nat, n: nat, r: nat)
    requires base + TOTAL_BLOCKS_PER_LUN <= |bad| && n <= user <= TOTAL_BLOCKS_PER_LUN
  {
    && base + user <= r <= base + TOTAL_BLOCKS_PER_LUN
    && var used, seen := |Marked(bad, false, base + user, r)|, |Marked(bad, true, base, base + n)|;
    && used <= seen && (used < seen ==> r == base + TOTAL_BLOCKS_PER_LUN)
  }

  /** The first good block from r on, or the end of the LUN. */
  method NextGood(bad: seq<bool>, ghost lo: nat, r: nat, end: nat) returns (next: nat)
    requires lo <= r <= end <= |bad|
    ensures r <= next <= end && (next < end ==> !bad[next])
    ensures Marked(bad, false, lo, next) == Marked(bad, false, lo, r)
  {
    next := r;
    while next < end && bad[next]
      invariant r <= next <= end && Marked(bad, false, lo, next) == Marked(bad, false, lo, r)
    {
      next := next + 1;
    }
  }

  lemma MarkedNext(bad: seq<bool>, mark: bool, lo: nat, hi: nat)
    requires lo <= hi < |bad|
    ensures Marked(bad, mark, lo, hi + 1) == Marked(bad, mark, lo, hi) + (if bad[hi] == mark then [hi] else [])
  {
  }

  lemma Replaced(bad: seq<bool>, user: nat, base: nat, n: nat, r: nat, next: nat)
    requires base + TOTAL_BLOCKS_PER_LUN <= |bad| && n < user <= TOTAL_BLOCKS_PER_LUN
    requires HandedOut(bad, user, base, n, r)
    requires bad[base + n] && r <= next <= base + TOTAL_BLOCKS_PER_LUN
    requires next < base + TOTAL_BLOCKS_PER_LUN ==> !bad[next]
    requires Marked(bad, false, base + user, next) == Marked(bad, false, base + user, r)
    ensures var good := next < base + TOTAL_BLOCKS_PER_LUN;
            && Replacement(bad, user, base, base + n) == (if good then next else base + n)
            && HandedOut(bad, user, base, n + 1, if good then next + 1 else next)
  {
    hide Marked;
    var end := base + TOTAL_BLOCKS_PER_LUN;
    MarkedNext(bad, true, base, base + n);
    if next < end {
      MarkedNext(bad, false, base + user, next);
      MarkedPrefix(bad, false, base + user, next + 1, end);
    }
  }

  lemma NotReplaced(bad: seq<bool>, user: nat, base: nat, n: nat, r: nat)
    requires base + TOTAL_BLOCKS_PER_LUN <= |bad| && n < user <= TOTAL_BLOCKS_PER_LUN
    requires HandedOut(bad, user, base, n, r)
    requires !bad[base + n]
    ensures Replacement(bad, user, base, base + n) == base + n && HandedOut(bad, user, base, n + 1, r)
  {
    MarkedNext(bad, true, base, base + n);
  }

  /** Remap one block if it is bad; r is the next block of the reserve to look at. */
  method RemapOne(bad: seq<bool>, user: nat, base: nat, n: nat, r: nat, remapped: array<nat>)
    returns (next: nat, lost: bool)
    requires base + TOTAL_BLOCKS_PER_LUN <= |bad| == remapped.Length && n < user <= TOTAL_BLOCKS_PER_LUN
    requires HandedOut(bad, user, base, n, r) && remapped[base + n] == base + n
    modifies remapped
    ensures HandedOut(bad, user, base, n + 1, next)
    ensures remapped[..] == old(remapped[..])[base + n := Replacement(bad, user, base, base + n)]
    ensures lost <==> bad[Replacement(bad, user, base, base + n)]
  {
    hide Marked, Replacement;
    next, lost := r, false;
    if bad[base + n] {
      next := NextGood(bad, base + user, r, base + TOTAL_BLOCKS_PER_LUN);
      Replaced(bad, user, base, n, r, next);
      if next < base + TOTAL_BLOCKS_PER_LUN {
        remapped[base + n] := next;
        next := next + 1;
      } else {
        lost := true;
      }
    } else {
      NotReplaced(bad, user, base, n, r);
    }
  }

  /** The table once the first n user blocks of both LUNs are done. */
  ghost predicate Done(bad: seq<bool>, user: nat, n: nat, m: nat, remapped: seq<nat>)
    requires |bad| == |remapped| == TOTAL_BLOCKS_PER_DIE && n <= user <= TOTAL_BLOCKS_PER_LUN && m <= user
  {
    forall p :: 0 <= p < TOTAL_BLOCKS_PER_DIE ==>
      remapped[p] == if p < n then Replacement(bad, user, 0, p)
                     else if TOTAL_BLOCKS_PER_LUN <= p < TOTAL_BLOCKS_PER_LUN + m
                       then Replacement(bad, user, TOTAL_BLOCKS_PER_LUN, p)
                     else p
  }

  lemma DoneNext(bad: seq<bool>, user: nat, n: nat, s0: seq<nat>, s1: seq<nat>, s2: seq<nat>)
    requires |bad| == |s0| == |s1| == |s2| == TOTAL_BLOCKS_PER_DIE && n < user <= TOTAL_BLOCKS_PER_LUN
    requires Done(bad, user, n, n, s0)
    requires s1 == s0[n := Replacement(bad, user, 0, n)]
    requires s2 == s1[TOTAL_BLOCKS_PER_LUN + n := Replacement(bad, user, TOTAL_BLOCKS_PER_LUN,
             TOTAL_BLOCKS_PER_LUN + n)]
    ensures Done(bad, user, n + 1, n + 1, s2)
  {
    hide Replacement;
  }

  /** Both LUNs of a die, block by block; counts the user blocks left without a replacement. */
  method RemapDie(bad: seq<bool>, user: nat, remapped: array<nat>) returns (badBlockCount: nat)
    requires |bad| == remapped.Length == TOTAL_BLOCKS_PER_DIE && user <= TOTAL_BLOCKS_PER_LUN
    requires forall p :: 0 <= p < remapped.Length ==> remapped[p] == p
    modifies remapped
    ensures Done(bad, user, user, user, remapped[..])
    ensures badBlockCount == LostOn(bad, user)
  {
    hide Marked, Replacement, HandedOut;
    var r0: nat, r1: nat := user, TOTAL_BLOCKS_PER_LUN + user;
    badBlockCount := 0;
    Untouched(bad, user);
    var n := 0;
    while n < user
      invariant 0 <= n <= user
      invariant HandedOut(bad, user, 0, n, r0) && HandedOut(bad, user, TOTAL_BLOCKS_PER_LUN, n, r1)
      invariant Done(bad, user, n, n, remapped[..])
      invariant badBlockCount == Lost(bad, user, 0, n) + Lost(bad, user, TOTAL_BLOCKS_PER_LUN, n)
    {
      ghost var s0 := remapped[..];
      var lost0, lost1;
      r0, lost0 := RemapOne(bad, user, 0, n, r0, remapped);
      ghost var s1 := remapped[..];
      r1, lost1 := RemapOne(bad, user, TOTAL_BLOCKS_PER_LUN, n, r1, remapped);
      DoneNext(bad, user, n, s0, s1, remapped[..]);
      badBlockCount := badBlockCount + (if lost0 then 1 else 0) + (if lost1 then 1 else 0);
      n := n + 1;
    }
  }

  lemma Untouched(bad: seq<bool>, user: nat)
    requires |bad| == TOTAL_BLOCKS_PER_DIE && user <= TOTAL_BLOCKS_PER_LUN
    ensures HandedOut(bad, user, 0, 0, user)
    ensures HandedOut(bad, user, TOTAL_BLOCKS_PER_LUN, 0, TOTAL_BLOCKS_PER_LUN + user)
  {
  }

  /** How many of the first n user blocks of a LUN stay on a bad block. */
  ghost function Lost(bad: seq<bool>, user: nat, base: nat, n: nat): (c: nat)
    requires base + TOTAL_BLOCKS_PER_LUN <= |bad| && n <= TOTAL_BLOCKS_PER_LUN
  {
    if n == 0 then 0
    else Lost(bad, user, base, n - 1) + (if bad[Replacement(bad, user, base, base + n - 1)] then 1 else 0)
  }

  /** How many user blocks of a die stay on a bad block. */
  ghost function LostOn(bad: seq<bool>, user: nat): (c: nat)
    requires |bad| == TOTAL_BLOCKS_PER_DIE && user <= TOTAL_BLOCKS_PER_LUN
  {
    Lost(bad, user, 0, user) + Lost(bad, user, TOTAL_BLOCKS_PER_LUN, user)
  }

  /** All dies. The die with most blocks lost decides how much space every die has to give up. */
  method RemapBadBlock(bad: seq<seq<bool>>, user: nat, remapped: seq<array<nat>>) returns (maxBadBlockCount: nat)
    requires |bad| == |remapped| && user <= TOTAL_BLOCKS_PER_LUN
    requires forall d :: 0 <= d < |bad| ==> |bad[d]| == remapped[d].Length == TOTAL_BLOCKS_PER_DIE
    requires forall d, e :: 0 <= d < e < |remapped| ==> remapped[d] != remapped[e]
    requires forall d, p :: 0 <= d < |remapped| && 0 <= p < remapped[d].Length ==> remapped[d][p] == p
    modifies remapped
    ensures forall d :: 0 <= d < |bad| ==> Done(bad[d], user, user, user, remapped[d][..])
    ensures forall d :: 0 <= d < |bad| ==> LostOn(bad[d], user) <= maxBadBlockCount
    ensures maxBadBlockCount > 0 ==> exists d :: 0 <= d < |bad| && LostOn(bad[d], user) == maxBadBlockCount
  {
    hide Done, LostOn;
    maxBadBlockCount := 0;
    var n := 0;
    while n < |bad|
      invariant 0 <= n <= |bad|
      invariant forall d :: 0 <= d < n ==> Done(bad[d], user, user, user, remapped[d][..])
      invariant forall d, p :: n <= d < |remapped| && 0 <= p < remapped[d].Length ==> remapped[d][p] == p
      invariant forall d :: 0 <= d < n ==> LostOn(bad[d], user) <= maxBadBlockCount
      invariant maxBadBlockCount > 0 ==> exists d :: 0 <= d < n && LostOn(bad[d], user) == maxBadBlockCount
    {
      var count := RemapDie(bad[n], user, remapped[n]);
      if maxBadBlockCount < count {
        maxBadBlockCount := count;
      }
      n := n + 1;
    }
  }
}
