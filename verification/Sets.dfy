/** Counting with finite sets. */
module Sets {
  ghost function Upto(n: nat): (s: set<nat>)
    ensures |s| == n && forall i :: i in s <==> 0 <= i < n
  {
    if n == 0 then {} else Upto(n - 1) + {n - 1}
  }

  lemma UptoNext(n: nat)
    ensures Upto(n + 1) == Upto(n) + {n}
  {
  }

  lemma {:induction false} Within(a: set<nat>, b: set<nat>)
    requires a <= b
    ensures |a| <= |b| && (|a| == |b| ==> a == b)
    decreases a
  {
    if a != {} {
      var x :| x in a;
      Within(a - {x}, b - {x});
    }
  }

  ghost function Members(s: seq<nat>): (m: set<nat>) {
    set x | x in s
  }

  lemma {:induction false} MembersCount(s: seq<nat>)
    requires forall i, j :: 0 <= i < j < |s| ==> s[i] != s[j]
    ensures |Members(s)| == |s|
  {
    if s != [] {
      var last := |s| - 1;
      MembersCount(s[..last]);
      assert Members(s) == Members(s[..last]) + {s[last]};
    }
  }
}
