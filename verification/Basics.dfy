/** What several modules share: optional values, 16-bit counters, removal from a sequence. */
module Basics {

  datatype Option<+T> = None | Some(value: T)

  /** A 16-bit counter. */
  function Halfword(n: int): (r: nat) {
    n % 0x1_0000
  }

  function Without<T>(s: seq<T>, j: nat): (r: seq<T>)
    requires j < |s|
    ensures |r| == |s| - 1
  {
    s[..j] + s[j+1..]
  }

  /** The sequence without the first occurrence of x. */
  ghost function Drop(s: seq<nat>, x: nat): (r: seq<nat>)
  {
    if s == [] then [] else if s[0] == x then s[1..] else [s[0]] + Drop(s[1..], x)
  }

  lemma {:induction false} DropIsWithout(s: seq<nat>, j: nat)
    requires j < |s| && forall i :: 0 <= i < j ==> s[i] != s[j]
    ensures Drop(s, s[j]) == Without(s, j)
  {
    if j > 0 {
      DropIsWithout(s[1..], j - 1);
      assert Without(s, j) == [s[0]] + Without(s[1..], j - 1);
    }
  }
}
