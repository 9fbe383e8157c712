/** Places picked out of a sequence, in ascending order: how a sequence with one more element
    in front is picked from. */
module Selections {

  ghost predicate Ascending(at: seq<nat>) {
    forall i, j :: 0 <= i < j < |at| ==> at[i] < at[j]
  }

  /** The places again, each one later. */
  function Moved(at: seq<nat>): (r: seq<nat>)
    ensures |r| == |at| && forall j :: 0 <= j < |at| ==> r[j] == at[j] + 1
  {
    seq(|at|, j requires 0 <= j < |at| => at[j] + 1)
  }

  lemma MovedIsAscending(at: seq<nat>)
    ensures Ascending(at) ==> Ascending(Moved(at)) && Ascending([0] + Moved(at))
  {
  }

  lemma MovedListed(at: seq<nat>, i: nat)
    requires i == 0 || i - 1 in at
    ensures i in [0] + Moved(at)
    ensures i > 0 ==> i in Moved(at)
  {
    if i > 0 {
      var j :| 0 <= j < |at| && at[j] == i - 1;
      assert Moved(at)[j] == i;
    } else {
      assert ([0] + Moved(at))[0] == 0;
    }
  }
}
