/** Counting the members of a sequence that satisfy a condition. */
module Counting {

  ghost function Positions<T(!new)>(s: seq<T>, p: T -> bool): set<nat>
  {
    set k: nat | k < |s| && p(s[k])
  }

  ghost function Shifted(positions: set<nat>): set<nat> { set k | k in positions :: k + 1 }

  lemma {:induction false} ShiftedCount(positions: set<nat>)
    ensures |Shifted(positions)| == |positions|
  {
    if positions != {} {
      var k :| k in positions;
      ShiftedCount(positions - {k});
      forall x ensures x in Shifted(positions) <==> x in Shifted(positions - {k}) + {k + 1} {
        if x in Shifted(positions) && x != k + 1 {
          assert x - 1 in positions - {k};
        }
      }
      assert Shifted(positions) == Shifted(positions - {k}) + {k + 1};
    }
  }

  /** The first member and the rest. */
  lemma PositionsStep<T(!new)>(s: seq<T>, p: T -> bool)
    requires s != []
    ensures |Positions(s, p)| == (if p(s[0]) then 1 else 0) + |Positions(s[1..], p)|
  {
    var tail := Positions(s[1..], p);
    forall k: nat ensures k in Positions(s, p) <==> (k == 0 && p(s[0])) || k in Shifted(tail) {
      if k > 0 && k in Positions(s, p) {
        assert s[1..][k - 1] == s[k] && k - 1 in tail;
      }
    }
    assert Positions(s, p) == (if p(s[0]) then {0} else {}) + Shifted(tail);
    ShiftedCount(tail);
  }
}
