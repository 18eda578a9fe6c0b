/** Pairs of tap devices and the pool they come from. */
module TapPool {
  import opened Wrappers
  import opened Decimal

  function TapName(tap: nat): string { "tap-qemu-" + Show(tap) }

  /** A pair of tap devices; the octet of the guest address is not bounded here. */
  datatype TapPair = TapPair(pairIndex: nat, srcTap: string, dstTap: string, guestIpCidr: string, guestHost: string)

  function NewPair(pairIndex: nat): TapPair
  {
    var host := "192.168.100." + Show(2 + pairIndex);
    TapPair(pairIndex, TapName(SrcTap(pairIndex)), TapName(DstTap(pairIndex)), host + "/24", host)
  }

  function SrcTap(pairIndex: nat): nat { pairIndex * 2 }

  function DstTap(pairIndex: nat): nat { pairIndex * 2 + 1 }

  /** The pair remembers its index; its devices and addresses are numbered from it. */
  lemma PairIs(i: nat)
    ensures NewPair(i).pairIndex == i
    ensures NewPair(i).srcTap == "tap-qemu-" + Show(2 * i) && NewPair(i).dstTap == "tap-qemu-" + Show(2 * i + 1)
    ensures NewPair(i).guestHost == "192.168.100." + Show(2 + i)
    ensures NewPair(i).guestIpCidr == NewPair(i).guestHost + "/24"
  {
  }

  lemma PrefixedDiffer(prefix: string, m: nat, n: nat)
    ensures prefix + Show(m) == prefix + Show(n) <==> m == n
  {
    ShowIsInjective(m, n);
    assert (prefix + Show(m))[|prefix|..] == Show(m) && (prefix + Show(n))[|prefix|..] == Show(n);
  }

  /** Different indices share no tap device and no guest address; the two taps of one pair differ. */
  lemma PairsShareNothing(i: nat, j: nat)
    ensures NewPair(i).srcTap != NewPair(j).dstTap
    ensures NewPair(i).srcTap == NewPair(j).srcTap <==> i == j
    ensures NewPair(i).dstTap == NewPair(j).dstTap <==> i == j
    ensures NewPair(i).guestHost == NewPair(j).guestHost <==> i == j
    ensures NewPair(i).guestIpCidr == NewPair(j).guestIpCidr <==> i == j
  {
    PrefixedDiffer("tap-qemu-", SrcTap(i), DstTap(j));
    PrefixedDiffer("tap-qemu-", SrcTap(i), SrcTap(j));
    PrefixedDiffer("tap-qemu-", DstTap(i), DstTap(j));
    PrefixedDiffer("192.168.100.", 2 + i, 2 + j);
    var a, b := NewPair(i), NewPair(j);
    assert a.guestIpCidr[..|a.guestIpCidr| - 3] == a.guestHost && b.guestIpCidr[..|b.guestIpCidr| - 3] == b.guestHost;
  }

  /** The indices below `jobs` whose two taps exist, in order. */
  function ValidPairs(jobs: nat, tapExists: string -> bool): (valid: seq<nat>)
    ensures forall k :: 0 <= k < |valid| ==> valid[k] < jobs
    ensures IsDuplicateFree(valid)
  {
    if jobs == 0 then []
    else
      var i := jobs - 1;
      ValidPairs(i, tapExists) + if tapExists(TapName(SrcTap(i))) && tapExists(TapName(DstTap(i))) then [i] else []
  }

  /** In increasing order, so that the last one popped is the largest. */
  lemma {:induction false} ValidPairsIncrease(jobs: nat, tapExists: string -> bool)
    ensures forall j, k :: 0 <= j < k < |ValidPairs(jobs, tapExists)| ==>
              ValidPairs(jobs, tapExists)[j] < ValidPairs(jobs, tapExists)[k]
  {
    if jobs > 0 {
      ValidPairsIncrease(jobs - 1, tapExists);
    }
  }

  ghost predicate IsDuplicateFree(indices: seq<nat>)
  {
    forall j, k :: 0 <= j < k < |indices| ==> indices[j] != indices[k]
  }

  lemma {:induction false} ValidPairsAre(jobs: nat, tapExists: string -> bool, i: nat)
    ensures i in ValidPairs(jobs, tapExists)
       <==> i < jobs && tapExists(NewPair(i).srcTap) && tapExists(NewPair(i).dstTap)
  {
    if jobs > 0 {
      ValidPairsAre(jobs - 1, tapExists, i);
    }
  }

  /** The pool behind its mutex, filled on the first allocation. */
  class Pool {
    var indices: Option<seq<nat>>

    constructor ()
      ensures indices == None
    {
      indices := None;
    }

    /** `allocate_taps`: initialise once, then pop; None when no pair is free. */
    method Allocate(jobs: nat, tapExists: string -> bool) returns (r: Option<TapPair>)
      modifies this
      ensures var free := if old(indices).Some? then old(indices).value else ValidPairs(jobs, tapExists);
        && free == Initialised(old(indices), jobs, tapExists)
        && (r.None? <==> free == [])
        && (r.None? ==> indices == Some([]))
        && (r.Some? ==> r.value == NewPair(r.value.pairIndex))
        && (r.Some? ==> indices.Some? && indices.value + [r.value.pairIndex] == free)
        && (r.Some? && (forall i :: i in free ==> i in ValidPairs(jobs, tapExists)) ==>
              tapExists(r.value.srcTap) && tapExists(r.value.dstTap))
    {
      if indices.None? {
        indices := Some(ValidPairs(jobs, tapExists));
      }
      var free := indices.value;
      if free == [] {
        return None;
      }
      var pairIndex := free[|free| - 1];
      indices := Some(free[..|free| - 1]);
      PairIs(pairIndex);
      ValidPairsAre(jobs, tapExists, pairIndex);
      assert free[..|free| - 1] + [pairIndex] == free;
      return Some(NewPair(pairIndex));
    }

    /** The drop of a pair. */
    method Release(pair: TapPair)
      modifies this
      ensures indices == if old(indices).Some? then Some(old(indices).value + [pair.pairIndex]) else None
      ensures indices == Returned(old(indices), pair.pairIndex)
    {
      if indices.Some? {
        indices := Some(indices.value + [pair.pairIndex]);
      }
    }

    /** A test that fails right after its allocation: the drop gives back the pool it started from. */
    method AllocateAndDrop(jobs: nat, tapExists: string -> bool) returns (found: bool)
      modifies this
      ensures var free := if old(indices).Some? then old(indices).value else ValidPairs(jobs, tapExists);
        indices == Some(free) && (found <==> free != [])
    {
      var r := Allocate(jobs, tapExists);
      found := r.Some?;
      if r.Some? {
        Release(r.value);
      }
    }
  }

  function Initialised(pool: Option<seq<nat>>, jobs: nat, tapExists: string -> bool): seq<nat>
  {
    if pool.Some? then pool.value else ValidPairs(jobs, tapExists)
  }

  function Returned(pool: Option<seq<nat>>, pairIndex: nat): Option<seq<nat>>
  {
    if pool.Some? then Some(pool.value + [pairIndex]) else None
  }
}
