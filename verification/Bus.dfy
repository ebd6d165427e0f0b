/** The address-routing bus (src/bus/tlm_bus.cpp): mapping ranges and decoding addresses. All sums are
    taken modulo 2^32, as uint32_t does. */
module Bus {

  const TOP: nat := 0x1_0000_0000
  type U32 = n: nat | n < TOP

  /** MappedRange. */
  datatype Range = Range(base: U32, size: U32, target: nat) {
    function End(): U32 { (base + size) % TOP }
    /** The test of `decode`. */
    predicate Contains(a: U32) { base <= a < End() }
    /** The range ends below 2^32, so its end does not wrap. */
    predicate Proper() { base + size < TOP }
  }

  /** The test of `map`. */
  predicate Overlap(r: Range, q: Range) { r.base < q.End() && q.base < r.End() }

  predicate Sorted(rs: seq<Range>) { forall i, j :: 0 <= i < j < |rs| ==> rs[i].base <= rs[j].base }
  predicate NoOverlap(rs: seq<Range>) { forall i, j :: 0 <= i < j < |rs| ==> !Overlap(rs[i], rs[j]) }
  predicate Free(rs: seq<Range>, r: Range) { forall i :: 0 <= i < |rs| ==> !Overlap(r, rs[i]) }

  /** For ranges that end below 2^32 and are not empty, the test of `map` is exact: it fires when and
      only when some address lies in both. */
  lemma OverlapIsSharing(r: Range, q: Range)
    requires r.Proper() && q.Proper() && r.size > 0 && q.size > 0
    ensures Overlap(r, q) <==> exists a: U32 :: r.Contains(a) && q.Contains(a)
  {
    if Overlap(r, q) {
      var a: U32 := if r.base < q.base then q.base else r.base;
      assert r.Contains(a) && q.Contains(a);
    }
  }

  /** A range can be reached at all exactly when it is not empty and does not wrap. */
  lemma ReachableRanges(r: Range)
    ensures (exists a: U32 :: r.Contains(a)) <==> r.size > 0 && r.Proper()
  {
    if r.size > 0 && r.Proper() { assert r.Contains(r.base); }
  }

  // ---- map ----

  /** Where a range goes: behind the ranges with a base no greater than its own. */
  function Placed(rs: seq<Range>, r: Range): (out: seq<Range>)
    ensures |out| == |rs| + 1
  {
    if rs == [] then [r]
    else if rs[|rs| - 1].base <= r.base then rs + [r]
    else Placed(rs[..|rs| - 1], r) + [rs[|rs| - 1]]
  }

  lemma {:induction false} PlacedKeepsAll(rs: seq<Range>, r: Range)
    ensures multiset(Placed(rs, r)) == multiset(rs) + multiset{r}
  {
    if rs != [] {
      var n := |rs| - 1;
      assert rs == rs[..n] + [rs[n]];
      PlacedKeepsAll(rs[..n], r);
    }
  }
  lemma InPlaced(rs: seq<Range>, r: Range, q: Range)
    requires q in Placed(rs, r)
    ensures q in rs || q == r
  {
    PlacedKeepsAll(rs, r);
    assert q in multiset(Placed(rs, r));
  }

  lemma {:induction false} PlacedIsSorted(rs: seq<Range>, r: Range)
    requires Sorted(rs)
    ensures Sorted(Placed(rs, r))
  {
    if rs != [] && rs[|rs| - 1].base > r.base {
      var n := |rs| - 1;
      PlacedIsSorted(rs[..n], r);
      var out := Placed(rs[..n], r);
      forall i | 0 <= i < |out| ensures out[i].base <= rs[n].base {
        InPlaced(rs[..n], r, out[i]);
      }
    }
  }

  lemma {:induction false} PlacedHasNoOverlap(rs: seq<Range>, r: Range)
    requires NoOverlap(rs) && Free(rs, r)
    ensures NoOverlap(Placed(rs, r))
  {
    if rs != [] && rs[|rs| - 1].base > r.base {
      var n := |rs| - 1;
      PlacedHasNoOverlap(rs[..n], r);
      var out := Placed(rs[..n], r);
      forall i | 0 <= i < |out| ensures !Overlap(out[i], rs[n]) {
        InPlaced(rs[..n], r, out[i]);
      }
    }
  }

  // ---- sequences of map calls ----

  datatype Call = Call(base: U32, size: U32)
  datatype Layout = Fatal | Layout(ranges: seq<Range>)

  function RangeOf(calls: seq<Call>, i: nat): Range
    requires i < |calls|
  {
    Range(calls[i].base, calls[i].size, i)
  }
  /** The ranges of the calls, in call order. */
  function Ranges(calls: seq<Call>): (rs: seq<Range>)
    ensures |rs| == |calls|
  {
    seq(|calls|, i requires 0 <= i < |calls| => RangeOf(calls, i))
  }

  /** The bus after the calls; a call that reports an overlap is fatal. */
  function MapAll(calls: seq<Call>): Layout {
    if calls == [] then Layout([])
    else
      var n := |calls| - 1;
      match MapAll(calls[..n])
      case Fatal => Fatal
      case Layout(rs) => if Free(rs, RangeOf(calls, n)) then Layout(Placed(rs, RangeOf(calls, n))) else Fatal
  }

  lemma RangesOfPrefix(calls: seq<Call>)
    requires calls != []
    ensures Ranges(calls) == Ranges(calls[..|calls| - 1]) + [RangeOf(calls, |calls| - 1)]
  {}

  lemma FreeIsAboutContents(rs: seq<Range>, qs: seq<Range>, r: Range)
    requires multiset(rs) == multiset(qs) && Free(rs, r)
    ensures Free(qs, r)
  {
    forall i | 0 <= i < |qs| ensures !Overlap(r, qs[i]) {
      assert qs[i] in multiset(qs);
      assert qs[i] in rs;
    }
  }

  /** Call sequences are accepted exactly when no two of their ranges overlap, in whatever order they
      come; the bus then holds those ranges, sorted by base. */
  lemma {:induction false} MapAccepts(calls: seq<Call>)
    ensures MapAll(calls).Layout? <==> NoOverlap(Ranges(calls))
    ensures MapAll(calls).Layout? ==>
      var rs := MapAll(calls).ranges;
      Sorted(rs) && NoOverlap(rs) && multiset(rs) == multiset(Ranges(calls))
  {
    if calls != [] {
      var n := |calls| - 1;
      var r := RangeOf(calls, n);
      MapAccepts(calls[..n]);
      RangesOfPrefix(calls);
      var all, init := Ranges(calls), Ranges(calls[..n]);
      if NoOverlap(all) {
        assert forall i, j :: 0 <= i < j < |init| ==> all[i] == init[i] && all[j] == init[j];
      }
      if MapAll(calls[..n]).Layout? {
        var rs := MapAll(calls[..n]).ranges;
        if NoOverlap(all) {
          assert forall i :: 0 <= i < |init| ==> !Overlap(all[i], all[n]);
          FreeIsAboutContents(init, rs, r);
        }
        if Free(rs, r) {
          FreeIsAboutContents(rs, init, r);
          PlacedIsSorted(rs, r);
          PlacedHasNoOverlap(rs, r);
          PlacedKeepsAll(rs, r);
        }
      }
    }
  }

  // ---- decode ----

  /** The first range that contains the address; |rs| stands for the source's -1. */
  function Decode(rs: seq<Range>, a: U32): (i: nat)
    ensures i <= |rs|
    ensures i < |rs| ==> rs[i].Contains(a)
    ensures forall j :: 0 <= j < i ==> !rs[j].Contains(a)
  {
    if rs == [] then 0 else if rs[0].Contains(a) then 0 else 1 + Decode(rs[1..], a)
  }

  /** Ranges that do not overlap share no address. */
  lemma ContainedOnce(rs: seq<Range>, a: U32, i: nat, j: nat)
    requires NoOverlap(rs) && i < |rs| && j < |rs| && rs[i].Contains(a) && rs[j].Contains(a)
    ensures i == j
  {
    assert Overlap(rs[i], rs[j]) && Overlap(rs[j], rs[i]);
  }

  /** After any accepted sequence of map calls, decode finds the one range that contains the address,
      whenever some call covers it, and misses otherwise. A range that wraps covers nothing
      (ReachableRanges). */
  lemma DecodeFindsTheRange(calls: seq<Call>, a: U32)
    requires MapAll(calls).Layout?
    ensures var rs := MapAll(calls).ranges;
      var i := Decode(rs, a);
      && (i == |rs| <==> forall k :: 0 <= k < |calls| ==> !RangeOf(calls, k).Contains(a))
      && (i < |rs| ==> rs[i].Contains(a) && rs[i].target < |calls| && rs[i] == RangeOf(calls, rs[i].target)
                       && forall k :: 0 <= k < |calls| && RangeOf(calls, k).Contains(a) ==> k == rs[i].target)
  {
    MapAccepts(calls);
    var rs, qs := MapAll(calls).ranges, Ranges(calls);
    var i := Decode(rs, a);
    forall k | 0 <= k < |calls| && RangeOf(calls, k).Contains(a) ensures i < |rs| {
      assert qs[k] in multiset(qs);
      assert qs[k] in rs;
    }
    if i < |rs| {
      assert rs[i] in multiset(rs);
      assert rs[i] in qs;
      forall k | 0 <= k < |calls| && RangeOf(calls, k).Contains(a) ensures k == rs[i].target {
        ContainedOnce(qs, a, rs[i].target, k);
      }
    }
  }

  /** Two copies of a range that ends at 2^32 are both accepted, and neither can be reached. */
  lemma WrappingRangesEscape()
    ensures var calls := [Call(0xFFFF_F000, 0x1000), Call(0xFFFF_F000, 0x1000)];
      MapAll(calls).Layout? && forall a: U32 :: Decode(MapAll(calls).ranges, a) == 2
  {
    hide MapAll, Decode;
    var calls := [Call(0xFFFF_F000, 0x1000), Call(0xFFFF_F000, 0x1000)];
    MapAccepts(calls);
    forall a: U32 ensures Decode(MapAll(calls).ranges, a) == 2 {
      DecodeFindsTheRange(calls, a);
      assert |MapAll(calls).ranges| == |multiset(Ranges(calls))| == 2;
    }
  }

  // ---- the bus object ----

  /** The effect of push_back and sort on a sorted vector: the new range moves down to its place. */
  method SortLast(was: seq<Range>, r: Range) returns (rs: seq<Range>)
    ensures rs == Placed(was, r)
  {
    rs := was + [r];
    var k := |was|;
    assert was[..k] == was;
    while k > 0 && rs[k - 1].base > rs[k].base
      invariant 0 <= k <= |was|
      invariant rs == was[..k] + [r] + was[k..]
      invariant Placed(was, r) == Placed(was[..k], r) + was[k..]
    {
      rs := rs[k - 1 := rs[k]][k := rs[k - 1]];
      k := k - 1;
      assert was[..k + 1][..k] == was[..k];
      assert [was[k]] + was[k + 1..] == was[k..];
    }
  }

  class TlmBus {
    var ranges: seq<Range>
    var nextTarget: nat

    predicate Valid()
      reads this
    {
      Sorted(ranges) && NoOverlap(ranges)
    }

    constructor ()
      ensures Valid() && ranges == [] && nextTarget == 0
    {
      ranges, nextTarget := [], 0;
    }

    /** `map`: false stands for the fatal report. The sort moves the one new range into place. */
    method Map(base: U32, size: U32) returns (ok: bool)
      requires Valid()
      modifies this
      ensures Valid()
      ensures ok == Free(old(ranges), Range(base, size, old(nextTarget)))
      ensures ok ==> ranges == Placed(old(ranges), Range(base, size, old(nextTarget))) && nextTarget == old(nextTarget) + 1
      ensures !ok ==> ranges == old(ranges) && nextTarget == old(nextTarget)
    {
      var r := Range(base, size, nextTarget);
      for i := 0 to |ranges|
        invariant forall j :: 0 <= j < i ==> !Overlap(r, ranges[j])
      {
        if base < ranges[i].End() && ranges[i].base < r.End() { return false; }
      }
      PlacedIsSorted(ranges, r);
      PlacedHasNoOverlap(ranges, r);
      ranges := SortLast(ranges, r);
      nextTarget := nextTarget + 1;
      return true;
    }

    /** `decode`, with |ranges| for -1. */
    method Find(a: U32) returns (i: nat)
      ensures i == Decode(ranges, a)
    {
      i := 0;
      while i < |ranges| && !ranges[i].Contains(a)
        invariant i <= |ranges|
        invariant forall j :: 0 <= j < i ==> !ranges[j].Contains(a)
      {
        i := i + 1;
      }
    }
  }
}
