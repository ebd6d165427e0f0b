/** The memory fast path of the CPU (src/cpu/iss.cpp:188-259): direct memory access against routing
    through the bus. */
module Dmi {
  import opened Bus
  import opened Memory

  /** What is bound behind a range. Only RAM and ROM grant direct access. */
  datatype Target = RamTarget(cells: Bytes) | RomTarget(cells: Bytes) | Device

  /** What a device does with an access: whether it accepts it, and the bytes a read leaves. */
  datatype Answer = Answer(ok: bool, bytes: nat -> Octet)

  /** Every range leads to a target; memory targets are as large as their range. */
  predicate Fits(rs: seq<Range>, ts: seq<Target>) {
    && NoOverlap(rs)
    && forall i :: 0 <= i < |rs| ==>
         rs[i].target < |ts| && (!ts[rs[i].target].Device? ==> |ts[rs[i].target].cells| == rs[i].size)
  }

  /** A bus built by accepted map calls fits targets of the mapped sizes. */
  lemma MappedBusFits(calls: seq<Call>, ts: seq<Target>)
    requires MapAll(calls).Layout? && |ts| == |calls|
    requires forall i :: 0 <= i < |calls| ==> ts[i].Device? || |ts[i].cells| == calls[i].size
    ensures Fits(MapAll(calls).ranges, ts)
  {
    MapAccepts(calls);
    var rs, qs := MapAll(calls).ranges, Ranges(calls);
    forall i | 0 <= i < |rs| ensures rs[i].target < |calls| && rs[i] == RangeOf(calls, rs[i].target) {
      assert rs[i] in multiset(rs);
      assert rs[i] in qs;
    }
  }

  // ---- accesses routed through the bus ----

  /** The target an address leads to and the address inside it. */
  datatype Place = Nowhere | Place(target: nat, at: U32)

  function Locate(rs: seq<Range>, a: U32): Place {
    var i := Decode(rs, a);
    if i == |rs| then Nowhere else Place(rs[i].target, a - rs[i].base)
  }

  function RoutedRead(rs: seq<Range>, ts: seq<Target>, a: U32, n: nat, dev: Answer): Reply
    requires Fits(rs, ts)
  {
    match Locate(rs, a)
    case Nowhere => Refused
    case Place(t, at) =>
      if ts[t].Device? then if dev.ok then Data(seq(n, i requires 0 <= i => dev.bytes(i))) else Refused
      else Peek(ts[t].cells, at, n)
  }

  /** A write: accepted, refused, or stray. */
  datatype Ack = Accepted | Rejected | Astray

  datatype Written = Written(ts: seq<Target>, ack: Ack)

  /** RAM takes the bytes; ROM and out-of-bounds accesses are refused; devices are not memory. */
  function RoutedWrite(rs: seq<Range>, ts: seq<Target>, a: U32, data: Bytes, dev: Answer): Written
    requires Fits(rs, ts)
  {
    match Locate(rs, a)
    case Nowhere => Written(ts, Rejected)
    case Place(t, at) =>
      if ts[t].Device? then Written(ts, if dev.ok then Accepted else Rejected)
      else if Refuses(|ts[t].cells|, at, |data|) then Written(ts, Rejected)
      else if ts[t].RomTarget? then Written(ts, Rejected)
      else if at + |data| > |ts[t].cells| then Written(ts, Astray)
      else Written(ts[t := RamTarget(Splice(ts[t].cells, at, data))], Accepted)
  }

  /** Targets keep their kind and size. */
  predicate SameShape(ts: seq<Target>, us: seq<Target>) {
    |ts| == |us| && forall i :: 0 <= i < |ts| ==>
      && ts[i].Device? == us[i].Device? && ts[i].RomTarget? == us[i].RomTarget?
      && (!ts[i].Device? ==> |ts[i].cells| == |us[i].cells|)
  }
  lemma WriteKeepsShape(rs: seq<Range>, ts: seq<Target>, a: U32, data: Bytes, dev: Answer)
    requires Fits(rs, ts)
    ensures SameShape(ts, RoutedWrite(rs, ts, a, data, dev).ts) && Fits(rs, RoutedWrite(rs, ts, a, data, dev).ts)
  {}

  // ---- the grant ----

  /** The dmi_* fields: global first and last address, and the target whose bytes they cover. */
  datatype Grant = NoGrant | Grant(first: nat, last: nat, target: nat)

  /** The guard of the fast path, with its 32-bit sum. */
  predicate Hits(g: Grant, a: U32, n: nat)
    requires n > 0
  {
    g.Grant? && a >= g.first && (a + n - 1) % TOP <= g.last
  }

  /** try_dmi through the bus: the whole range of a memory target. */
  function Request(rs: seq<Range>, ts: seq<Target>, a: U32): Grant
    requires Fits(rs, ts)
  {
    var i := Decode(rs, a);
    if i == |rs| || ts[rs[i].target].Device? then NoGrant
    else Grant(rs[i].base, rs[i].base + |ts[rs[i].target].cells| - 1, rs[i].target)
  }

  predicate IsGrantOf(rs: seq<Range>, ts: seq<Target>, g: Grant, i: nat)
    requires Fits(rs, ts)
  {
    && i < |rs| && rs[i].size > 0 && rs[i].Proper() && !ts[rs[i].target].Device?
    && g == Grant(rs[i].base, rs[i].base + rs[i].size - 1, rs[i].target)
  }
  /** A grant is exactly one memory range. */
  predicate Covers(rs: seq<Range>, ts: seq<Target>, g: Grant)
    requires Fits(rs, ts)
  {
    g.Grant? ==> exists i: nat :: i < |rs| && IsGrantOf(rs, ts, g, i)
  }

  lemma RequestCovers(rs: seq<Range>, ts: seq<Target>, a: U32)
    requires Fits(rs, ts)
    ensures Covers(rs, ts, Request(rs, ts, a))
  {
    var i := Decode(rs, a);
    if i < |rs| && !ts[rs[i].target].Device? {
      ReachableRanges(rs[i]);
      assert IsGrantOf(rs, ts, Request(rs, ts, a), i);
    }
  }
  lemma ShapeKeepsGrant(rs: seq<Range>, ts: seq<Target>, us: seq<Target>, g: Grant)
    requires Fits(rs, ts) && Covers(rs, ts, g) && SameShape(ts, us)
    ensures Fits(rs, us) && Covers(rs, us, g)
  {
    if g.Grant? {
      var i: nat :| i < |rs| && IsGrantOf(rs, ts, g, i);
      assert IsGrantOf(rs, us, g, i);
    }
  }

  /** An access that hits the grant and ends at or below 2^32 leads to the granted target and lies
      inside it; one that wraps does not. */
  lemma HitIsInside(rs: seq<Range>, ts: seq<Target>, g: Grant, a: U32, n: nat)
    requires Fits(rs, ts) && Covers(rs, ts, g) && n > 0 && Hits(g, a, n)
    ensures g.target < |ts| && !ts[g.target].Device? && |ts[g.target].cells| < TOP
    ensures n < TOP ==> (a + n <= TOP <==> a - g.first + n <= |ts[g.target].cells|)
    ensures a + n <= TOP ==> Locate(rs, a) == Place(g.target, a - g.first)
  {
    var i: nat :| i < |rs| && IsGrantOf(rs, ts, g, i);
    if a + n <= TOP {
      assert rs[i].Contains(a);
      ContainedOnce(rs, a, i, Decode(rs, a));
    }
  }

  // ---- the fast path ----

  datatype Port = Port(ts: seq<Target>, grant: Grant)

  predicate PortOk(rs: seq<Range>, p: Port) { Fits(rs, p.ts) && Covers(rs, p.ts, p.grant) }

  /** The widths of CPU accesses. */
  type Width = n: nat | n == 1 || n == 2 || n == 4 witness 1
  type WidthBytes = b: Bytes | |b| == 1 || |b| == 2 || |b| == 4 witness [0]

  /** The direct copy out of the granted target. */
  function FastRead(rs: seq<Range>, p: Port, a: U32, n: Width): Reply
    requires PortOk(rs, p) && Hits(p.grant, a, n)
  {
    HitIsInside(rs, p.ts, p.grant, a, n);
    var m, at := p.ts[p.grant.target].cells, a - p.grant.first;
    if at + n <= |m| then Data(m[at..at + n]) else Stray
  }

  /** The direct copy into it, whatever the grant allows. */
  function FastWrite(rs: seq<Range>, p: Port, a: U32, data: WidthBytes): Written
    requires PortOk(rs, p) && Hits(p.grant, a, |data|)
  {
    HitIsInside(rs, p.ts, p.grant, a, |data|);
    var t, at := p.ts[p.grant.target], a - p.grant.first;
    if at + |data| <= |t.cells| then Written(p.ts[p.grant.target := t.(cells := Splice(t.cells, at, data))], Accepted)
    else Written(p.ts, Astray)
  }

  /** What bus_read returns: a buffer of zeros when the access is refused. */
  function CpuSees(r: Reply, n: nat): Reply { if r.Refused? then Data(seq(n, _ => 0)) else r }

  /** bus_write ignores the response; only a stray write matters. */
  function CpuWrote(w: Written): Reply { if w.ack.Astray? then Stray else Data([]) }

  // ---- when one access is faithful ----

  /** The routed access would stray as well. */
  predicate RoutedStrays(rs: seq<Range>, ts: seq<Target>, a: U32, n: nat)
    requires Fits(rs, ts)
  {
    var l := Locate(rs, a);
    l.Place? && !ts[l.target].Device? && Strays(|ts[l.target].cells|, l.at, n)
  }
  predicate RoutedWriteStrays(rs: seq<Range>, ts: seq<Target>, a: U32, n: nat)
    requires Fits(rs, ts)
  {
    RoutedStrays(rs, ts, a, n) && ts[Locate(rs, a).target].RamTarget?
  }

  /** The granted target holds these bytes already. */
  predicate Holds(rs: seq<Range>, p: Port, a: U32, data: WidthBytes)
    requires PortOk(rs, p) && Hits(p.grant, a, |data|)
  {
    FastRead(rs, p, a, |data|) == Data(data)
  }

  /** A direct read sees what a routed read would see exactly when it ends at or below 2^32, or routing
      would stray too. */
  lemma FastReadIsRouted(rs: seq<Range>, p: Port, a: U32, n: Width, dev: Answer)
    requires PortOk(rs, p) && Hits(p.grant, a, n)
    ensures FastRead(rs, p, a, n) == CpuSees(RoutedRead(rs, p.ts, a, n, dev), n)
      <==> a + n <= TOP || RoutedStrays(rs, p.ts, a, n)
  {
    HitIsInside(rs, p.ts, p.grant, a, n);
    if a + n <= TOP { InsideIsNotRefused(|p.ts[p.grant.target].cells|, a - p.grant.first, n); }
  }
  lemma InsideIsNotRefused(size: U32, at: U32, n: nat)
    requires at + n <= size
    ensures !Refuses(size, at, n)
  {}

  lemma SpliceOfSame(m: Bytes, a: nat, data: Bytes)
    requires a + |data| <= |m|
    ensures Splice(m, a, data) == m <==> m[a..a + |data|] == data
  {
    if m[a..a + |data|] == data { assert m == m[..a] + data + m[a + |data|..]; }
    if Splice(m, a, data) == m { assert Splice(m, a, data)[a..a + |data|] == data; }
  }

  lemma FastWriteInside(rs: seq<Range>, p: Port, a: U32, data: WidthBytes, dev: Answer)
    requires PortOk(rs, p) && Hits(p.grant, a, |data|) && a + |data| <= TOP
    ensures var f, w := FastWrite(rs, p, a, data), RoutedWrite(rs, p.ts, a, data, dev);
      && CpuWrote(f) == Data([]) == CpuWrote(w)
      && (f.ts == w.ts <==> p.ts[p.grant.target].RamTarget? || Holds(rs, p, a, data))
  {
    HitIsInside(rs, p.ts, p.grant, a, |data|);
    var g := p.grant.target;
    var t, at := p.ts[g], a - p.grant.first;
    InsideIsNotRefused(|t.cells|, at, |data|);
    SpliceOfSame(t.cells, at, data);
    var f := FastWrite(rs, p, a, data);
    assert f.ts[g].cells == Splice(t.cells, at, data);
    if t.RomTarget? && Holds(rs, p, a, data) { assert f.ts == p.ts; }
  }

  /** A direct write has the effect of the routed one exactly when it ends at or below 2^32 and the
      granted target is RAM or holds the bytes already, or routing would stray too. The grant's write
      permission is never consulted. */
  lemma FastWriteIsRouted(rs: seq<Range>, p: Port, a: U32, data: WidthBytes, dev: Answer)
    requires PortOk(rs, p) && Hits(p.grant, a, |data|)
    ensures var f, w := FastWrite(rs, p, a, data), RoutedWrite(rs, p.ts, a, data, dev);
      CpuWrote(f) == CpuWrote(w) && f.ts == w.ts
      <==> if a + |data| <= TOP then p.ts[p.grant.target].RamTarget? || Holds(rs, p, a, data)
           else RoutedWriteStrays(rs, p.ts, a, |data|)
  {
    HitIsInside(rs, p.ts, p.grant, a, |data|);
    if a + |data| <= TOP { FastWriteInside(rs, p, a, data, dev); }
  }

  // ---- runs ----

  datatype Op =
    | CpuRead(a: U32, n: Width, dev: Answer)
    | CpuWrite(a: U32, data: WidthBytes, dev: Answer)
    | MasterRead(a: U32, len: nat, dev: Answer)
    | MasterWrite(a: U32, bytes: Bytes, dev: Answer)
    | FenceI
    | Invalidate(first: nat, last: nat)

  /** What an operation shows: the reply to its issuer, and memory after it. */
  datatype Item = Item(reply: Reply, ts: seq<Target>)

  function RoutedItem(rs: seq<Range>, ts: seq<Target>, op: Op): Item
    requires Fits(rs, ts)
  {
    match op
    case CpuRead(a, n, dev) => Item(CpuSees(RoutedRead(rs, ts, a, n, dev), n), ts)
    case CpuWrite(a, data, dev) =>
      var w := RoutedWrite(rs, ts, a, data, dev);
      Item(CpuWrote(w), w.ts)
    case MasterRead(a, len, dev) => Item(RoutedRead(rs, ts, a, len, dev), ts)
    case MasterWrite(a, data, dev) =>
      var w := RoutedWrite(rs, ts, a, data, dev);
      Item(match w.ack case Accepted => Data([]) case Rejected => Refused case Astray => Stray, w.ts)
    case _ => Item(Data([]), ts)
  }

  /** The same with the fast path: bus_read and bus_write. Bus masters are always routed. */
  function PortItem(rs: seq<Range>, p: Port, op: Op): Item
    requires PortOk(rs, p)
  {
    match op
    case CpuRead(a, n, _) =>
      if Hits(p.grant, a, n) then Item(FastRead(rs, p, a, n), p.ts) else RoutedItem(rs, p.ts, op)
    case CpuWrite(a, data, _) =>
      if Hits(p.grant, a, |data|) then
        var w := FastWrite(rs, p, a, data);
        Item(CpuWrote(w), w.ts)
      else RoutedItem(rs, p.ts, op)
    case _ => RoutedItem(rs, p.ts, op)
  }

  /** try_dmi after a routed read without a grant, FENCE.I, and invalidate_dmi. */
  function NextGrant(rs: seq<Range>, p: Port, op: Op): Grant
    requires PortOk(rs, p)
  {
    match op
    case CpuRead(a, _, _) => if p.grant.NoGrant? then Request(rs, p.ts, a) else p.grant
    case FenceI => NoGrant
    case Invalidate(first, last) =>
      if p.grant.Grant? && !(last < p.grant.first || first > p.grant.last) then NoGrant else p.grant
    case _ => p.grant
  }
  function PortNext(rs: seq<Range>, p: Port, op: Op): Port
    requires PortOk(rs, p)
  {
    Port(PortItem(rs, p, op).ts, NextGrant(rs, p, op))
  }

  lemma RoutedKeepsShape(rs: seq<Range>, ts: seq<Target>, op: Op)
    requires Fits(rs, ts)
    ensures SameShape(ts, RoutedItem(rs, ts, op).ts) && Fits(rs, RoutedItem(rs, ts, op).ts)
  {
    if op.CpuWrite? { WriteKeepsShape(rs, ts, op.a, op.data, op.dev); }
    if op.MasterWrite? { WriteKeepsShape(rs, ts, op.a, op.bytes, op.dev); }
  }
  lemma FastKeepsShape(rs: seq<Range>, p: Port, a: U32, data: WidthBytes)
    requires PortOk(rs, p) && Hits(p.grant, a, |data|)
    ensures SameShape(p.ts, FastWrite(rs, p, a, data).ts)
  {
    HitIsInside(rs, p.ts, p.grant, a, |data|);
  }

  lemma PortStaysOk(rs: seq<Range>, p: Port, op: Op)
    requires PortOk(rs, p)
    ensures PortOk(rs, PortNext(rs, p, op))
  {
    RoutedKeepsShape(rs, p.ts, op);
    if op.CpuWrite? && Hits(p.grant, op.a, |op.data|) { FastKeepsShape(rs, p, op.a, op.data); }
    if op.CpuRead? { RequestCovers(rs, p.ts, op.a); }
    ShapeKeepsGrant(rs, p.ts, PortItem(rs, p, op).ts, p.grant);
  }

  /** The condition on one operation, in terms of the state before it. */
  predicate Faithful(rs: seq<Range>, p: Port, op: Op)
    requires PortOk(rs, p)
  {
    match op
    case CpuRead(a, n, _) => Hits(p.grant, a, n) ==> a + n <= TOP || RoutedStrays(rs, p.ts, a, n)
    case CpuWrite(a, data, _) =>
      Hits(p.grant, a, |data|) ==>
        (HitIsInside(rs, p.ts, p.grant, a, |data|);
         if a + |data| <= TOP then p.ts[p.grant.target].RamTarget? || Holds(rs, p, a, data)
         else RoutedWriteStrays(rs, p.ts, a, |data|))
    case _ => true
  }

  lemma AccessRefinesIff(rs: seq<Range>, p: Port, op: Op)
    requires PortOk(rs, p)
    ensures PortItem(rs, p, op) == RoutedItem(rs, p.ts, op) <==> Faithful(rs, p, op)
  {
    if op.CpuRead? && Hits(p.grant, op.a, op.n) { FastReadIsRouted(rs, p, op.a, op.n, op.dev); }
    if op.CpuWrite? && Hits(p.grant, op.a, |op.data|) { FastWriteIsRouted(rs, p, op.a, op.data, op.dev); }
  }

  ghost function RoutedTrace(rs: seq<Range>, ts: seq<Target>, ops: seq<Op>): seq<Item>
    requires Fits(rs, ts)
    decreases |ops|
  {
    if ops == [] then []
    else
      RoutedKeepsShape(rs, ts, ops[0]);
      [RoutedItem(rs, ts, ops[0])] + RoutedTrace(rs, RoutedItem(rs, ts, ops[0]).ts, ops[1..])
  }
  ghost function PortTrace(rs: seq<Range>, p: Port, ops: seq<Op>): seq<Item>
    requires PortOk(rs, p)
    decreases |ops|
  {
    if ops == [] then []
    else
      PortStaysOk(rs, p, ops[0]);
      [PortItem(rs, p, ops[0])] + PortTrace(rs, PortNext(rs, p, ops[0]), ops[1..])
  }
  /** Every operation of the run is faithful when its turn comes. */
  ghost predicate AllFaithful(rs: seq<Range>, p: Port, ops: seq<Op>)
    requires PortOk(rs, p)
    decreases |ops|
  {
    ops == [] || (PortStaysOk(rs, p, ops[0]); Faithful(rs, p, ops[0]) && AllFaithful(rs, PortNext(rs, p, ops[0]), ops[1..]))
  }

  lemma ConsIsInjective(x: Item, xs: seq<Item>, y: Item, ys: seq<Item>)
    ensures [x] + xs == [y] + ys <==> x == y && xs == ys
  {
    if [x] + xs == [y] + ys {
      assert ([x] + xs)[0] == ([y] + ys)[0];
      assert ([x] + xs)[1..] == xs && ([y] + ys)[1..] == ys;
    }
  }

  /** DMI refines the bus, exactly: over any interleaving of CPU accesses, bus-master accesses, FENCE.I
      and invalidations, from any grant, every operation gives the reply and leaves the memory that
      routing would, if and only if every CPU access that takes the fast path is faithful. */
  lemma {:induction false} DmiRefinesBusIff(rs: seq<Range>, p: Port, ops: seq<Op>)
    requires PortOk(rs, p)
    ensures PortTrace(rs, p, ops) == RoutedTrace(rs, p.ts, ops) <==> AllFaithful(rs, p, ops)
    decreases |ops|
  {
    hide PortItem, RoutedItem, NextGrant, Faithful;
    if ops != [] {
      var op, p' := ops[0], PortNext(rs, p, ops[0]);
      AccessRefinesIff(rs, p, op);
      PortStaysOk(rs, p, op);
      RoutedKeepsShape(rs, p.ts, op);
      ConsIsInjective(PortItem(rs, p, op), PortTrace(rs, p', ops[1..]),
                      RoutedItem(rs, p.ts, op), RoutedTrace(rs, RoutedItem(rs, p.ts, op).ts, ops[1..]));
      DmiRefinesBusIff(rs, p', ops[1..]);
    }
  }

  // ---- what a program can do to stay faithful ----

  /** CPU accesses end at or below 2^32, and CPU writes do not go to ROM: a condition on the operation
      and the fixed layout alone. */
  predicate Careful(rs: seq<Range>, ts: seq<Target>, op: Op)
    requires Fits(rs, ts)
  {
    match op
    case CpuRead(a, n, _) => a + n <= TOP
    case CpuWrite(a, data, _) =>
      a + |data| <= TOP && var l := Locate(rs, a); l.Place? ==> !ts[l.target].RomTarget?
    case _ => true
  }
  lemma CarefulIsFaithful(rs: seq<Range>, p: Port, op: Op)
    requires PortOk(rs, p) && Careful(rs, p.ts, op)
    ensures Faithful(rs, p, op)
  {
    if op.CpuWrite? && Hits(p.grant, op.a, |op.data|) { HitIsInside(rs, p.ts, p.grant, op.a, |op.data|); }
  }
  lemma ShapeKeepsCareful(rs: seq<Range>, ts: seq<Target>, us: seq<Target>, op: Op)
    requires Fits(rs, ts) && Fits(rs, us) && SameShape(ts, us) && Careful(rs, ts, op)
    ensures Careful(rs, us, op)
  {}

  lemma {:induction false} CarefulRunsAreFaithful(rs: seq<Range>, p: Port, ops: seq<Op>)
    requires PortOk(rs, p) && forall i :: 0 <= i < |ops| ==> Careful(rs, p.ts, ops[i])
    ensures AllFaithful(rs, p, ops)
    decreases |ops|
  {
    hide PortItem, RoutedItem, NextGrant, Faithful, Careful;
    if ops != [] {
      var p' := PortNext(rs, p, ops[0]);
      CarefulIsFaithful(rs, p, ops[0]);
      AccessRefinesIff(rs, p, ops[0]);
      PortStaysOk(rs, p, ops[0]);
      RoutedKeepsShape(rs, p.ts, ops[0]);
      forall i | 0 <= i < |ops[1..]| ensures Careful(rs, p'.ts, ops[1..][i]) {
        ShapeKeepsCareful(rs, p.ts, p'.ts, ops[i + 1]);
      }
      CarefulRunsAreFaithful(rs, p', ops[1..]);
    }
  }

  /** So a program that never lets an access wrap and never writes to ROM cannot tell the fast path
      from the bus, whatever the other masters do. */
  lemma DmiRefinesBus(rs: seq<Range>, p: Port, ops: seq<Op>)
    requires PortOk(rs, p) && forall i :: 0 <= i < |ops| ==> Careful(rs, p.ts, ops[i])
    ensures PortTrace(rs, p, ops) == RoutedTrace(rs, p.ts, ops)
  {
    CarefulRunsAreFaithful(rs, p, ops);
    DmiRefinesBusIff(rs, p, ops);
  }

  /** It does fail otherwise: a read of ROM takes a grant, and a write then changes it. */
  lemma RomIsWrittenThroughDmi(dev: Answer)
    ensures var rs, ts := [Range(0, 4, 0)], [RomTarget([0, 0, 0, 0])];
      var p0, read, write := Port(ts, NoGrant), CpuRead(0, 4, dev), CpuWrite(0, [1], dev);
      && PortOk(rs, p0)
      && var p := PortNext(rs, p0, read);
         PortOk(rs, p) && PortItem(rs, p, write).ts == [RomTarget([1, 0, 0, 0])] && RoutedItem(rs, ts, write).ts == ts
  {
    var rs, ts := [Range(0, 4, 0)], [RomTarget([0, 0, 0, 0])];
    var p0 := Port(ts, NoGrant);
    PortStaysOk(rs, p0, CpuRead(0, 4, dev));
    var p := PortNext(rs, p0, CpuRead(0, 4, dev));
    assert p == Port(ts, Grant(0, 3, 0));
    assert Splice([0, 0, 0, 0], 0, [1]) == [1, 0, 0, 0];
  }

  // ---- the ISS side as an object ----

  class CpuPort {
    const rs: seq<Range>
    var targets: seq<Target>
    var grant: Grant

    function View(): Port
      reads this
    {
      Port(targets, grant)
    }
    predicate Valid()
      reads this
    {
      PortOk(rs, View())
    }

    constructor (rs: seq<Range>, ts: seq<Target>)
      requires Fits(rs, ts)
      ensures Valid() && this.rs == rs && View() == Port(ts, NoGrant)
    {
      this.rs, targets, grant := rs, ts, NoGrant;
    }

    /** bus_read: the fast path, or a routed read that then asks for a grant. */
    method BusRead(a: U32, n: Width, dev: Answer) returns (v: Reply)
      requires Valid()
      modifies this`grant
      ensures Valid() && View() == PortNext(rs, old(View()), CpuRead(a, n, dev))
      ensures v == CpuSees(RoutedRead(rs, targets, a, n, dev), n) <==> Faithful(rs, old(View()), CpuRead(a, n, dev))
    {
      PortStaysOk(rs, View(), CpuRead(a, n, dev));
      AccessRefinesIff(rs, View(), CpuRead(a, n, dev));
      if grant.Grant? && a >= grant.first && (a + n - 1) % TOP <= grant.last {
        HitIsInside(rs, targets, grant, a, n);
        var m, at := targets[grant.target].cells, a - grant.first;
        return if at + n <= |m| then Data(m[at..at + n]) else Stray;
      }
      v := CpuSees(RoutedRead(rs, targets, a, n, dev), n);
      if grant.NoGrant? { grant := Request(rs, targets, a); }
    }

    /** bus_write. */
    method BusWrite(a: U32, data: WidthBytes, dev: Answer) returns (v: Reply)
      requires Valid()
      modifies this`targets
      ensures Valid() && View() == PortNext(rs, old(View()), CpuWrite(a, data, dev))
      ensures Item(v, targets) == RoutedItem(rs, old(targets), CpuWrite(a, data, dev))
        <==> Faithful(rs, old(View()), CpuWrite(a, data, dev))
    {
      hide RoutedWrite, Faithful, Fits, Covers, Splice;
      PortStaysOk(rs, View(), CpuWrite(a, data, dev));
      AccessRefinesIff(rs, View(), CpuWrite(a, data, dev));
      if grant.Grant? && a >= grant.first && (a + |data| - 1) % TOP <= grant.last {
        HitIsInside(rs, targets, grant, a, |data|);
        var t, at := targets[grant.target], a - grant.first;
        if at + |data| > |t.cells| { return Stray; }
        targets := targets[grant.target := t.(cells := Splice(t.cells, at, data))];
        return Data([]);
      }
      var w := RoutedWrite(rs, targets, a, data, dev);
      targets := w.ts;
      return CpuWrote(w);
    }

    /** invalidate_dmi. */
    method InvalidateDmi(first: nat, last: nat)
      requires Valid()
      modifies this`grant
      ensures Valid() && View() == PortNext(rs, old(View()), Invalidate(first, last))
      ensures grant.Grant? ==> last < grant.first || first > grant.last
    {
      if grant.Grant? && !(last < grant.first || first > grant.last) { grant := NoGrant; }
    }
  }
}
