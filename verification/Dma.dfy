/** The DMA engine (src/dma/dma_engine.cpp): the burst-copy loop against one whole-region copy. */
module Dma {
  import opened Bus
  import opened Memory
  import opened Dmi

  const BURST: nat := 256

  function Min(x: nat, y: nat): nat { if x <= y then x else y }

  /** One burst: read into the buffer, then write the buffer. */
  function Copy(m: Bytes, s: nat, d: nat, n: nat): (r: Bytes)
    requires s + n <= |m| && d + n <= |m|
    ensures |r| == |m|
  {
    Splice(m, d, m[s..s + n])
  }

  lemma CopyAt(m: Bytes, s: nat, d: nat, n: nat, p: nat)
    requires s + n <= |m| && d + n <= |m| && p < |m|
    ensures Copy(m, s, d, n)[p] == if d <= p < d + n then m[s + p - d] else m[p]
  {}

  /** The loop on values: bursts of at most 256 bytes, in ascending order. */
  function Bursts(m: Bytes, s: nat, d: nat, n: nat): (r: Bytes)
    requires s + n <= |m| && d + n <= |m|
    ensures |r| == |m|
    decreases n
  {
    if n == 0 then m
    else
      var k := Min(n, BURST);
      Bursts(Copy(m, s, d, k), s + k, d + k, n - k)
  }

  // ---- when the bursts are one copy ----

  lemma {:induction false} BurstsKeepRest(m: Bytes, s: nat, d: nat, n: nat, p: nat)
    requires s + n <= |m| && d + n <= |m| && p < |m| && !(d <= p < d + n)
    ensures Bursts(m, s, d, n)[p] == m[p]
    decreases n
  {
    hide Copy;
    if n > 0 {
      var k := Min(n, BURST);
      CopyAt(m, s, d, k, p);
      BurstsKeepRest(Copy(m, s, d, k), s + k, d + k, n - k, p);
    }
  }

  /** A source byte below the destination, or a destination not above the source: the byte arrives
      as it was before the transfer. */
  lemma {:induction false} ByteArrives(m: Bytes, s: nat, d: nat, n: nat, i: nat)
    requires s + n <= |m| && d + n <= |m| && i < n && (s + i < d || d <= s)
    ensures Bursts(m, s, d, n)[d + i] == m[s + i]
    decreases n
  {
    hide Copy;
    var k := Min(n, BURST);
    var m1 := Copy(m, s, d, k);
    if i < k {
      CopyAt(m, s, d, k, d + i);
      BurstsKeepRest(m1, s + k, d + k, n - k, d + i);
    } else {
      CopyAt(m, s, d, k, s + i);
      ByteArrives(m1, s + k, d + k, n - k, i - k);
    }
  }

  /** The caller's condition: copying downwards, disjoint regions, or at most one burst of 256 bytes. */
  predicate Safe(s: nat, d: nat, n: nat) { d <= s || s + n <= d || n <= 256 }

  lemma BytesArrive(m: Bytes, s: nat, d: nat, n: nat)
    requires s + n <= |m| && d + n <= |m| && (d <= s || s + n <= d)
    ensures Bursts(m, s, d, n) == Copy(m, s, d, n)
  {
    hide Copy, Bursts;
    var r, w := Bursts(m, s, d, n), Copy(m, s, d, n);
    forall p | 0 <= p < |m| ensures r[p] == w[p] {
      CopyAt(m, s, d, n, p);
      if d <= p < d + n { ByteArrives(m, s, d, n, p - d); } else { BurstsKeepRest(m, s, d, n, p); }
    }
    assert r == w;
  }

  lemma SafeIsWhole(m: Bytes, s: nat, d: nat, n: nat)
    requires s + n <= |m| && d + n <= |m| && Safe(s, d, n)
    ensures Bursts(m, s, d, n) == Copy(m, s, d, n)
  {
    hide Copy;
    if d <= s || s + n <= d {
      BytesArrive(m, s, d, n);
    } else {
      assert Bursts(Copy(m, s, d, n), s + n, d + n, 0) == Copy(m, s, d, n);
    }
  }

  /** The first source byte of a later burst that the first burst has already overwritten. */
  function Clobbered(s: nat, d: nat): nat { if d < s + BURST then s + BURST else d }

  /** An unsafe transfer delivers, for that byte, the byte (d - s) below it instead. */
  lemma UnsafeByte(m: Bytes, s: nat, d: nat, n: nat)
    requires s + n <= |m| && d + n <= |m| && !Safe(s, d, n)
    ensures var x := Clobbered(s, d); d <= x < d + BURST && s + BURST <= x < s + n
    ensures var x := Clobbered(s, d); Bursts(m, s, d, n)[d + (x - s)] == m[s + x - d]
  {
    hide Copy;
    var x := Clobbered(s, d);
    var m1 := Copy(m, s, d, BURST);
    ByteArrives(m1, s + BURST, d + BURST, n - BURST, x - s - BURST);
    CopyAt(m, s, d, BURST, x);
  }

  /** A burst transfer equals one whole-region copy, for every content of memory, exactly when it is
      safe. */
  lemma BurstsAreWholeIff(size: nat, s: nat, d: nat, n: nat)
    requires s + n <= size && d + n <= size
    ensures Safe(s, d, n) <==> forall m: Bytes :: |m| == size ==> Bursts(m, s, d, n) == Copy(m, s, d, n)
  {
    hide Copy, Bursts;
    if Safe(s, d, n) {
      forall m: Bytes | |m| == size ensures Bursts(m, s, d, n) == Copy(m, s, d, n) { SafeIsWhole(m, s, d, n); }
    } else {
      var x := Clobbered(s, d);
      var m: Bytes := seq(size, p => if p == x then 1 else 0);
      UnsafeByte(m, s, d, n);
      CopyAt(m, s, d, n, d + (x - s));
      assert Bursts(m, s, d, n) != Copy(m, s, d, n);
    }
  }

  // ---- transfers that leave memory ----

  /** The bytes that both regions have before the end of RAM; none if one starts outside. Addresses
      are global, RAM occupies [base, base + size). */
  function Room(base: nat, size: nat, s: nat, d: nat): nat {
    if base <= s <= base + size && base <= d <= base + size then Min(base + size - s, base + size - d) else 0
  }

  /** How much is copied: everything if it fits, and whole bursts only otherwise. */
  function Done(room: nat, n: nat): (c: nat)
    ensures c <= n && c <= room
  {
    if n <= room then n else room / BURST * BURST
  }

  /** Whether the bus and RAM let an access through. */
  predicate Lets(base: nat, size: nat, a: nat, len: nat) { base <= a && a < base + size && a + len <= base + size }

  lemma BurstGate(base: nat, size: nat, s: nat, d: nat, n: nat)
    requires n > 0
    ensures var k := Min(n, BURST);
      Lets(base, size, s, k) && Lets(base, size, d, k) <==> k <= Room(base, size, s, d)
  {}

  lemma DoneStep(base: nat, size: nat, s: nat, d: nat, n: nat)
    requires n > 0
    ensures var k, room := Min(n, BURST), Room(base, size, s, d);
      if k <= room
      then Room(base, size, s + k, d + k) == room - k && Done(room, n) == k + Done(room - k, n - k)
      else Done(room, n) == 0
  {
    var k, room := Min(n, BURST), Room(base, size, s, d);
    if k <= room && n > room { assert (room - BURST) / BURST == room / BURST - 1; }
  }

  /** What the loop leaves: memory, and the bytes it did not get to. */
  datatype Left = Left(m: Bytes, remaining: nat)

  /** The loop on values, stopping at the first burst that is refused. */
  function Loop(m: Bytes, base: nat, s: nat, d: nat, n: nat): (r: Left)
    ensures |r.m| == |m|
    decreases n
  {
    var k := Min(n, BURST);
    if n == 0 || !Lets(base, |m|, s, k) || !Lets(base, |m|, d, k) then Left(m, n)
    else Loop(Copy(m, s - base, d - base, k), base, s + k, d + k, n - k)
  }

  /** On failure exactly a whole-burst prefix has been copied, by the same bursts: for every start,
      destination and count, the loop copies the first Done bytes and nothing else. */
  lemma {:induction false} LoopCopiesPrefix(m: Bytes, base: nat, s: nat, d: nat, n: nat)
    ensures var c := Done(Room(base, |m|, s, d), n);
      && Loop(m, base, s, d, n).remaining == n - c
      && (c == 0 ==> Loop(m, base, s, d, n).m == m)
      && (c > 0 ==> base <= s && base <= d && s - base + c <= |m| && d - base + c <= |m|
                    && Loop(m, base, s, d, n).m == Bursts(m, s - base, d - base, c))
    decreases n
  {
    hide Copy, Room;
    if n > 0 {
      var k := Min(n, BURST);
      BurstGate(base, |m|, s, d, n);
      DoneStep(base, |m|, s, d, n);
      if k <= Room(base, |m|, s, d) {
        LoopCopiesPrefix(Copy(m, s - base, d - base, k), base, s + k, d + k, n - k);
        FirstBurstIsFull(Room(base, |m|, s, d), n);
      }
    }
  }

  /** The copied length starts with the same burst as the count does. */
  lemma FirstBurstIsFull(room: nat, n: nat)
    requires n > 0 && Min(n, BURST) <= room
    ensures Done(room, n) > 0 && Min(Done(room, n), BURST) == Min(n, BURST)
  {
    if n > room { assert room / BURST >= 1; }
  }

  /** A transfer that lies inside RAM and is safe is one whole-region copy. */
  lemma SafeTransferIsOneCopy(m: Bytes, base: nat, s: nat, d: nat, n: nat)
    requires base <= s && base <= d && s - base + n <= |m| && d - base + n <= |m| && Safe(s, d, n)
    ensures Loop(m, base, s, d, n) == Left(Copy(m, s - base, d - base, n), 0)
  {
    hide Loop, Bursts, Copy;
    LoopCopiesPrefix(m, base, s, d, n);
    SafeIsWhole(m, s - base, d - base, n);
    if n == 0 { CopyNothing(m, s - base, d - base); }
  }
  lemma CopyNothing(m: Bytes, s: nat, d: nat)
    requires s <= |m| && d <= |m|
    ensures Copy(m, s, d, 0) == m
  {}

  // ---- transfers over the bus ----

  /** How devices answer the read and the write of a burst. */
  datatype Answers = Answers(read: Answer, write: Answer)
  /** Their answers, by the number of bytes already moved. */
  type Devices = nat -> Answers

  function Ahead(a: U32, k: nat): U32 { (a + k) % TOP }

  /** One burst: moved, stopped by a refusal, or lost to a stray access. */
  datatype Turned = Moved(ts: seq<Target>) | Stopped | Lost

  function Turn(rs: seq<Range>, ts: seq<Target>, dev: Answers, s: U32, d: U32, k: nat): Turned
    requires Fits(rs, ts)
  {
    match RoutedRead(rs, ts, s, k, dev.read)
    case Refused => Stopped
    case Stray => Lost
    case Data(buf) =>
      var w := RoutedWrite(rs, ts, d, buf, dev.write);
      match w.ack case Accepted => Moved(w.ts) case Rejected => Stopped case Astray => Lost
  }

  lemma TurnKeepsFits(rs: seq<Range>, ts: seq<Target>, dev: Answers, s: U32, d: U32, k: nat)
    requires Fits(rs, ts)
    ensures Turn(rs, ts, dev, s, d, k).Moved? ==>
      Fits(rs, Turn(rs, ts, dev, s, d, k).ts) && SameShape(ts, Turn(rs, ts, dev, s, d, k).ts)
  {
    var r := RoutedRead(rs, ts, s, k, dev.read);
    if r.Data? { WriteKeepsShape(rs, ts, d, r.bytes, dev.write); }
  }

  /** What the loop leaves: the targets, the bytes moved, and whether an access strayed. */
  datatype Carried = Carried(ts: seq<Target>, done: nat, lost: bool)

  /** The loop over any bus, from `done` bytes to n, with source and destination wrapping as uint32_t. */
  function Carry(rs: seq<Range>, ts: seq<Target>, dev: Devices, s: U32, d: U32, done: nat, n: nat): Carried
    requires Fits(rs, ts) && done <= n
    decreases n - done
  {
    if done == n then Carried(ts, n, false)
    else
      var k := Min(n - done, BURST);
      TurnKeepsFits(rs, ts, dev(done), Ahead(s, done), Ahead(d, done), k);
      match Turn(rs, ts, dev(done), Ahead(s, done), Ahead(d, done), k)
      case Moved(us) => Carry(rs, us, dev, s, d, done + k, n)
      case Stopped => Carried(ts, done, false)
      case Lost => Carried(ts, done, true)
  }

  /** Where the loop stops: at the end, or before a burst that is refused or strays, with a whole number
      of bursts done. */
  lemma {:induction false} CarryStops(rs: seq<Range>, ts: seq<Target>, dev: Devices, s: U32, d: U32, done: nat, n: nat)
    requires Fits(rs, ts) && done <= n
    ensures var r := Carry(rs, ts, dev, s, d, done, n);
      && done <= r.done <= n && Fits(rs, r.ts) && SameShape(ts, r.ts)
      && (r.done == n ==> !r.lost)
      && (r.done < n ==>
            && (r.done - done) % BURST == 0
            && Turn(rs, r.ts, dev(r.done), Ahead(s, r.done), Ahead(d, r.done), Min(n - r.done, BURST))
               == if r.lost then Lost else Stopped)
    decreases n - done
  {
    hide Turn, SameShape, Fits, Carry, Ahead;
    SameShapeReflexive(ts);
    CarryStep(rs, ts, dev, s, d, done, n);
    if done < n {
      var k := Min(n - done, BURST);
      TurnKeepsFits(rs, ts, dev(done), Ahead(s, done), Ahead(d, done), k);
      var t := Turn(rs, ts, dev(done), Ahead(s, done), Ahead(d, done), k);
      if t.Moved? {
        var r := Carry(rs, t.ts, dev, s, d, done + k, n);
        CarryStops(rs, t.ts, dev, s, d, done + k, n);
        SameShapeTransitive(ts, t.ts, r.ts);
        if r.done < n { WholeBursts(r.done - done - BURST); }
      }
    }
  }
  lemma WholeBursts(x: nat)
    requires x % BURST == 0
    ensures (x + BURST) % BURST == 0
  {}
  lemma CarryStep(rs: seq<Range>, ts: seq<Target>, dev: Devices, s: U32, d: U32, done: nat, n: nat)
    requires Fits(rs, ts) && done <= n
    ensures done == n ==> Carry(rs, ts, dev, s, d, done, n) == Carried(ts, n, false)
    ensures done < n ==>
      var k := Min(n - done, BURST);
      var t := Turn(rs, ts, dev(done), Ahead(s, done), Ahead(d, done), k);
      && (t.Moved? ==> Fits(rs, t.ts) && Carry(rs, ts, dev, s, d, done, n) == Carry(rs, t.ts, dev, s, d, done + k, n))
      && (!t.Moved? ==> Carry(rs, ts, dev, s, d, done, n) == Carried(ts, done, t.Lost?))
  {
    hide Turn, SameShape, Fits, Ahead;
    if done < n { TurnKeepsFits(rs, ts, dev(done), Ahead(s, done), Ahead(d, done), Min(n - done, BURST)); }
  }
  lemma SameShapeReflexive(ts: seq<Target>)
    ensures SameShape(ts, ts)
  {}
  lemma SameShapeTransitive(ts: seq<Target>, us: seq<Target>, vs: seq<Target>)
    requires SameShape(ts, us) && SameShape(us, vs)
    ensures SameShape(ts, vs)
  {}

  /** On failure exactly a whole-burst prefix has been copied by the same loop: on any bus, with any
      targets, the transfer that stops after c bytes leaves what a complete transfer of c bytes leaves. */
  lemma {:induction false} CarryIsPrefix(rs: seq<Range>, ts: seq<Target>, dev: Devices, s: U32, d: U32, done: nat, n: nat)
    requires Fits(rs, ts) && done <= n
    ensures var r := Carry(rs, ts, dev, s, d, done, n);
      done <= r.done && Carry(rs, ts, dev, s, d, done, r.done) == Carried(r.ts, r.done, false)
    decreases n - done
  {
    hide Turn, SameShape, Fits;
    CarryStops(rs, ts, dev, s, d, done, n);
    if done < n {
      var k := Min(n - done, BURST);
      TurnKeepsFits(rs, ts, dev(done), Ahead(s, done), Ahead(d, done), k);
      var t := Turn(rs, ts, dev(done), Ahead(s, done), Ahead(d, done), k);
      if t.Moved? {
        CarryStops(rs, t.ts, dev, s, d, done + k, n);
        CarryIsPrefix(rs, t.ts, dev, s, d, done + k, n);
      }
    }
  }

  // ---- inside one RAM ----

  /** Range i leads to memory of kind RAM, and the n bytes at a lie inside it. */
  predicate Within(rs: seq<Range>, i: nat, a: nat, n: nat) {
    i < |rs| && rs[i].Proper() && rs[i].base <= a && a + n <= rs[i].base + rs[i].size
  }

  lemma LocateWithin(rs: seq<Range>, i: nat, a: nat, n: nat, k: nat)
    requires NoOverlap(rs) && Within(rs, i, a, n) && k < n
    ensures a + k < TOP && Ahead(a, k) == a + k && Locate(rs, a + k) == Place(rs[i].target, a + k - rs[i].base)
  {
    assert rs[i].Contains(a + k);
    ContainedOnce(rs, a + k, i, Decode(rs, a + k));
  }

  lemma TurnWithinRam(rs: seq<Range>, ts: seq<Target>, dev: Answers, s: U32, d: U32, k: nat, i: nat)
    requires Fits(rs, ts) && k > 0 && Within(rs, i, s, k) && Within(rs, i, d, k) && ts[rs[i].target].RamTarget?
    ensures var t, base := rs[i].target, rs[i].base;
      Turn(rs, ts, dev, s, d, k) == Moved(ts[t := RamTarget(Copy(ts[t].cells, s - base, d - base, k))])
  {
    hide Decode, NoOverlap, Splice;
    LocateWithin(rs, i, s, k, 0);
    LocateWithin(rs, i, d, k, 0);
    InsideIsNotRefused(rs[i].size, s - rs[i].base, k);
    InsideIsNotRefused(rs[i].size, d - rs[i].base, k);
  }

  lemma {:induction false} CarryWithinRam(rs: seq<Range>, ts: seq<Target>, dev: Devices, s: U32, d: U32, done: nat, n: nat, i: nat)
    requires Fits(rs, ts) && done <= n && Within(rs, i, s, n) && Within(rs, i, d, n) && ts[rs[i].target].RamTarget?
    ensures var t, x, y := rs[i].target, s - rs[i].base + done, d - rs[i].base + done;
      Carry(rs, ts, dev, s, d, done, n) == Carried(ts[t := RamTarget(Bursts(ts[t].cells, x, y, n - done))], n, false)
    decreases n - done
  {
    hide Turn, Copy, Carry;
    CarryStep(rs, ts, dev, s, d, done, n);
    var t := rs[i].target;
    if done == n {
      assert ts[t := RamTarget(ts[t].cells)] == ts;
    } else {
      var k := Min(n - done, BURST);
      LocateWithin(rs, i, s, n, done);
      LocateWithin(rs, i, d, n, done);
      TurnWithinRam(rs, ts, dev(done), s + done, d + done, k, i);
      TurnKeepsFits(rs, ts, dev(done), s + done, d + done, k);
      var us := Turn(rs, ts, dev(done), s + done, d + done, k).ts;
      CarryWithinRam(rs, us, dev, s, d, done + k, n, i);
    }
  }

  /** On any bus, whatever else is mapped: a transfer inside one RAM completes and moves the bytes as the
      bursts do, so that it is one copy if it is safe. */
  lemma TransferWithinRam(rs: seq<Range>, ts: seq<Target>, dev: Devices, s: U32, d: U32, n: nat, i: nat)
    requires Fits(rs, ts) && Within(rs, i, s, n) && Within(rs, i, d, n) && ts[rs[i].target].RamTarget?
    ensures var t, x, y := rs[i].target, s - rs[i].base, d - rs[i].base;
      && Carry(rs, ts, dev, s, d, 0, n) == Carried(ts[t := RamTarget(Bursts(ts[t].cells, x, y, n))], n, false)
      && (Safe(x, y, n) ==> Bursts(ts[t].cells, x, y, n) == Copy(ts[t].cells, x, y, n))
  {
    hide Carry, Bursts, Copy;
    CarryWithinRam(rs, ts, dev, s, d, 0, n, i);
    var x, y := s - rs[i].base, d - rs[i].base;
    if Safe(x, y, n) { SafeIsWhole(ts[rs[i].target].cells, x, y, n); }
  }

  // ---- between two memories, and into ROM ----

  lemma TurnAcross(rs: seq<Range>, ts: seq<Target>, dev: Answers, s: U32, d: U32, k: nat, i: nat, j: nat)
    requires Fits(rs, ts) && k > 0 && Within(rs, i, s, k) && Within(rs, j, d, k)
    requires !ts[rs[i].target].Device? && ts[rs[j].target].RamTarget?
    ensures var x, y := s - rs[i].base, d - rs[j].base;
      Turn(rs, ts, dev, s, d, k)
      == Moved(ts[rs[j].target := RamTarget(Splice(ts[rs[j].target].cells, y, ts[rs[i].target].cells[x..x + k]))])
  {
    hide Decode, NoOverlap, Splice;
    LocateWithin(rs, i, s, k, 0);
    LocateWithin(rs, j, d, k, 0);
    InsideIsNotRefused(rs[i].size, s - rs[i].base, k);
    InsideIsNotRefused(rs[j].size, d - rs[j].base, k);
  }

  lemma SpliceTwice(m: Bytes, y: nat, b: Bytes, c: Bytes)
    requires y + |b| + |c| <= |m|
    ensures Splice(Splice(m, y, b), y + |b|, c) == Splice(m, y, b + c)
  {}

  /** A burst may go from memory i, RAM or ROM, to another memory j, a RAM. */
  predicate Across(rs: seq<Range>, ts: seq<Target>, s: U32, d: U32, n: nat, i: nat, j: nat)
    requires Fits(rs, ts)
  {
    && Within(rs, i, s, n) && Within(rs, j, d, n)
    && !ts[rs[i].target].Device? && ts[rs[j].target].RamTarget? && rs[i].target != rs[j].target
  }
  /** The bytes from..to of the source region, and the destination with them written at its byte `from`. */
  function Taken(rs: seq<Range>, ts: seq<Target>, s: U32, d: U32, n: nat, i: nat, j: nat, from: nat, to: nat): Bytes
    requires Fits(rs, ts) && Across(rs, ts, s, d, n, i, j) && from <= to <= n
  {
    ts[rs[i].target].cells[s - rs[i].base + from..s - rs[i].base + to]
  }
  function Given(rs: seq<Range>, ts: seq<Target>, s: U32, d: U32, n: nat, i: nat, j: nat, from: nat, to: nat): seq<Target>
    requires Fits(rs, ts) && Across(rs, ts, s, d, n, i, j) && from <= to <= n
  {
    var t := rs[j].target;
    ts[t := RamTarget(Splice(ts[t].cells, d - rs[j].base + from, Taken(rs, ts, s, d, n, i, j, from, to)))]
  }

  lemma AcrossStep(rs: seq<Range>, ts: seq<Target>, dev: Devices, s: U32, d: U32, done: nat, n: nat, i: nat, j: nat)
    requires Fits(rs, ts) && Across(rs, ts, s, d, n, i, j) && done < n
    ensures var k := Min(n - done, BURST);
      var us := Given(rs, ts, s, d, n, i, j, done, done + k);
      Fits(rs, us) && Carry(rs, ts, dev, s, d, done, n) == Carry(rs, us, dev, s, d, done + k, n)
  {
    hide Turn, Splice, Carry, NoOverlap;
    var k := Min(n - done, BURST);
    CarryStep(rs, ts, dev, s, d, done, n);
    LocateWithin(rs, i, s, n, done);
    LocateWithin(rs, j, d, n, done);
    TurnAcross(rs, ts, dev(done), s + done, d + done, k, i, j);
  }

  lemma GivenTwice(rs: seq<Range>, ts: seq<Target>, s: U32, d: U32, n: nat, i: nat, j: nat, done: nat, k: nat)
    requires Fits(rs, ts) && Across(rs, ts, s, d, n, i, j) && done + k <= n
    ensures var us := Given(rs, ts, s, d, n, i, j, done, done + k);
      && Fits(rs, us) && Across(rs, us, s, d, n, i, j)
      && Given(rs, us, s, d, n, i, j, done + k, n) == Given(rs, ts, s, d, n, i, j, done, n)
  {
    hide Splice, NoOverlap;
    var b, c := Taken(rs, ts, s, d, n, i, j, done, done + k), Taken(rs, ts, s, d, n, i, j, done + k, n);
    assert b + c == Taken(rs, ts, s, d, n, i, j, done, n);
    SpliceTwice(ts[rs[j].target].cells, d - rs[j].base + done, b, c);
  }

  /** A transfer between two different memories, from ROM or RAM into RAM, is always one copy. */
  lemma {:induction false} CarryAcross(rs: seq<Range>, ts: seq<Target>, dev: Devices, s: U32, d: U32, done: nat, n: nat, i: nat, j: nat)
    requires Fits(rs, ts) && Across(rs, ts, s, d, n, i, j) && done <= n
    ensures Carry(rs, ts, dev, s, d, done, n) == Carried(Given(rs, ts, s, d, n, i, j, done, n), n, false)
    decreases n - done
  {
    hide Fits, Across, Carry, Given;
    if done == n {
      CarryStep(rs, ts, dev, s, d, n, n);
      GivenNothing(rs, ts, s, d, n, i, j);
    } else {
      var k := Min(n - done, BURST);
      AcrossStep(rs, ts, dev, s, d, done, n, i, j);
      GivenTwice(rs, ts, s, d, n, i, j, done, k);
      CarryAcross(rs, Given(rs, ts, s, d, n, i, j, done, done + k), dev, s, d, done + k, n, i, j);
    }
  }
  lemma GivenNothing(rs: seq<Range>, ts: seq<Target>, s: U32, d: U32, n: nat, i: nat, j: nat)
    requires Fits(rs, ts) && Across(rs, ts, s, d, n, i, j)
    ensures Given(rs, ts, s, d, n, i, j, n, n) == ts
  {
    hide Splice, NoOverlap;
    assert Taken(rs, ts, s, d, n, i, j, n, n) == [];
    EmptySplice(ts[rs[j].target].cells, d - rs[j].base + n);
  }
  lemma EmptySplice(m: Bytes, y: nat)
    requires y <= |m|
    ensures Splice(m, y, []) == m
  {}

  /** Nothing is copied into ROM, and the engine reports an error. */
  lemma NothingGoesIntoRom(rs: seq<Range>, ts: seq<Target>, dev: Devices, s: U32, d: U32, n: nat)
    requires Fits(rs, ts) && n > 0 && Locate(rs, d).Place? && ts[Locate(rs, d).target].RomTarget?
    ensures var r := Carry(rs, ts, dev, s, d, 0, n); r.ts == ts && r.done == 0
  {
    hide Turn, Fits, Locate;
    assert Ahead(d, 0) == d;
    TurnIntoRom(rs, ts, dev(0), Ahead(s, 0), d, Min(n, BURST));
  }
  lemma TurnIntoRom(rs: seq<Range>, ts: seq<Target>, dev: Answers, s: U32, d: U32, k: nat)
    requires Fits(rs, ts) && Locate(rs, d).Place? && ts[Locate(rs, d).target].RomTarget?
    ensures !Turn(rs, ts, dev, s, d, k).Moved?
  {
    hide Fits, Locate, RoutedRead;
  }

  // ---- a bus with nothing but one RAM ----

  lemma TurnOnOneRam(m: Bytes, base: U32, dev: Answers, s: U32, d: U32, k: nat)
    requires base + |m| < TOP && 0 < k <= BURST
    ensures var rs, ts := [Range(base, |m|, 0)], [RamTarget(m)];
      Fits(rs, ts) && (
        if Lets(base, |m|, s, k) && Lets(base, |m|, d, k)
        then Turn(rs, ts, dev, s, d, k) == Moved([RamTarget(Copy(m, s - base, d - base, k))])
        else !Turn(rs, ts, dev, s, d, k).Moved?)
  {
    var rs, ts := [Range(base, |m|, 0)], [RamTarget(m)];
    if Lets(base, |m|, s, k) && Lets(base, |m|, d, k) { TurnWithinRam(rs, ts, dev, s, d, k, 0); }
  }

  /** There the loop is Loop, refusals and all: LoopCopiesPrefix says exactly how far it gets. */
  lemma {:induction false} CarryOnOneRam(m: Bytes, base: U32, dev: Devices, s: U32, d: U32, done: nat, n: nat)
    requires base + |m| < TOP && done <= n && s + done < TOP && d + done < TOP
    ensures var rs, ts := [Range(base, |m|, 0)], [RamTarget(m)];
      && Fits(rs, ts)
      && var r, l := Carry(rs, ts, dev, s, d, done, n), Loop(m, base, s + done, d + done, n - done);
         r.ts == [RamTarget(l.m)] && r.done == n - l.remaining
    decreases n - done
  {
    hide Turn, Copy, Carry;
    assert Fits([Range(base, |m|, 0)], [RamTarget(m)]);
    CarryStep([Range(base, |m|, 0)], [RamTarget(m)], dev, s, d, done, n);
    if done < n {
      var rs, ts := [Range(base, |m|, 0)], [RamTarget(m)];
      var k := Min(n - done, BURST);
      TurnOnOneRam(m, base, dev(done), s + done, d + done, k);
      if Lets(base, |m|, s + done, k) && Lets(base, |m|, d + done, k) {
        CarryOnOneRam(Copy(m, s + done - base, d + done - base, k), base, dev, s, d, done + k, n);
      }
    }
  }

  // ---- the engine ----

  /** The bus as a master sees it: its ranges and what is behind them. */
  class Interconnect {
    const rs: seq<Range>
    var targets: seq<Target>

    predicate Valid()
      reads this
    {
      Fits(rs, targets)
    }
    constructor (rs: seq<Range>, ts: seq<Target>)
      requires Fits(rs, ts)
      ensures Valid() && this.rs == rs && targets == ts
    {
      this.rs, targets := rs, ts;
    }
  }

  datatype Irq = Untouched | Raised

  class Engine {
    var srcAddr: U32
    var dstAddr: U32
    var byteCount: U32
    var ctrl: U32
    var status: U32
    var irq: Irq

    constructor ()
      ensures status == 0 && irq == Untouched
    {
      srcAddr, dstAddr, byteCount, ctrl, status, irq := 0, 0, 0, 0, 0, Untouched;
    }

    /** One burst: the read, then the write, either of which may be refused. */
    method Burst(bus: Interconnect, dev: Answers, src: U32, dst: U32, chunk: nat) returns (t: Turned)
      requires bus.Valid()
      modifies bus`targets
      ensures bus.Valid() && t == Turn(bus.rs, old(bus.targets), dev, src, dst, chunk)
      ensures bus.targets == if t.Moved? then t.ts else old(bus.targets)
    {
      TurnKeepsFits(bus.rs, bus.targets, dev, src, dst, chunk);
      var r := RoutedRead(bus.rs, bus.targets, src, chunk, dev.read);
      if r.Refused? { return Stopped; }
      if r.Stray? { return Lost; }
      var w := RoutedWrite(bus.rs, bus.targets, dst, r.bytes, dev.write);
      if w.ack.Rejected? { return Stopped; }
      if w.ack.Astray? { return Lost; }
      bus.targets := w.ts;
      return Moved(w.ts);
    }

    /** One transfer, from start event to interrupt. The status is 2 when everything was copied and 6
        when a burst was refused; the address and count registers keep their values. */
    method Transfer(bus: Interconnect, dev: Devices) returns (lost: bool)
      requires bus.Valid()
      modifies this`status, this`irq, bus`targets
      ensures bus.Valid()
      ensures var r := Carry(bus.rs, old(bus.targets), dev, srcAddr, dstAddr, 0, byteCount);
        bus.targets == r.ts && lost == r.lost && (!lost ==> status == if r.done == byteCount then 2 else 6)
      ensures irq == if ctrl / 2 % 2 == 1 then Raised else old(irq)
    {
      hide Turn, Fits;
      status := 1;
      var remaining: nat, src: U32, dst: U32, ok := byteCount, srcAddr, dstAddr, true;
      lost := false;
      while remaining > 0 && ok
        invariant remaining <= byteCount && irq == old(irq) && bus.Valid()
        invariant src == Ahead(srcAddr, byteCount - remaining) && dst == Ahead(dstAddr, byteCount - remaining)
        invariant ok && !lost
        invariant Carry(bus.rs, bus.targets, dev, srcAddr, dstAddr, byteCount - remaining, byteCount)
          == Carry(bus.rs, old(bus.targets), dev, srcAddr, dstAddr, 0, byteCount)
        decreases remaining
      {
        var chunk := Min(remaining, BURST);
        var done := byteCount - remaining;
        var t := Burst(bus, dev(done), src, dst, chunk);
        if !t.Moved? {
          lost := t.Lost?;
          ok := false;
          break;
        }
        AheadTwice(srcAddr, done, chunk);
        AheadTwice(dstAddr, done, chunk);
        src, dst, remaining := Ahead(src, chunk), Ahead(dst, chunk), remaining - chunk;
      }
      status := if ok then 2 else 6;
      if ctrl / 2 % 2 == 1 { irq := Raised; }
    }
  }

  lemma AheadTwice(a: U32, j: nat, k: nat)
    ensures Ahead(Ahead(a, j), k) == Ahead(a, j + k)
  {}
}
