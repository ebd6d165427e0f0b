/** The targets behind the bus that hold bytes (src/mem/memory.cpp, src/mem/bootrom.cpp). */
module Memory {
  import opened Bus

  type Octet = bv8
  type Bytes = seq<Octet>

  /** The bounds check of b_transport, with its 32-bit sum. */
  predicate Refuses(size: nat, a: U32, len: nat) { (a + len) % TOP > size }

  /** An access that passes the check and still leaves the array: the program then copies bytes that
      are not its own. */
  predicate Strays(size: nat, a: U32, len: nat) { !Refuses(size, a, len) && a + len > size }

  /** The check is exact for accesses that end below 2^32; past that it looks at the wrapped tail only
      and lets the access stray when the tail is small enough. */
  lemma CheckIsExactBelowTop(size: U32, a: U32, len: U32)
    ensures Strays(size, a, len) <==> a + len >= TOP && a + len - TOP <= size
    ensures a + len < TOP ==> (Refuses(size, a, len) <==> a + len > size)
  {}

  /** m with the bytes at a replaced. */
  function Splice(m: Bytes, a: nat, data: Bytes): (r: Bytes)
    requires a + |data| <= |m|
    ensures |r| == |m|
  {
    m[..a] + data + m[a + |data|..]
  }

  /** What an access to a target gives: bytes, a refusal, or a stray access, of which nothing is known. */
  datatype Reply = Data(bytes: Bytes) | Refused | Stray

  /** A read of a memory with these contents. */
  function Peek(m: Bytes, a: U32, len: nat): Reply {
    if Refuses(|m|, a, len) then Refused else if a + len > |m| then Stray else Data(m[a..a + len])
  }

  /** RAM as an object over its byte array. */
  class Ram {
    const cells: array<Octet>

    constructor (size: U32)
      ensures fresh(cells) && cells.Length == size && forall i :: 0 <= i < size ==> cells[i] == 0
    {
      cells := new Octet[size](_ => 0);
    }

    method Read(a: U32, len: U32) returns (r: Reply)
      ensures r.Refused? <==> (a + len) % TOP > cells.Length
      ensures r.Stray? <==> Strays(cells.Length, a, len)
      ensures r.Data? ==> a + len <= cells.Length && r.bytes == cells[a..a + len]
    {
      if Refuses(cells.Length, a, len) { return Refused; }
      if a + len > cells.Length { return Stray; }
      return Data(cells[a..a + len]);
    }

    method Write(a: U32, data: Bytes) returns (r: Reply)
      requires |data| < TOP
      modifies cells
      ensures r.Refused? <==> (a + |data|) % TOP > cells.Length
      ensures r.Stray? <==> Strays(cells.Length, a, |data|)
      ensures r.Refused? ==> cells[..] == old(cells[..])
      ensures r.Data? ==> a + |data| <= cells.Length && cells[..] == Splice(old(cells[..]), a, data)
    {
      if Refuses(cells.Length, a, |data|) { return Refused; }
      if a + |data| > cells.Length { return Stray; }
      ghost var was := cells[..];
      for i := 0 to |data|
        invariant cells[..] == Splice(was, a, data[..i])
      {
        cells[a + i] := data[i];
        assert data[..i + 1] == data[..i] + [data[i]];
      }
      assert data[..|data|] == data;
      return Data(data);
    }
  }
}
