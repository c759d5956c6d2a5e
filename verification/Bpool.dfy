// Size-classed byte buffers (bpool/bpool.go). Buffers from the pool are taken as fresh.

module Bpool {
  import opened Arith
  import opened Bytes

  const MIN_SIZE := 32
  const MAX_SIZE := 64 * 1024
  const POOL_SIZE := 12

  function GetSize(i: nat): nat {
    MIN_SIZE * Pow2(i)
  }

  function GetIndex(size: nat): int {
    if size < MIN_SIZE then 0 else Len(size - 1) - 5
  }

  lemma SizeIsPower(i: nat)
    ensures GetSize(i) == Pow2(i + 5)
  {
    assert Pow2(i + 5) == 2 * Pow2(i + 4) && Pow2(i + 4) == 2 * Pow2(i + 3);
    assert Pow2(i + 3) == 2 * Pow2(i + 2) && Pow2(i + 2) == 2 * Pow2(i + 1);
  }

  // The class of a size is the smallest one that holds it.
  lemma SmallestClass(size: nat)
    requires size < MAX_SIZE
    ensures 0 <= GetIndex(size) < POOL_SIZE && size <= GetSize(GetIndex(size))
    ensures GetIndex(size) > 0 ==> GetSize(GetIndex(size) - 1) < size
  {
    assert Pow2(5) == 32;
    if size >= 32 {
      var n := Len(size - 1);
      if n < 5 { PowGrows(n + 1, 5); }
      SizeIsPower(n - 5);
      if n > 5 { SizeIsPower(n - 6); }
      if n > 16 { PowGrows(17, n); }
      assert Pow2(17) == 4096 * Pow2(5) by { assert Pow2(11) == 64 * Pow2(5) && Pow2(17) == 64 * Pow2(11); }
    }
  }

  // A capacity for a size: room for it, and less than twice as much.
  predicate Snug(size: nat, capacity: nat) {
    && size <= capacity && MIN_SIZE <= capacity
    && (size >= MAX_SIZE ==> capacity == size)
    && (capacity > MIN_SIZE ==> capacity < 2 * size)
  }

  // The capacity New gives for a size.
  function Capacity(size: nat): (c: nat)
    ensures Snug(size, c)
  {
    if size >= MAX_SIZE then size
    else
      SmallestClass(size);
      GetSize(GetIndex(size))
  }

  class Buff {
    const b: array<byte>  // its length is the capacity
    var size: nat

    ghost predicate Valid()
      reads this
    {
      size <= b.Length && MIN_SIZE <= b.Length
    }

    function Contents(): (s: seq<byte>)
      requires Valid()
      reads this, b
    {
      b[..size]
    }

    // New
    constructor (size: nat)
      ensures Valid() && fresh(b) && b.Length == Capacity(size) && Contents() == []
    {
      b := new byte[Capacity(size)];
      this.size := 0;
    }

    // NewBuf
    constructor From(buf: seq<byte>)
      ensures Valid() && fresh(b) && b.Length == Capacity(|buf|) && Contents() == buf
    {
      b := new byte[Capacity(|buf|)](i => if 0 <= i < |buf| then buf[i] else 0);
      size := |buf|;
    }

    method Append(buf: seq<byte>) returns (r: Buff)
      requires Valid()
      modifies this, b
      ensures r.Valid() && r.Contents() == old(Contents()) + buf
      ensures if old(size) + |buf| <= b.Length then r == this
              else fresh(r) && fresh(r.b) && unchanged(this) && unchanged(b) &&
                   r.b.Length == Capacity(old(size) + |buf|)
      decreases if size + |buf| > b.Length then 1 else 0
    {
      var total := |buf| + size;
      if total > b.Length {
        r := new Buff(total);
        r := r.Append(b[..size]);
        r := r.Append(buf);
        return r;
      }
      CopyIn(buf);
      size := size + |buf|;
      return this;
    }

    // The bytes go behind what is in use.
    method CopyIn(buf: seq<byte>)
      requires Valid() && size + |buf| <= b.Length
      modifies b
      ensures b[..size + |buf|] == old(b[..size]) + buf
    {
      var i := 0;
      while i < |buf|
        invariant i <= |buf| && b[..size] == old(b[..size]) && b[size..size + i] == buf[..i]
      {
        b[size + i] := buf[i];
        i := i + 1;
      }
      assert b[..size + |buf|] == b[..size] + b[size..size + |buf|];
    }

    method SetSize(n: nat)
      requires Valid() && n <= b.Length
      modifies this`size
      ensures Valid() && size == n
    {
      size := n;
    }

    method Reset()
      requires Valid()
      modifies this`size
      ensures Valid() && Contents() == []
    {
      size := 0;
    }
  }
}
