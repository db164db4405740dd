/** Little-endian numbers and the byte buffer with a moving offset that entries are read and written through. */
module Bytes {
  import opened Keys

  /** `n` as `w` bytes, least significant first; higher bytes are dropped. */
  function LE(n: nat, w: nat): (r: seq<byte>)
    ensures |r| == w
  {
    if w == 0 then [] else [(n % 256) as byte] + LE(n / 256, w - 1)
  }

  function UnLE(b: seq<byte>): nat {
    if b == [] then 0 else b[0] as nat + 256 * UnLE(b[1..])
  }

  function Pow256(w: nat): nat {
    if w == 0 then 1 else 256 * Pow256(w - 1)
  }

  const U16: nat := 0x1_0000
  const U32: nat := 0x1_0000_0000
  const U64: nat := 0x1_0000_0000_0000_0000

  lemma Widths()
    ensures Pow256(1) == 256 && Pow256(2) == U16 && Pow256(4) == U32 && Pow256(8) == U64
  {
    assert Pow256(2) == 256 * Pow256(1);
    assert Pow256(3) == 256 * Pow256(2);
    assert Pow256(4) == 256 * Pow256(3);
    assert Pow256(5) == 256 * Pow256(4);
    assert Pow256(6) == 256 * Pow256(5);
    assert Pow256(7) == 256 * Pow256(6);
  }

  lemma {:induction false} UnLEofLE(n: nat, w: nat)
    requires n < Pow256(w)
    ensures UnLE(LE(n, w)) == n
  {
    if w > 0 {
      UnLEofLE(n / 256, w - 1);
      assert LE(n, w)[1..] == LE(n / 256, w - 1);
    }
  }

  lemma {:induction false} LEofUnLE(b: seq<byte>)
    ensures LE(UnLE(b), |b|) == b && UnLE(b) < Pow256(|b|)
  {
    if b != [] {
      LEofUnLE(b[1..]);
      FirstByte(b[0], UnLE(b[1..]));
      assert b == [b[0]] + b[1..];
    }
  }

  lemma FirstByte(b: byte, x: nat)
    ensures (b as nat + 256 * x) % 256 == b as nat && (b as nat + 256 * x) / 256 == x
  {
  }

  /** Something read off the front of a byte string, and what follows it. */
  datatype Got<T> = Got(value: T, rest: seq<byte>)

  function Take(b: seq<byte>, n: nat): (r: Option<Got<seq<byte>>>)
    ensures r.Some? ==> |r.value.rest| == |b| - n
  {
    if n <= |b| then Some(Got(b[..n], b[n..])) else None
  }

  class Entry {
    var data: seq<byte>
    var offset: nat

    constructor (data: seq<byte>)
      ensures this.data == data && offset == 0
    {
      this.data, offset := data, 0;
    }

    ghost predicate Valid()
      reads this
    {
      offset <= |data|
    }

    /** The bytes not read yet. */
    ghost function Rest(): seq<byte>
      requires Valid()
      reads this
    {
      data[offset..]
    }

    /** Appends at the end of the buffer, where writing takes place. */
    method WriteSlice(b: seq<byte>)
      requires offset == |data|
      modifies this
      ensures data == old(data) + b && offset == |data|
    {
      data := data + b;
      offset := offset + |b|;
    }

    /** The next `size` bytes, or nothing where the original would run past the end of the buffer. */
    method ReadSlice(size: nat) returns (r: Option<seq<byte>>)
      requires Valid()
      modifies this`offset
      ensures Valid()
      ensures if size <= |old(Rest())| then r == Some(old(Rest())[..size]) && Rest() == old(Rest())[size..]
              else r == None && offset == old(offset)
    {
      if offset + size <= |data| {
        r := Some(data[offset..offset + size]);
        assert data[offset..offset + size] == data[offset..][..size];
        offset := offset + size;
      } else {
        r := None;
      }
    }
  }
}
