/** Index entries: an address and a part of the key packed into 64 bits. */
module IndexEntries {
  import opened Keys
  import opened Words

  const CHUNK_ENTRIES: nat := 64
  const CHUNK_ENTRIES_BITS: nat := 6
  const SIZE_TIERS_BITS: nat := 8

  /** Index widths in use: between 2^16 and 2^49 pages. */
  type Bits = b: nat | 16 <= b <= 49 witness 16

  /** A 64-bit word. */
  predicate Word(p: nat) {
    p < Pow2(64)
  }

  function AddressBits(bits: Bits): nat {
    bits + CHUNK_ENTRIES_BITS + SIZE_TIERS_BITS
  }

  function LastAddress(bits: Bits): nat {
    Pow2(AddressBits(bits)) - 1
  }

  function NewEntry(address: nat, partialKey: nat, bits: Bits): nat {
    Or(Left(partialKey, AddressBits(bits)), address)
  }

  function Address(e: nat, bits: Bits): nat {
    And(e, LastAddress(bits))
  }

  function PartialKey(e: nat, bits: Bits): nat {
    Right(e, AddressBits(bits))
  }

  /** The part of a key that an entry keeps: what follows the page number, as far as there is room. */
  function ExtractKey(prefix: nat, bits: Bits): nat {
    Right(Left(prefix, bits), AddressBits(bits))
  }

  function ChunkIndex(prefix: nat, bits: Bits): nat {
    Right(prefix, 64 - bits)
  }

  /** The key prefix told by a page number and an entry on that page. */
  function RecoverKeyPrefix(chunk: nat, e: nat, bits: Bits): nat {
    var k := 64 - AddressBits(bits);
    Or(Left(chunk, 64 - bits), Left(PartialKey(e, bits), 64 - k - bits))
  }

  function NewAddress(offset: nat, tier: byte): nat {
    Or(Left(offset, SIZE_TIERS_BITS), tier as nat)
  }

  function Offset(address: nat): nat {
    Right(address, SIZE_TIERS_BITS)
  }

  function SizeTier(address: nat): nat {
    And(address, Pow2(SIZE_TIERS_BITS) - 1)
  }

  /** A key prefix with all but its top fifty bits cleared. */
  function Top50(prefix: nat): nat {
    Up(Right(prefix, 14), 14)
  }

  // Packing.

  lemma ExtractIs(prefix: nat, bits: Bits)
    ensures ExtractKey(prefix, bits) == Right(Low(prefix, 64 - bits), 14) < Pow2(64 - AddressBits(bits))
  {
    KeepLow(prefix, bits, 14);
    Split(prefix, 64 - bits);
    RightFits(Low(prefix, 64 - bits), 14, 64 - AddressBits(bits));
  }

  lemma Unpack(address: nat, partialKey: nat, bits: Bits)
    requires address <= LastAddress(bits) && partialKey < Pow2(64 - AddressBits(bits))
    ensures Address(NewEntry(address, partialKey, bits), bits) == address
    ensures PartialKey(NewEntry(address, partialKey, bits), bits) == partialKey
    ensures NewEntry(address, partialKey, bits) == Up(partialKey, AddressBits(bits)) + address
  {
    hide Up, Low, Or, And, Right, Left, Pow2;
    var s := AddressBits(bits);
    LeftIsUp(partialKey, s);
    OrSum(partialKey, address, s);
    SumParts(partialKey, address, s);
    AndMask(NewEntry(address, partialKey, bits), s);
  }

  /** An entry gives back the address and the partial key it was made of, and is never the empty entry. */
  lemma PackUnpack(address: nat, prefix: nat, bits: Bits)
    requires 0 < address <= LastAddress(bits)
    ensures var e := NewEntry(address, ExtractKey(prefix, bits), bits);
      Address(e, bits) == address && PartialKey(e, bits) == ExtractKey(prefix, bits) && e != 0
  {
    ExtractIs(prefix, bits);
    Unpack(address, ExtractKey(prefix, bits), bits);
  }

  /** And is made again from what is read off it. */
  lemma UnpackPack(e: nat, bits: Bits)
    requires Word(e)
    ensures NewEntry(Address(e, bits), PartialKey(e, bits), bits) == e && Address(e, bits) <= LastAddress(bits)
  {
    hide Up, Low, Or, And, Right, Left, Pow2;
    var s := AddressBits(bits);
    AndMask(e, s);
    Split(e, s);
    RightFits(e, s, 64 - s);
    Unpack(Address(e, bits), PartialKey(e, bits), bits);
  }

  /**
   * The top `bits` bits of a key prefix are the number of its page, and all but the last fourteen bits below them go
   * into the entry, above the address.
   */
  lemma EntryLayout(address: nat, prefix: nat, bits: Bits)
    requires address < Pow2(bits + 14)
    ensures ChunkIndex(prefix, bits) == prefix / Pow2(64 - bits)
    ensures ExtractKey(prefix, bits) == prefix % Pow2(64 - bits) / Pow2(14)
    ensures NewEntry(address, ExtractKey(prefix, bits), bits) ==
            prefix % Pow2(64 - bits) / Pow2(14) * Pow2(bits + 14) + address
  {
    hide Up, Low, Or, And, Right, Left, Pow2, NewEntry;
    ExtractIs(prefix, bits);
    PartsAre(prefix, 64 - bits);
    PartsAre(Low(prefix, 64 - bits), 14);
    Unpack(address, ExtractKey(prefix, bits), bits);
    UpIs(ExtractKey(prefix, bits), bits + 14);
  }

  /** An address gives back its slot and its table; that of a slot in use is not 0. */
  lemma AddressParts(offset: nat, tier: byte)
    requires offset < Pow2(64 - SIZE_TIERS_BITS)
    ensures Offset(NewAddress(offset, tier)) == offset && SizeTier(NewAddress(offset, tier)) == tier as nat
    ensures NewAddress(offset, tier) == 256 * offset + tier as nat
    ensures offset > 0 ==> NewAddress(offset, tier) > 0
  {
    hide Up, Low, Or, And, Right, Left, Pow2;
    EightBits(offset);
    LeftIsUp(offset, 8);
    OrSum(offset, tier as nat, 8);
    SumParts(offset, tier as nat, 8);
    AndMask(NewAddress(offset, tier), 8);
  }

  /** Page number and entry restore exactly the top fifty bits of the key. */
  lemma RecoverTop50(address: nat, prefix: nat, bits: Bits)
    requires 0 < address <= LastAddress(bits) && Word(prefix)
    ensures var entry := NewEntry(address, ExtractKey(prefix, bits), bits);
      RecoverKeyPrefix(ChunkIndex(prefix, bits), entry, bits) == Top50(prefix)
  {
    hide NewEntry, PartialKey, ExtractKey, Left, Right, Up, Or, Low;
    PackUnpack(address, prefix, bits);
    ExtractIs(prefix, bits);
    PutTogether(prefix, 64 - bits);
  }

  /** The bits from `s` up, and those below it but for the last fourteen, put side by side. */
  lemma PutTogether(p: nat, s: nat)
    requires Word(p) && 14 <= s <= 64
    ensures Or(Left(Right(p, s), s), Left(Right(Low(p, s), 14), 14)) == Top50(p)
  {
    hide Right, Up, Or, Low, Left, Pow2;
    var h, l := Right(p, s), Low(p, s);
    RightFits(p, s, 64 - s);
    LeftIsUp(h, s);
    Split(p, s);
    RightFits(l, 14, s - 14);
    Wider(s - 14, 50);
    LeftIsUp(Right(l, 14), 14);
    Split(l, 14);
    LowLow(p, s, 14);
    OrSum(h, Up(Right(l, 14), 14), s);
    Split(p, 14);
  }

  lemma {:induction false} Wider(s: nat, t: nat)
    requires s <= t
    ensures Pow2(s) <= Pow2(t)
  {
    if s < t {
      Wider(s, t - 1);
    }
  }

  /** A recovered prefix belongs on the same page, with the same partial key, as the key it stands for: at any width. */
  lemma PrefixIsEnough(prefix: nat, bits: Bits)
    requires Word(prefix)
    ensures ChunkIndex(Top50(prefix), bits) == ChunkIndex(prefix, bits)
    ensures ExtractKey(Top50(prefix), bits) == ExtractKey(prefix, bits)
  {
    hide Right, Up, Low, Left;
    var q, s := Right(prefix, 14), 64 - bits;
    RightUp(q, 14, s - 14);
    RightTwice(prefix, 14, s - 14);
    ExtractIs(prefix, bits);
    ExtractIs(Top50(prefix), bits);
    LowUp(q, 14, s - 14);
    RightUp(Low(q, s - 14), 14, 0);
    RightLow(prefix, 14, s - 14);
    NoShift(Low(q, s - 14));
  }

  lemma NoShift(p: nat)
    ensures Right(p, 0) == p
  {
  }

  lemma {:induction false} RightLow(p: nat, s: nat, t: nat)
    ensures Right(Low(p, s + t), s) == Low(Right(p, s), t)
  {
    if s > 0 {
      RightLow(p / 2, s - 1, t);
      assert Low(p, s + t) / 2 == Low(p / 2, s - 1 + t);
    }
  }

  /** Two keys on the same page with the same partial key agree in their top fifty bits. */
  lemma SamePlace(p: nat, q: nat, bits: Bits)
    requires Word(p) && Word(q)
    requires ChunkIndex(p, bits) == ChunkIndex(q, bits) && ExtractKey(p, bits) == ExtractKey(q, bits)
    ensures Top50(p) == Top50(q)
  {
    hide RecoverKeyPrefix, NewEntry, ExtractKey, ChunkIndex, Top50;
    Wider(1, AddressBits(bits));
    assert LastAddress(bits) >= 1;
    RecoverTop50(1, p, bits);
    RecoverTop50(1, q, bits);
  }

  // Keys.

  /** Big-endian. */
  function BE(b: seq<byte>): nat {
    if b == [] then 0 else 256 * BE(b[..|b| - 1]) + b[|b| - 1] as nat
  }

  function KeyPrefix(key: Hash): nat {
    BE(key[..8])
  }

  lemma {:induction false} BEFits(b: seq<byte>)
    ensures BE(b) < Pow2(8 * |b|)
  {
    if b != [] {
      var n := |b| - 1;
      BEFits(b[..n]);
      EightMore(8 * n);
    }
  }

  lemma {:induction false} BEInjective(a: seq<byte>, b: seq<byte>)
    requires |a| == |b| && BE(a) == BE(b)
    ensures a == b
  {
    if a != [] {
      var n := |a| - 1;
      BEInjective(a[..n], b[..n]);
      assert a == a[..n] + [a[n]] && b == b[..n] + [b[n]];
    }
  }

  lemma DropByte(b: seq<byte>)
    requires b != []
    ensures Right(BE(b), 8) == BE(b[..|b| - 1])
  {
    hide Right;
    EightBits(BE(b[..|b| - 1]));
    SumParts(BE(b[..|b| - 1]), b[|b| - 1] as nat, 8);
  }

  /** The first six bytes of a key are in the top fifty bits of its prefix. */
  lemma SixBytes(key: Hash)
    ensures Word(KeyPrefix(key)) && BE(key[..6]) == Right(Right(KeyPrefix(key), 14), 2)
  {
    hide Right, BE, Pow2;
    var p := KeyPrefix(key);
    BEFits(key[..8]);
    DropByte(key[..8]);
    DropByte(key[..7]);
    assert key[..8][..7] == key[..7] && key[..7][..6] == key[..6];
    RightTwice(p, 8, 8);
    RightTwice(p, 14, 2);
  }

  /** Page number, partial key and the 26 bytes kept with the value determine the whole key. */
  lemma KeyDetermined(k: Hash, l: Hash, bits: Bits)
    requires ChunkIndex(KeyPrefix(k), bits) == ChunkIndex(KeyPrefix(l), bits)
    requires ExtractKey(KeyPrefix(k), bits) == ExtractKey(KeyPrefix(l), bits)
    requires k[6..] == l[6..]
    ensures k == l
  {
    hide Right, Up, BE, ExtractKey, ChunkIndex;
    SixBytes(k);
    SixBytes(l);
    SamePlace(KeyPrefix(k), KeyPrefix(l), bits);
    RightUp(Right(KeyPrefix(k), 14), 14, 0);
    RightUp(Right(KeyPrefix(l), 14), 14, 0);
    NoShift(Right(KeyPrefix(k), 14));
    NoShift(Right(KeyPrefix(l), 14));
    BEInjective(k[..6], l[..6]);
    assert k == k[..6] + k[6..] && l == l[..6] + l[6..];
  }
}
