/** The hash index: searching pages, inserting entries, and moving a table's entries to a wider one. */
module Reindexing {
  import opened Keys
  import opened Words
  import opened IndexEntries

  const MAX_REINDEX_BATCH: nat := 8192

  function EmptyPage(): seq<nat> {
    seq(CHUNK_ENTRIES, i => 0)
  }

  /** An index table: 2^bits pages of 64 entries. */
  datatype IndexTable = IndexTable(bits: Bits, pages: map<nat, seq<nat>>) {
    function Page(c: nat): seq<nat> {
      if c in pages then pages[c] else EmptyPage()
    }

    ghost predicate Valid() {
      forall c :: c in pages ==>
        |pages[c]| == CHUNK_ENTRIES && forall i :: 0 <= i < CHUNK_ENTRIES ==> Entry(pages[c][i], bits)
    }
  }

  /** A 64-bit word that is empty or has an address. */
  ghost predicate Entry(e: nat, bits: Bits) {
    Word(e) && (e == 0 || Address(e, bits) > 0)
  }

  function TotalChunks(t: IndexTable): nat {
    Pow2(t.bits)
  }

  /** The table has an entry for the address where a key with this prefix belongs. */
  ghost predicate Holds(t: IndexTable, prefix: nat, address: nat) {
    exists i :: 0 <= i < CHUNK_ENTRIES && HoldsAt(t, prefix, address, i)
  }

  ghost predicate HoldsAt(t: IndexTable, prefix: nat, address: nat, i: nat) {
    var page := t.Page(ChunkIndex(prefix, t.bits));
    && i < |page| && page[i] != 0 && PartialKey(page[i], t.bits) == ExtractKey(prefix, t.bits)
    && Address(page[i], t.bits) == address
  }

  /** The key with this prefix and zeros behind it. */
  ghost predicate Padded(key: Hash) {
    (forall i :: 8 <= i < 32 ==> key[i] == 0) && Top50(KeyPrefix(key)) == KeyPrefix(key)
  }

  type KeyMap = map<nat, Hash>

  function HasKeyAt(keys: KeyMap, address: nat, key: Hash): bool {
    address in keys && keys[address][6..] == key[6..]
  }

  ghost predicate Matches(t: IndexTable, keys: KeyMap, key: Hash, i: nat) {
    var page := t.Page(ChunkIndex(KeyPrefix(key), t.bits));
    i < |page| && page[i] != 0 && PartialKey(page[i], t.bits) == ExtractKey(KeyPrefix(key), t.bits) &&
    HasKeyAt(keys, Address(page[i], t.bits), key)
  }

  /** The first entry from `sub` on that could be the key's. */
  method FindEntry(bits: Bits, prefix: nat, sub: nat, page: seq<nat>) returns (entry: nat, at: nat)
    requires |page| == CHUNK_ENTRIES
    ensures entry != 0 ==> sub <= at < CHUNK_ENTRIES && page[at] == entry
    ensures entry != 0 ==> PartialKey(entry, bits) == ExtractKey(prefix, bits)
    ensures forall i :: sub <= i < (if entry != 0 then at else CHUNK_ENTRIES) ==>
      page[i] == 0 || PartialKey(page[i], bits) != ExtractKey(prefix, bits)
    ensures entry == 0 ==> at == 0
  {
    hide PartialKey, ExtractKey;
    var i := sub;
    while i < CHUNK_ENTRIES
      invariant sub <= i && (sub <= CHUNK_ENTRIES ==> i <= CHUNK_ENTRIES)
      invariant forall j :: sub <= j < i && j < CHUNK_ENTRIES ==>
        page[j] == 0 || PartialKey(page[j], bits) != ExtractKey(prefix, bits)
    {
      if page[i] != 0 && PartialKey(page[i], bits) == ExtractKey(prefix, bits) {
        return page[i], i;
      }
      i := i + 1;
    }
    return 0, 0;
  }

  /** The first entry of the key's page whose partial key and stored key bytes match. */
  method SearchIndex(t: IndexTable, keys: KeyMap, key: Hash) returns (found: Option<nat>)
    requires t.Valid()
    ensures match found
      case Some(i) =>
        i < CHUNK_ENTRIES && Matches(t, keys, key, i) && forall j :: 0 <= j < i ==> !Matches(t, keys, key, j)
      case None => forall j :: 0 <= j < CHUNK_ENTRIES ==> !Matches(t, keys, key, j)
  {
    hide PartialKey, ExtractKey, Address, ChunkIndex, KeyPrefix, Entry;
    var page := t.Page(ChunkIndex(KeyPrefix(key), t.bits));
    var entry, sub := FindEntry(t.bits, KeyPrefix(key), 0, page);
    while entry != 0
      invariant entry != 0 ==> sub < CHUNK_ENTRIES && page[sub] == entry
      invariant entry != 0 ==> PartialKey(entry, t.bits) == ExtractKey(KeyPrefix(key), t.bits)
      invariant forall j :: 0 <= j < (if entry != 0 then sub else CHUNK_ENTRIES) ==> !Matches(t, keys, key, j)
      decreases if entry != 0 then CHUNK_ENTRIES - sub else 0
    {
      if HasKeyAt(keys, Address(entry, t.bits), key) {
        return Some(sub);
      }
      ghost var s := sub;
      assert !Matches(t, keys, key, s);
      entry, sub := FindEntry(t.bits, KeyPrefix(key), sub + 1, page);
    }
    return None;
  }

  /** The table with one entry of one page replaced. */
  function WithEntry(t: IndexTable, c: nat, i: nat, entry: nat): IndexTable
    requires i < |t.Page(c)|
  {
    t.(pages := t.pages[c := t.Page(c)[i := entry]])
  }

  /** The first free place of a page; 64 if there is none. */
  ghost predicate FirstFree(page: seq<nat>, i: nat) {
    i <= |page| && (i < |page| ==> page[i] == 0) && forall j :: 0 <= j < i ==> page[j] != 0
  }

  /**
   * Writes an entry to its page: over the one at `sub`, which has the same partial key, or to the first free place.
   * Nothing else changes. Fails exactly on an address too wide for the table and, without `sub`, on a full page.
   */
  method PlanInsert(t: IndexTable, prefix: nat, address: nat, sub: Option<nat>) returns (r: Option<IndexTable>, at: nat)
    requires t.Valid() && address > 0 && Word(prefix)
    requires sub.Some? ==> sub.value < CHUNK_ENTRIES
    requires sub.Some? ==>
      PartialKey(t.Page(ChunkIndex(prefix, t.bits))[sub.value], t.bits) == ExtractKey(prefix, t.bits)
    ensures r.Some? <==> address <= LastAddress(t.bits) && at < CHUNK_ENTRIES
    ensures address <= LastAddress(t.bits) ==>
      if sub.Some? then at == sub.value else FirstFree(t.Page(ChunkIndex(prefix, t.bits)), at)
    ensures r.Some? ==> r.value.Valid() && HoldsAt(r.value, prefix, address, at)
    ensures r.Some? ==>
      r.value == WithEntry(t, ChunkIndex(prefix, t.bits), at, NewEntry(address, ExtractKey(prefix, t.bits), t.bits))
  {
    hide PartialKey, ExtractKey, Address, ChunkIndex, NewEntry, LastAddress, Word;
    at := CHUNK_ENTRIES;
    if address > LastAddress(t.bits) {
      return None, at;
    }
    var c := ChunkIndex(prefix, t.bits);
    var page := t.Page(c);
    var entry := NewEntry(address, ExtractKey(prefix, t.bits), t.bits);
    EntryFits(address, prefix, t.bits);
    PackUnpack(address, prefix, t.bits);
    EmptyEntry(t.bits);
    if sub.Some? {
      at := sub.value;
      return Some(WithEntry(t, c, at, entry)), at;
    }
    at := 0;
    while at < CHUNK_ENTRIES
      invariant at <= CHUNK_ENTRIES && forall j :: 0 <= j < at ==> page[j] != 0
    {
      if page[at] == 0 {
        return Some(WithEntry(t, c, at, entry)), at;
      }
      at := at + 1;
    }
    return None, at;
  }

  /** An entry put to a free place leaves all others, and is found there. */
  lemma InsertedKeeps(t: IndexTable, c: nat, i: nat, entry: nat)
    requires t.Valid() && i < CHUNK_ENTRIES && t.Page(c)[i] == 0
    ensures Keeps(t, WithEntry(t, c, i, entry))
  {
  }

  /** Every entry of the one table is in the other. */
  ghost predicate Keeps(t: IndexTable, u: IndexTable) {
    t.bits == u.bits && forall c: nat, i :: 0 <= i < CHUNK_ENTRIES && i < |t.Page(c)| && t.Page(c)[i] != 0 ==>
      i < |u.Page(c)| && u.Page(c)[i] == t.Page(c)[i]
  }

  lemma KeepsHolds(t: IndexTable, u: IndexTable, prefix: nat, address: nat)
    requires Keeps(t, u) && Holds(t, prefix, address)
    ensures Holds(u, prefix, address)
  {
    hide PartialKey, ExtractKey, Address, ChunkIndex;
    var i :| 0 <= i < CHUNK_ENTRIES && HoldsAt(t, prefix, address, i);
    assert HoldsAt(u, prefix, address, i);
  }

  lemma EmptyEntry(bits: Bits)
    ensures Entry(0, bits)
  {
  }

  lemma EntryFits(address: nat, prefix: nat, bits: Bits)
    requires address <= LastAddress(bits)
    ensures Word(NewEntry(address, ExtractKey(prefix, bits), bits))
  {
    hide NewEntry, Up, Right, Low, Pow2, ExtractKey;
    ExtractIs(prefix, bits);
    Unpack(address, ExtractKey(prefix, bits), bits);
    UpFits(ExtractKey(prefix, bits), AddressBits(bits), 64 - AddressBits(bits), address);
  }

  lemma {:induction false} UpFits(p: nat, s: nat, t: nat, q: nat)
    requires p < Pow2(t) && q < Pow2(s)
    ensures Up(p, s) + q < Pow2(s + t)
  {
    if s > 0 {
      UpFits(p, s - 1, t, q / 2);
    }
  }

  // Recovered keys.

  function BigEndian(n: nat, w: nat): (b: seq<byte>)
    ensures |b| == w
  {
    if w == 0 then [] else BigEndian(n / 256, w - 1) + [(n % 256) as byte]
  }

  lemma {:induction false} BEofBigEndian(n: nat, w: nat)
    requires n < Pow2(8 * w)
    ensures BE(BigEndian(n, w)) == n
  {
    if w > 0 {
      EightMore(8 * (w - 1));
      BEofBigEndian(n / 256, w - 1);
      assert BigEndian(n, w)[..w - 1] == BigEndian(n / 256, w - 1);
    }
  }

  /** A prefix in the first eight bytes of an otherwise empty key. */
  function KeyOf(prefix: nat): Hash {
    BigEndian(prefix, 8) + seq(24, i => 0 as byte)
  }

  lemma KeyOfPrefix(prefix: nat)
    requires Word(prefix)
    ensures KeyPrefix(KeyOf(prefix)) == prefix
  {
    assert KeyOf(prefix)[..8] == BigEndian(prefix, 8);
    BEofBigEndian(prefix, 8);
  }

  /** The low sixteen bits of a key's prefix are its bytes 6 and 7. */
  lemma LowBytes(key: Hash)
    ensures Low(KeyPrefix(key), 16) == 256 * key[6] as nat + key[7] as nat
  {
    hide Low, Up, Right;
    var b := key[..8];
    assert b[..7] == key[..7] && key[..7][..6] == key[..6];
    var x, q := BE(key[..6]), 256 * key[6] as nat + key[7] as nat;
    assert BE(b) == 256 * BE(key[..7]) + key[7] as nat && BE(key[..7]) == 256 * x + key[6] as nat;
    Sixteen(x);
    SumParts(x, q, 16);
  }

  lemma Sixteen(p: nat)
    ensures Up(p, 16) == 65536 * p && Pow2(16) == 65536
  {
    EightBits(p);
    UpTwice(p, 8, 8);
    EightBits(256 * p);
    EightMore(8);
  }

  lemma {:induction false} UpTwice(p: nat, s: nat, t: nat)
    ensures Up(p, s + t) == Up(Up(p, s), t)
  {
    if t > 0 {
      UpTwice(p, s, t - 1);
    }
  }

  /** Where a padded key has the stored bytes of another key, that key is padded itself. */
  lemma PaddedByBytes(k: Hash, l: Hash)
    requires Padded(k) && k[6..] == l[6..]
    ensures Padded(l)
  {
    hide Low, Up, Right, KeyPrefix;
    assert forall i :: 6 <= i < 32 ==> k[i] == k[6..][i - 6] == l[6..][i - 6] == l[i];
    LowBytes(k);
    LowBytes(l);
    LowLow(KeyPrefix(k), 16, 14);
    LowLow(KeyPrefix(l), 16, 14);
    Split(KeyPrefix(k), 14);
    Split(KeyPrefix(l), 14);
  }

  lemma RecoveredIsPadded(c: nat, e: nat, bits: Bits)
    requires c < Pow2(bits) && Word(e)
    ensures var p := RecoverKeyPrefix(c, e, bits);
      && Word(p) && Top50(p) == p && ChunkIndex(p, bits) == c && ExtractKey(p, bits) == PartialKey(e, bits)
      && Padded(KeyOf(p))
  {
    hide Low, Up, Right, Left, Or, Pow2, BE, BigEndian;
    var s, k, p := 64 - bits, PartialKey(e, bits), RecoverKeyPrefix(c, e, bits);
    var low := Up(k, 14);
    RightFits(e, AddressBits(bits), 50 - bits);
    Fourteen(k, 50 - bits);
    LeftIsUp(c, s);
    Wider(50 - bits, 50);
    LeftIsUp(k, 14);
    OrSum(c, low, s);
    SumParts(c, low, s);
    Twofold(c, k, bits);
    ExtractIs(p, bits);
    RightUp(k, 14, 0);
    NoShift(k);
    KeyOfPrefix(p);
  }

  lemma Fourteen(k: nat, t: nat)
    requires k < Pow2(t)
    ensures Up(k, 14) < Pow2(14 + t)
  {
    UpFits(k, 14, t, 0);
  }

  /** Up to the fourteenth bit both parts of a recovered prefix are empty. */
  lemma Twofold(c: nat, k: nat, bits: Bits)
    requires c < Pow2(bits) && k < Pow2(50 - bits)
    ensures var p := Up(c, 64 - bits) + Up(k, 14); Word(p) && Top50(p) == p
  {
    hide Low, Right, Pow2;
    var q := Up(c, 50 - bits) + k;
    UpFits(c, 50 - bits, bits, k);
    UpTwice(c, 50 - bits, 14);
    UpSum(Up(c, 50 - bits), k, 14);
    RightUp(q, 14, 0);
    NoShift(q);
    Fourteen(q, 50);
  }

  lemma {:induction false} UpSum(p: nat, q: nat, s: nat)
    ensures Up(p + q, s) == Up(p, s) + Up(q, s)
  {
    if s > 0 {
      UpSum(p, q, s - 1);
    }
  }
}
