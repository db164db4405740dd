/** The stored form of one value-table slot. */
module Slots {
  import opened Keys
  import opened Bytes

  const TOMBSTONE: seq<byte> := [0xff, 0xff]
  const MULTIPART: seq<byte> := [0xfe, 0xff]
  const MULTIHEAD: seq<byte> := [0xfd, 0xff]
  const MULTIHEAD_COMPRESSED: seq<byte> := [0xfd, 0x7f]
  const COMPRESSED_MASK: nat := 0x8000
  const MAX_ENTRY_SIZE: nat := 0x7ff8
  const MIN_ENTRY_SIZE: nat := 32
  const SIZE_SIZE: nat := 2
  const INDEX_SIZE: nat := 8

  /** The fixed properties of a table. */
  datatype Config = Config(entrySize: nat, multipart: bool, refCounted: bool) {
    /** What opening a table insists on. */
    predicate Valid() {
      MIN_ENTRY_SIZE <= entrySize <= MAX_ENTRY_SIZE && (multipart ==> entrySize == 4096)
    }
  }

  type TableConfig = c: Config | c.Valid() witness Config(MIN_ENTRY_SIZE, false, false)

  datatype Mark = Head | HeadCompressed | Middle

  /** A deleted slot, a part that fills its slot and links to the next part, or a last (or only) part. */
  datatype Slot =
    | Free(next: nat)
    | Part(mark: Mark, next: nat, part: seq<byte>)
    | Last(compressed: bool, last: seq<byte>)
  {
    function Body(): seq<byte> {
      match this
      case Free(_) => []
      case Part(_, _, b) => b
      case Last(_, b) => b
    }

    predicate IsCompressed() {
      (Part? && mark == HeadCompressed) || (Last? && compressed)
    }

    predicate Fits(c: Config) {
      match this
      case Free(next) => next < U64
      case Part(_, next, b) => c.multipart && next < U64 && |b| == c.entrySize - SIZE_SIZE - INDEX_SIZE
      case Last(_, b) => |b| <= c.entrySize - SIZE_SIZE
    }
  }

  function MarkBytes(m: Mark): seq<byte> {
    match m
    case Head => MULTIHEAD
    case HeadCompressed => MULTIHEAD_COMPRESSED
    case Middle => MULTIPART
  }

  function SizeBytes(size: nat, compressed: bool): seq<byte> {
    LE(if compressed then size + COMPRESSED_MASK else size, 2)
  }

  function Encode(s: Slot): seq<byte> {
    match s
    case Free(next) => TOMBSTONE + LE(next, 8)
    case Part(m, next, b) => MarkBytes(m) + LE(next, 8) + b
    case Last(compressed, b) => SizeBytes(|b|, compressed) + b
  }

  // What the code asks of a buffer whose first bytes are a slot.

  predicate IsTombstone(b: seq<byte>)
    requires |b| >= SIZE_SIZE
  {
    b[..2] == TOMBSTONE
  }

  predicate IsMulti(b: seq<byte>)
    requires |b| >= SIZE_SIZE
  {
    b[..2] == MULTIPART || b[..2] == MULTIHEAD || b[..2] == MULTIHEAD_COMPRESSED
  }

  function SizeField(b: seq<byte>): nat
    requires |b| >= SIZE_SIZE
  {
    UnLE(b[..2]) % COMPRESSED_MASK
  }

  predicate CompressedField(b: seq<byte>)
    requires |b| >= SIZE_SIZE
  {
    UnLE(b[..2]) >= COMPRESSED_MASK
  }

  function NextField(b: seq<byte>): nat
    requires |b| >= SIZE_SIZE + INDEX_SIZE
  {
    UnLE(b[2..10])
  }

  /** How many bytes a slot occupies, as its first two bytes tell. */
  function Extent(c: Config, b: seq<byte>): nat
    requires |b| >= SIZE_SIZE
  {
    if IsTombstone(b) then SIZE_SIZE + INDEX_SIZE
    else if c.multipart && IsMulti(b) then c.entrySize
    else SIZE_SIZE + SizeField(b)
  }

  /** A slot in bytes. */
  lemma SlotLayout(s: Slot)
    ensures Encode(s) == match s
      case Free(next) => [255, 255] + LE(next, 8)
      case Part(Head, next, b) => [0xfd, 0xff] + LE(next, 8) + b
      case Part(HeadCompressed, next, b) => [0xfd, 0x7f] + LE(next, 8) + b
      case Part(Middle, next, b) => [0xfe, 0xff] + LE(next, 8) + b
      case Last(compressed, b) => LE(|b| + (if compressed then 32768 else 0), 2) + b
  {
  }

  lemma TwoBytes(n: nat)
    requires n < U16
    ensures LE(n, 2) == [(n % 256) as byte, (n / 256) as byte] && UnLE(LE(n, 2)) == n
  {
    Widths();
    UnLEofLE(n, 2);
    assert LE(n, 2) == [(n % 256) as byte] + LE(n / 256, 1);
    assert LE(n / 256, 1) == [(n / 256 % 256) as byte] + LE(n / 256 / 256, 0);
  }

  /** A size field is never one of the markers, with or without its compression bit. */
  lemma SizeIsNoMarker(size: nat, compressed: bool)
    requires size <= MAX_ENTRY_SIZE - SIZE_SIZE
    ensures var b := SizeBytes(size, compressed);
      !IsTombstone(b) && !IsMulti(b) && SizeField(b) == size && CompressedField(b) == compressed
  {
    var n := if compressed then size + COMPRESSED_MASK else size;
    TwoBytes(n);
    var b := SizeBytes(size, compressed);
    assert b[..2] == b && b[0] as nat == n % 256 && b[1] as nat == n / 256;
    assert n <= 0xfff6 && n != 0x7ffd;
    assert TOMBSTONE[1] == 0xff && MULTIPART[1] == 0xff && MULTIHEAD[1] == 0xff;
    assert TOMBSTONE[0] == 0xff && MULTIPART[0] == 0xfe && MULTIHEAD[0] == 0xfd;
    assert MULTIHEAD_COMPRESSED[0] == 0xfd && MULTIHEAD_COMPRESSED[1] == 0x7f;
  }

  lemma PrefixAt(e: seq<byte>, b: seq<byte>, i: nat, j: nat)
    requires i <= j <= |e| && e <= b
    ensures b[i..j] == e[i..j]
  {
  }

  lemma FieldsAt(mark: seq<byte>, next: seq<byte>, body: seq<byte>)
    requires |mark| == 2 && |next| == 8
    ensures var e := mark + next + body; e[..2] == mark && e[2..10] == next && e[10..] == body
  {
  }

  /**
   * A buffer that starts with an encoded slot reads as that slot, whatever bytes follow it (bytes left over from an
   * earlier, longer occupant): the kinds are told apart, every field comes back and the slot ends where it says.
   */
  lemma ReadsAs(c: Config, s: Slot, b: seq<byte>)
    requires c.Valid() && s.Fits(c) && Encode(s) <= b
    ensures |b| >= SIZE_SIZE && Extent(c, b) == |Encode(s)| <= c.entrySize
    ensures IsTombstone(b) == s.Free?
    ensures (c.multipart && IsMulti(b)) == s.Part?
    ensures !s.Last? ==> |b| >= 10 && NextField(b) == s.next
    ensures s.Part? ==> b[10..c.entrySize] == s.part && (b[..2] == MULTIHEAD_COMPRESSED <==> s.mark == HeadCompressed)
    ensures s.Last? ==> SizeField(b) == |s.last| && CompressedField(b) == s.compressed && b[2..2 + |s.last|] == s.last
  {
    hide LE, UnLE;
    var e := Encode(s);
    match s
    case Free(next) =>
      FieldsAt(TOMBSTONE, LE(next, 8), []);
      assert e == TOMBSTONE + LE(next, 8) + [];
      assert TOMBSTONE[0] == 0xff && MULTIPART[0] == 0xfe && MULTIHEAD[0] == 0xfd && MULTIHEAD_COMPRESSED[0] == 0xfd;
      PrefixAt(e, b, 0, 2);
      PrefixAt(e, b, 2, 10);
      Widths();
      UnLEofLE(next, 8);
    case Part(m, next, body) =>
      FieldsAt(MarkBytes(m), LE(next, 8), body);
      PrefixAt(e, b, 0, 2);
      PrefixAt(e, b, 2, 10);
      PrefixAt(e, b, 10, c.entrySize);
      assert e[10..c.entrySize] == e[10..];
      assert TOMBSTONE[0] == 0xff && MULTIPART[0] == 0xfe && MULTIHEAD[0] == 0xfd && MULTIHEAD_COMPRESSED[0] == 0xfd;
      assert MULTIHEAD_COMPRESSED[1] == 0x7f && MULTIHEAD[1] == 0xff;
      Widths();
      UnLEofLE(next, 8);
    case Last(compressed, body) =>
      SizeIsNoMarker(|body|, compressed);
      PrefixAt(e, b, 0, 2);
      PrefixAt(e, b, 2, 2 + |body|);
      assert e[..2] == SizeBytes(|body|, compressed) == SizeBytes(|body|, compressed)[..2];
      assert e[2..2 + |body|] == body;
  }
}
