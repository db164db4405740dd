/** What a value table keeps of a key, and what the index needs it to keep. */
module Lookups {
  import opened Keys
  import opened Bytes
  import opened Slots
  import opened Allocation
  import opened Chains
  import opened ValueTables
  import I = IndexEntries

  /** The two keys belong on the same page of an index of this width, with the same partial key. */
  ghost predicate SamePlace(k: Hash, l: Hash, bits: I.Bits) {
    && I.ChunkIndex(I.KeyPrefix(k), bits) == I.ChunkIndex(I.KeyPrefix(l), bits)
    && I.ExtractKey(I.KeyPrefix(k), bits) == I.ExtractKey(I.KeyPrefix(l), bits)
  }

  /** A new entry is its count, one, the bytes of its key from the seventh on, and its value. */
  lemma NewLayout(c: Config, k: Hash, value: seq<byte>, i: nat)
    requires i < 26
    ensures var p := Preamble(c, Partial(k)) + value; var n := if c.refCounted then 4 else 0;
      && p[n + i] == k[6 + i] && p[n + 26..] == value
      && (c.refCounted ==> p[..4] == [1, 0, 0, 0])
  {
    if c.refCounted {
      One();
    }
  }

  lemma One()
    ensures LE(1, 4) == [1, 0, 0, 0]
  {
    assert LE(0, 0) == [] && LE(0, 1) == [0] && LE(0, 2) == [0, 0] && LE(0, 3) == [0, 0, 0];
  }

  /**
   * Among keys of one place in the index, a query for a key is answered by the entry of that key and by no other: what
   * the table keeps of a key is what the index does not.
   */
  lemma AnswersOwnKey(c: Config, k: Hash, l: Hash, value: seq<byte>, compressed: bool, bits: I.Bits)
    requires SamePlace(k, l, bits)
    ensures Answer(c, Check(Partial(l)), Record(compressed, Preamble(c, Partial(k)) + value)).Some? <==> k == l
  {
    hide I.ChunkIndex, I.ExtractKey, I.KeyPrefix, LE, UnLE;
    var p := Preamble(c, Partial(k)) + value;
    AnswerOfNew(c, Partial(k), value, compressed);
    if Answer(c, Check(Partial(l)), Record(compressed, p)).Some? {
      forall i | 6 <= i < 32
        ensures k[i] == l[i]
      {
        NewLayout(c, k, value, i - 6);
        assert p[RefSize(c)..RefSize(c) + PARTIAL_SIZE][i - 6] == l[i];
      }
      assert k[6..] == l[6..];
      I.KeyDetermined(k, l, bits);
    }
  }

  /** A query that fetches the partial key gets the key's bytes from the seventh on. */
  lemma FetchOfNew(c: Config, k: Hash, value: seq<byte>, compressed: bool)
    ensures var r := Answer(c, FetchPartial, Record(compressed, Preamble(c, Partial(k)) + value));
      && r.Some? && r.value.value == value && r.value.compressed == compressed && r.value.rc == 1
      && |r.value.partial| == 26 && forall i :: 0 <= i < 26 ==> r.value.partial[i] == k[6 + i]
  {
    hide LE, UnLE;
    AnswerOfNew(c, Partial(k), value, compressed);
  }

  /** An entry without a partial key is all value. */
  lemma FetchOfPlain(c: Config, value: seq<byte>, compressed: bool)
    ensures Answer(c, FetchNone, Record(compressed, Preamble(c, NoHash) + value)) ==
      Some(Found(value, compressed, 1, []))
  {
    hide LE, UnLE;
    AnswerOfNew(c, NoHash, value, compressed);
  }

  /** Inserts a value for one key and asks at its place for another. */
  method InsertThenQuery(table: ValueTable, k: Hash, l: Hash, value: seq<byte>, compressed: bool, ghost bits: I.Bits)
    returns (head: nat, r: Option<Found>)
    requires table.Valid() && SamePlace(k, l, bits)
    requires table.config.multipart || RefSize(table.config) + 26 + |value| <= table.config.entrySize - SIZE_SIZE
    requires table.filled + RefSize(table.config) + 26 + |value| + 2 < U64
    modifies table
    ensures table.Valid() && (r.Some? <==> k == l)
    ensures k == l ==> r.value.value == value && r.value.compressed == compressed && r.value.rc == 1
  {
    hide SamePlace, LE, Preamble, Answer, Linked, FreeLinked, Join, Laid, Onward, ContentsOf;
    head := table.WriteInsertPlan(Partial(k), value, compressed);
    AnswersOwnKey(table.config, k, l, value, compressed, bits);
    AnswerOfNew(table.config, Partial(k), value, compressed);
    HeadOnward(table, head);
    r := table.Query(Check(Partial(l)), head);
  }

  lemma HeadOnward(table: ValueTable, head: nat)
    requires table.Valid() && head in table.Contents()
    ensures 1 <= head < table.filled && RecordOf(table.view, Onward(table.a, head)) == table.Contents()[head]
  {
    hide LE, Linked, FreeLinked, Imaged, HeaderOk, Join, RecordOf, Onward;
    ContentsKeys(table.a, table.view);
    LaidHead(table.a, table.view, head);
    HeadPlace(table.a, table.view, head);
    OnwardFacts(table.a, table.view, head);
  }

  lemma HeadPlace(a: Alloc, v: View, head: nat)
    requires Laid(a, v) && head in a.chains
    ensures 1 <= head < a.filled
  {
    assert UsedAt(a, head, 0);
  }
}
