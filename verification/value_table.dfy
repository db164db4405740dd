/** The value table: values kept in fixed-size slots, long ones as chains of slots. */
module ValueTables {
  import opened Keys
  import opened Bytes
  import opened Slots
  import opened Allocation
  import opened Chains
  import opened ChainWrites

  const PARTIAL_SIZE: nat := 26
  const REFS_SIZE: nat := 4
  const LOCKED_REF: nat := 0xffff_ffff

  datatype TableKey = Partial(hash: Hash) | NoHash {
    function Encoded(): (r: seq<byte>)
      ensures |r| == if Partial? then PARTIAL_SIZE else 0
    {
      match this
      case Partial(k) => k[6..]
      case NoHash => []
    }
  }

  datatype KeyQuery = Check(key: TableKey) | FetchPartial | FetchNone {
    /** How much of an entry the query reads as a partial key. */
    function Skips(): nat {
      if FetchPartial? || (Check? && key.Partial?) then PARTIAL_SIZE else 0
    }
  }

  datatype Found = Found(value: seq<byte>, compressed: bool, rc: nat, partial: seq<byte>)

  function RefSize(c: Config): nat {
    if c.refCounted then REFS_SIZE else 0
  }

  /** What precedes the value in a new entry: a count of one and the partial key. */
  function Preamble(c: Config, key: TableKey): (r: seq<byte>)
    ensures |r| == RefSize(c) + |key.Encoded()|
  {
    (if c.refCounted then LE(1, 4) else []) + key.Encoded()
  }

  function CountOf(c: Config, payload: seq<byte>): nat
    requires |payload| >= RefSize(c)
  {
    if c.refCounted then UnLE(payload[..4]) else 1
  }

  /** What a query answers about a record: nothing if its count is 0 or its partial key is another one. */
  function Answer(c: Config, q: KeyQuery, r: Record): Option<Found>
    requires |r.payload| >= RefSize(c) + q.Skips()
  {
    var rc := CountOf(c, r.payload);
    var start := RefSize(c) + q.Skips();
    var partial := r.payload[RefSize(c)..start];
    if rc == 0 || (q.Check? && q.key.Partial? && q.key.Encoded() != partial) then None
    else Some(Found(r.payload[start..], r.compressed, rc, partial))
  }

  /** What an insertion writes is what a query reads back, with a count of one. */
  lemma AnswerOfNew(c: Config, key: TableKey, value: seq<byte>, compressed: bool)
    ensures Answer(c, Check(key), Record(compressed, Preamble(c, key) + value)) ==
      Some(Found(value, compressed, 1, key.Encoded()))
  {
    hide LE, UnLE;
    Widths();
    UnLEofLE(1, 4);
    var p := Preamble(c, key) + value;
    assert p[RefSize(c)..RefSize(c) + |key.Encoded()|] == key.Encoded();
    assert p[|Preamble(c, key)|..] == value;
    if c.refCounted {
      assert p[..4] == LE(1, 4);
    }
  }

  /** The count after adding `delta`; a count that reaches the lock value stays there. */
  function Bumped(count: nat, delta: int): nat {
    if delta > 0 then (if count >= LOCKED_REF - delta then LOCKED_REF else count + delta)
    else if count == LOCKED_REF then count
    else if count >= -delta then count + delta
    else 0
  }

  /** A payload after its count has changed; nothing where the count drops to 0. */
  function Counted(payload: seq<byte>, delta: int): Option<seq<byte>>
    requires |payload| >= REFS_SIZE
  {
    var n := Bumped(UnLE(payload[..4]), delta);
    if n == 0 then None else Some(LE(n, 4) + payload[4..])
  }

  function HeaderBytes(lastRemoved: nat, filled: nat): seq<byte> {
    LE(lastRemoved, 8) + LE(filled, 8)
  }

  lemma HeaderFields(l: nat, f: nat)
    requires l < U64 && f < U64
    ensures UnLE(HeaderBytes(l, f)[..8]) == l && UnLE(HeaderBytes(l, f)[8..]) == f
  {
    Widths();
    UnLEofLE(l, 8);
    UnLEofLE(f, 8);
    assert HeaderBytes(l, f)[..8] == LE(l, 8) && HeaderBytes(l, f)[8..] == LE(f, 8);
  }

  /** Every slot in use holds the stored form of its contents. */
  ghost predicate Imaged(c: Config, slots: map<nat, seq<byte>>, v: View) {
    forall s :: s in v ==> s != 0 && s in slots && slots[s] == Encode(v[s]) && v[s].Fits(c)
  }

  /** The header slot holds these fields; a table not written yet has no header. */
  ghost predicate HeaderOk(slots: map<nat, seq<byte>>, lastRemoved: nat, filled: nat) {
    if 0 in slots then slots[0] == HeaderBytes(lastRemoved, filled) else filled == 1 && lastRemoved == 0
  }

  lemma Store(c: Config, slots: map<nat, seq<byte>>, v: View, s: nat, b: seq<byte>, x: Slot)
    requires Imaged(c, slots, v) && s != 0 && b == Encode(x) && x.Fits(c)
    ensures Imaged(c, slots[s := b], v[s := x])
    ensures forall l, f :: HeaderOk(slots, l, f) ==> HeaderOk(slots[s := b], l, f)
  {
  }

  lemma Image(c: Config, slots: map<nat, seq<byte>>, v: View, s: nat)
    requires Imaged(c, slots, v) && s in v
    ensures s != 0 && s in slots && slots[s] == Encode(v[s]) && v[s].Fits(c)
  {
  }

  /** The table as the log overlay and the file below it show it. */
  class ValueTable {
    const config: Config
    var slots: map<nat, seq<byte>>
    var filled: nat
    var lastRemoved: nat
    var dirtyHeader: bool
    ghost var a: Alloc
    ghost var view: View

    /** The fields and the slot bytes are those of `a` and `view`. */
    ghost predicate Backed()
      reads this
    {
      && config.Valid() && filled == a.filled < U64 && lastRemoved == Top(a.free)
      && Imaged(config, slots, view)
      && (!dirtyHeader ==> HeaderOk(slots, lastRemoved, filled))
    }

    ghost predicate Valid()
      reads this
    {
      Backed() && Laid(a, view)
    }

    ghost function Contents(): map<nat, Record>
      reads this
    {
      ContentsOf(a, view)
    }

    lemma ConfigValid()
      requires Backed()
      ensures config.Valid()
    {
    }

    lemma ConfigOk(key: TableKey)
      requires Backed()
      ensures config.entrySize >= MIN_ENTRY_SIZE && (config.multipart ==> config.entrySize == 4096)
      ensures |Preamble(config, key)| <= 30
    {
    }

    constructor (config: Config)
      requires config.Valid()
      ensures Valid() && this.config == config && Contents() == map[] && filled == 1 && lastRemoved == 0 && !dirtyHeader
    {
      this.config := config;
      slots, filled, lastRemoved, dirtyHeader := map[], 1, 0, false;
      a, view := Empty(), map[];
    }

    /**
     * The first `n` bytes at a slot. What lies behind the bytes last written there is left from earlier occupants or
     * was never initialised, and can be anything.
     */
    method ReadSlot(index: nat, n: nat) returns (buf: seq<byte>, ghost full: seq<byte>)
      requires index in slots
      ensures |buf| == n <= |full| && buf == full[..n] && slots[index] <= full
    {
      assert |seq(n, i => 0 as byte)| >= n;
      var junk: seq<byte> :| |junk| >= n;
      full := slots[index] + junk;
      buf := (slots[index] + junk)[..n];
    }

    /** The slot a part links to; nothing for a last part and for a tombstone. */
    method ReadNextPart(index: nat) returns (next: Option<nat>)
      requires Backed() && index in view
      ensures next == if view[index].Part? then Some(view[index].next) else None
    {
      hide LE, UnLE, Encode, IsMulti, IsTombstone, Imaged, HeaderOk;
      Image(config, slots, view, index);
      var buf, full := ReadSlot(index, 10);
      ReadsAs(config, view[index], full);
      PrefixReads(full, 10);
      if config.multipart && IsMulti(buf) {
        next := Some(NextField(buf));
      } else {
        next := None;
      }
    }

    method ReadNextFree(index: nat) returns (next: nat)
      requires Backed() && index in view && view[index].Free?
      ensures next == view[index].next
    {
      hide LE, UnLE, Encode, Imaged, HeaderOk;
      Image(config, slots, view, index);
      var buf, full := ReadSlot(index, 10);
      ReadsAs(config, view[index], full);
      PrefixReads(full, 10);
      next := NextField(buf);
    }

    /** Takes a slot for chain `h`, or for a new chain. */
    method NextFree(ghost h: Option<nat>) returns (index: nat)
      requires Backed() && filled + 1 < U64
      requires if h.None? then Laid(a, view) else h.value in a.chains && LaidBut(a, view, h.value)
      modifies this`filled, this`lastRemoved, this`dirtyHeader, this`a
      ensures Backed() && dirtyHeader && index == Spot(old(a)) && filled <= old(filled) + 1
      ensures a == if h.None? then Begun(old(a)) else Extended(old(a), h.value)
    {
      hide Sound, FreeLinked, Imaged, HeaderOk, Linked;
      assert Sound(a) && FreeLinked(view, a.free);
      SpotIsTop(a, view);
      if lastRemoved != 0 {
        var nextRemoved := ReadNextFree(lastRemoved);
        index := lastRemoved;
        lastRemoved := nextRemoved;
      } else {
        index := filled;
        filled := filled + 1;
      }
      dirtyHeader := true;
      a := if h.None? then Begun(a) else Extended(a, h.value);
    }

    /** The slot has been put on the free list, which had it already. */
    twostate predicate FreedTwice(index: nat)
      reads this
    {
      && slots == old(slots)[index := TOMBSTONE + LE(old(lastRemoved), 8)] && lastRemoved == index && dirtyHeader
      && filled == old(filled) && a == old(a) && view == old(view)
    }

    /** Frees the only slot of chain `index`. A slot that is free already is put on the free list once more. */
    method ClearSlot(index: nat)
      requires Backed()
      requires if index in a.free then Laid(a, view)
        else index in a.chains && |a.chains[index]| == 1 && LaidBut(a, view, index)
      modifies this
      ensures dirtyHeader && filled == old(filled)
      ensures index in old(a.free) ==> FreedTwice(index)
      ensures index !in old(a.free) ==> Valid() && a == Freed(old(a), index)
      ensures index !in old(a.free) ==> view == old(view)[index := Free(Top(old(a).free))]
      ensures index !in old(a.free) ==> Contents() == old(Contents()) - {index}
    {
      hide LE, Sound, FreeLinked, Linked, Imaged, HeaderOk, ContentsOf, Laid, LaidBut, Kept;
      var buf := TOMBSTONE + LE(lastRemoved, 8);
      if index !in a.free {
        HeadOf(a, view, index);
        SoundOf(a, view, index);
        TopSmall(a);
        FreedLaid(a, view, index);
        ghost var x := Free(Top(a.free));
        KeptContents(a, view, Freed(a, index), view[index := x], index);
        Store(config, slots, view, index, buf, x);
        a, view := Freed(a, index), view[index := x];
      }
      slots := slots[index := buf];
      lastRemoved := index;
      dirtyHeader := true;
    }

    /** Frees every slot of chain `index`, from its head on; of a slot that is free already, only that one. */
    method ClearChain(index: nat)
      requires Valid() && (index in a.chains || index in a.free)
      modifies this
      ensures index in old(a.free) ==> FreedTwice(index)
      ensures index !in old(a.free) ==> Valid() && dirtyHeader && filled == old(filled)
      ensures index !in old(a.free) ==> a.free == old(a.free + a.chains[index]) && a.chains == old(a.chains) - {index}
      ensures index !in old(a.free) ==> Contents() == old(Contents()) - {index}
      ensures index !in old(a.free) ==> SameOutside(old(view), view, old(a.chains[index]))
    {
      hide LE, Sound, FreeLinked, Imaged, HeaderOk, ContentsOf, Laid, LaidBut, Kept, Linked;
      if index in a.free {
        FreeSlotAt(a, view, index);
      } else {
        LaidHead(a, view, index);
        LinkedHead(view, a.chains[index]);
      }
      var next := ReadNextPart(index);
      if next.None? {
        if index !in a.free {
          Weaken(a, view, index);
          assert a.chains[index] == [index];
          OutsideSelf(view, [index]);
          OutsideMore(view, view, [index], index, Free(Top(a.free)));
        }
        ClearSlot(index);
        return;
      }
      ClearParts(index);
    }

    method ClearParts(index: nat)
      requires Valid() && index in a.chains
      modifies this
      ensures Valid() && dirtyHeader && filled == old(filled)
      ensures a.free == old(a.free + a.chains[index]) && a.chains == old(a.chains) - {index}
      ensures Contents() == old(Contents()) - {index} && SameOutside(old(view), view, old(a.chains[index]))
    {
      hide LE, Sound, FreeLinked, Imaged, HeaderOk, ContentsOf, Laid, LaidBut, Kept, Linked, SameOutside;
      var at := index;
      OutsideSelf(view, a.chains[index]);
      LaidHead(a, view, at);
      ghost var chain, free, cut := a.chains[index], a.free, 0;
      while true
        invariant Valid() && filled == old(filled) && cut < |chain|
        invariant at in a.chains && a.chains[at] == chain[cut..] && a.free == free + chain[..cut]
        invariant a.chains - {at} == old(a.chains) - {index} && Contents() - {at} == old(Contents()) - {index}
        invariant SameOutside(old(view), view, chain)
        decreases |chain| - cut
      {
        assert at == chain[cut..][0] == chain[cut] by { LaidHead(a, view, at); }
        LaidHead(a, view, at);
        LinkedHead(view, a.chains[at]);
        var next := ReadNextPart(at);
        if next.None? {
          assert chain[..cut] + [at] == chain;
          Weaken(a, view, at);
          HeadNotFree(a, view, at);
          OutsideMore(old(view), view, chain, at, Free(Top(a.free)));
          ClearSlot(at);
          break;
        }
        assert a.chains[at][1..] == chain[cut + 1..];
        TailOf(view, a.chains[at]);
        Weaken(a, view, at);
        CutLaid(a, view, at, 1);
        ghost var c, v := a, view;
        SoundOf(a, view, at);
        CutContents(a, view, at, 1);
        a := Cut(a, at, 1);
        HeadNotFree(a, view, at);
        OutsideMore(old(view), view, chain, at, Free(Top(a.free)));
        ClearSlot(at);
        assert chain[..cut] + [at] == chain[..cut + 1];
        at, cut := next.value, cut + 1;
      }
    }

    /**
     * Writes a value at a new head slot, or over the chain at `at`, whose slots are used again in order; slots it
     * lacks are allocated, slots left over are freed.
     */
    method OverwriteChain(key: TableKey, value: seq<byte>, at: Option<nat>, compressed: bool) returns (start: nat)
      requires Valid() && (at.Some? ==> at.value in a.chains)
      requires config.multipart || RefSize(config) + |key.Encoded()| + |value| <= config.entrySize - SIZE_SIZE
      requires filled + RefSize(config) + |key.Encoded()| + |value| + 2 < U64
      modifies this
      ensures Valid()
      ensures if at.Some? then start == at.value else start == Spot(old(a)) && start !in old(a.chains)
      ensures Contents() == old(Contents())[start := Record(compressed, Preamble(config, key) + value)]
      ensures a.chains.Keys == old(a.chains.Keys) + {start}
      ensures at.Some? ==> Rewritten(old(a), a, start)
      ensures SlotsNeeded(config, |Preamble(config, key)| + |value|, |a.chains[start]|) && Marked(view, a.chains[start])
    {
      hide LE, UnLE, Sound, FreeLinked, Imaged, HeaderOk, ContentsOf, Laid, LaidBut, Kept, Linked, Join, RecordOf;
      hide Progress, Spot, Begun, Extended, Cut, Preamble, Encode, Slot.Fits, Grown, Rewritten, TableKey.Encoded, Top;
      var index := 0;
      ghost var a0, v0, to := a, view, Record(compressed, Preamble(config, key) + value);
      match at {
        case Some(i) =>
          index := i;
          StartOld(a, view, i, to);
          assert Grown(a, a, i, true) by { StartGrown(a, i); }
        case None =>
          StartNew(a, view, to);
          index := NextFree(None);
      }
      assert a.chains.Keys == old(a.chains.Keys) + {index} by { ChainBounds(a0, v0, a, view, index, 0, to, 0); }
      WriteParts(key, value, index, at.Some?, compressed, a0, v0);
      start := index;
    }

    /** Writes a value along the chain that starts at `head`, of which nothing is written yet. */
    method WriteParts(key: TableKey, value: seq<byte>, head: nat, over: bool, compressed: bool, ghost a0: Alloc,
                      ghost v0: View)
      requires Backed() && head in a.chains
      requires config.multipart || |Preamble(config, key)| + |value| <= config.entrySize - SIZE_SIZE
      requires filled + |Preamble(config, key)| + |value| + 1 < U64
      requires Progress(a0, v0, a, view, head, 0, Record(compressed, Preamble(config, key) + value), 0)
      requires Ahead(view, a.chains[head], 0, over) && (over ==> Grown(a0, a, head, true))
      modifies this
      ensures Valid() && a.chains.Keys == a0.chains.Keys + {head}
      ensures Contents() == ContentsOf(a0, v0)[head := Record(compressed, Preamble(config, key) + value)]
      ensures over ==> Rewritten(a0, a, head)
      ensures SlotsNeeded(config, |Preamble(config, key)| + |value|, |a.chains[head]|) && Marked(view, a.chains[head])
    {
      hide LE, UnLE, Sound, FreeLinked, Imaged, HeaderOk, ContentsOf, Laid, LaidBut, Kept, Linked, Join, RecordOf;
      hide Progress, Spot, Begun, Extended, Cut, Preamble, Encode, Slot.Fits, Grown, Rewritten, TableKey.Encoded, Top;
      hide ValueTable.Backed, ValueTable.Valid, Config.Valid, Ahead, NextSlot, MarkFor, Slot.Body, Slot.IsCompressed;
      hide RefSize, Marked, SlotsNeeded;
      ghost var to := Record(compressed, Preamble(config, key) + value);
      ConfigOk(key);
      assert config.Valid() by { ConfigValid(); }
      ChainBounds(a0, v0, a, view, head, 0, to, 0);
      var remainder := |value| + RefSize(config) + |key.Encoded()|;
      var offset := 0;
      var index, follow, start := head, over, 0;
      ghost var h: nat, k: nat, done: nat := head, 0, 0;
      while true
        invariant Backed() && Progress(a0, v0, a, view, h, k, to, done) && h in a.chains
        invariant Ahead(view, a.chains[h], k, follow) && k < |a.chains[h]| && index == a.chains[h][k]
        invariant remainder == |to.payload| - done && (k > 0 ==> remainder > 0) && filled + remainder + 1 < U64
        invariant start == if k == 0 then 0 else h
        invariant if k == 0 then done == 0 && offset == 0 else offset > 0 && done == |Preamble(config, key)| + offset
        invariant over ==> Grown(a0, a, h, follow)
        invariant k > 0 ==> config.multipart && done == 4086 * k && remainder > INDEX_SIZE
        decreases remainder
      {
        var full := remainder > config.entrySize - SIZE_SIZE;
        var valueLen := if full then config.entrySize - SIZE_SIZE - INDEX_SIZE else remainder;
        assert full ==> config.multipart && valueLen > |Preamble(config, key)|;
        var nextIndex;
        nextIndex, follow := LinkOn(index, follow, full, a0, v0, h, k, to, done, over);
        ChainBounds(a0, v0, a, view, h, k, to, done);
        ghost var v := view;
        offset := WriteSlot(index, key, value, compressed, offset, full, valueLen, nextIndex, done);
        if !full {
          NeededSlots(config, |to.payload|, k, done, remainder);
        }
        remainder := remainder - valueLen;
        if start == 0 {
          start := index;
        }
        index := nextIndex;
        if remainder == 0 {
          EndChain(index, a0, v0, v, h, k, to, done);
          break;
        }
        PartNext(a0, v0, a, v, h, k, to, done, valueLen, follow);
        k, done := k + 1, done + valueLen;
      }
    }

    /** The slot after `index`: the old chain's where it goes on, else a new one if one is needed, else 0. */
    method LinkOn(index: nat, follow: bool, full: bool, ghost a0: Alloc, ghost v0: View, ghost h: nat, ghost k: nat,
                  ghost to: Record, ghost done: nat, ghost over: bool)
      returns (next: nat, on: bool)
      requires Backed() && filled + 1 < U64 && Progress(a0, v0, a, view, h, k, to, done)
      requires Ahead(view, a.chains[h], k, follow) && index == a.chains[h][k] && (over ==> Grown(a0, a, h, follow))
      modifies this`filled, this`lastRemoved, this`dirtyHeader, this`a
      ensures Backed() && filled <= old(filled) + 1 && Progress(a0, v0, a, view, h, k, to, done)
      ensures h in a.chains && k < |a.chains[h]| && index == a.chains[h][k]
      ensures next == (if |a.chains[h]| > k + 1 then a.chains[h][k + 1] else 0) < U64
      ensures on ==> |a.chains[h]| > k + 1 && Linked(view, a.chains[h][k..])
      ensures !on ==> |a.chains[h]| == if full then k + 2 else k + 1
      ensures over ==> Grown(a0, a, h, on)
    {
      hide LE, UnLE, Sound, FreeLinked, Imaged, HeaderOk, Laid, LaidBut, Kept, Linked, Join, Progress, Spot, Extended;
      ChainBounds(a0, v0, a, view, h, k, to, done);
      next, on := 0, follow;
      if follow {
        AheadHead(view, a.chains[h], k);
        var link := ReadNextPart(index);
        match link {
          case Some(n) => next := n;
          case None => on := false;
        }
      }
      if full && !on {
        ghost var was := a;
        ExtendStep(a0, v0, a, view, h, k, to, done);
        next := NextFree(Some(h));
        assert over ==> Grown(a0, was, h, false);
        ChainBounds(a0, v0, a, view, h, k, to, done);
      }
    }

    /** The last slot is written: what the old chain has beyond it is freed. */
    method EndChain(next: nat, ghost a0: Alloc, ghost v0: View, ghost v: View, ghost h: nat, ghost k: nat,
                    ghost to: Record,
                    ghost done: nat)
      requires Progress(a0, v0, a, v, h, k, to, done) && k < |a.chains[h]|
      requires |a.chains[h]| > k + 1 ==> Linked(v, a.chains[h][k..])
      requires done <= |to.payload|
      requires Backed() && view == v[a.chains[h][k] := NextSlot(to, k == 0, done, |to.payload| - done, false, next)]
      requires next == if |a.chains[h]| > k + 1 then a.chains[h][k + 1] else 0
      modifies this
      ensures Valid() && Contents() == ContentsOf(a0, v0)[h := to] && a.chains.Keys == a0.chains.Keys + {h}
      ensures Grown(a0, old(a), h, old(|a.chains[h]|) > k + 1) ==> Rewritten(a0, a, h)
      ensures |a.chains[h]| == k + 1 && Marked(view, a.chains[h])
    {
      hide Sound, FreeLinked, Imaged, HeaderOk, ContentsOf, Laid, LaidBut, Kept, Linked, RecordOf, Progress, Cut;
      hide Marked, SameOutside;
      ChainBounds(a0, v0, a, v, h, k, to, done);
      LastStep(a0, v0, a, v, h, k, to, done, NextSlot(to, k == 0, done, |to.payload| - done, false, next));
      ghost var c := a.chains[h];
      assert |c| > k + 1 ==> c[..k + 1] + c[k + 1..] == c;
      if next != 0 {
        TailAt(a, h, k + 1);
        a := Cut(a, h, k + 1);
        Finished(a0, v0, a, view, h, {next});
        Weaken(a, view, next);
        HeadNotFree(a, view, next);
        ghost var was := view;
        NoSharedSlot(a, view, h, next);
        ghost var mine, other := a.chains[h], a.chains[next];
        ClearChain(next);
        MarkedOutside(was, view, mine, other);
      } else {
        assert c[..k + 1] == c && c[|c|..] == [] && a.free + [] == a.free;
        Finished(a0, v0, a, view, h, {});
        assert ContentsOf(a, view) - {} == ContentsOf(a, view);
      }
    }

    /** Writes the slot that takes the next `valueLen` bytes of an entry; `end` is how far into the value it reaches. */
    method WriteSlot(index: nat, key: TableKey, value: seq<byte>, compressed: bool, offset: nat, full: bool,
                     valueLen: nat,
                     next: nat, ghost done: nat)
      returns (end: nat)
      requires Backed() && index != 0 && next < U64
      requires done == if offset == 0 then 0 else |Preamble(config, key)| + offset
      requires done + valueLen <= |Preamble(config, key)| + |value|
      requires (offset == 0 ==> valueLen >= |Preamble(config, key)|)
      requires if full then config.multipart && valueLen == config.entrySize - SIZE_SIZE - INDEX_SIZE
        else valueLen <= config.entrySize - SIZE_SIZE
      modifies this`slots, this`view
      ensures Backed() && |Preamble(config, key)| + end == done + valueLen
      ensures view == old(view)[index := NextSlot(Record(compressed, Preamble(config, key) + value), offset == 0, done,
                                                  valueLen, full, next)]
    {
      hide LE, SizeBytes, MarkBytes, Imaged, HeaderOk, Preamble, Encode;
      var buf := SlotStart(full, offset == 0, compressed, valueLen, next);
      ghost var start := buf;
      var initOffset := |buf|;
      if offset == 0 {
        var pre := NewPreamble(key);
        buf := buf + pre;
      }
      var written := |buf| - initOffset;
      end := offset + valueLen - written;
      buf := buf + value[offset..end];
      ghost var pre := Preamble(config, key);
      ghost var x := NextSlot(Record(compressed, pre + value), offset == 0, done, valueLen, full, next);
      EntryBytes(start, pre, value, offset, end);
      SlotStartOf(x, valueLen);
      Store(config, slots, view, index, buf, x);
      slots, view := slots[index := buf], view[index := x];
    }

    method NewPreamble(key: TableKey) returns (pre: seq<byte>)
      ensures pre == Preamble(config, key)
    {
      pre := [];
      if config.refCounted {
        pre := pre + LE(1, 4);
      }
      pre := pre + key.Encoded();
    }

    method WriteInsertPlan(key: TableKey, value: seq<byte>, compressed: bool) returns (index: nat)
      requires Valid()
      requires config.multipart || RefSize(config) + |key.Encoded()| + |value| <= config.entrySize - SIZE_SIZE
      requires filled + RefSize(config) + |key.Encoded()| + |value| + 2 < U64
      modifies this
      ensures Valid() && index != 0 && index !in old(Contents())
      ensures Contents() == old(Contents())[index := Record(compressed, Preamble(config, key) + value)]
    {
      hide LE, UnLE, Linked, FreeLinked, Sound, Imaged, HeaderOk, Preamble, RecordOf;
      index := OverwriteChain(key, value, None, compressed);
      LaidHead(a, view, index);
    }

    method WriteReplacePlan(index: nat, key: TableKey, value: seq<byte>, compressed: bool)
      requires Valid() && index in Contents()
      requires config.multipart || RefSize(config) + |key.Encoded()| + |value| <= config.entrySize - SIZE_SIZE
      requires filled + RefSize(config) + |key.Encoded()| + |value| + 2 < U64
      modifies this
      ensures Valid() && Rewritten(old(a), a, index)
      ensures Contents() == old(Contents())[index := Record(compressed, Preamble(config, key) + value)]
    {
      hide LE, UnLE, Linked, FreeLinked, Sound, Imaged, HeaderOk, Preamble, RecordOf, Rewritten;
      var _ := OverwriteChain(key, value, Some(index), compressed);
    }

    method WriteRemovePlan(index: nat)
      requires Valid() && (index in Contents() || index in a.free)
      modifies this
      ensures index in old(a.free) ==> FreedTwice(index)
      ensures index !in old(a.free) ==> Valid() && Contents() == old(Contents()) - {index}
      ensures index !in old(a.free) ==> a.free == old(a.free + a.chains[index]) && a.chains == old(a.chains) - {index}
    {
      hide LE, UnLE, Linked, FreeLinked, Sound, Imaged, HeaderOk, RecordOf, Laid, LaidBut;
      if config.multipart {
        ClearChain(index);
      } else {
        if index !in a.free {
          LaidHead(a, view, index);
          SingleSlot(config, slots, view, a.chains[index]);
          Weaken(a, view, index);
        }
        ClearSlot(index);
      }
    }

    /** The first slot of an entry, where its count is, and how many bytes the slot takes; nothing of a tombstone. */
    method ReadHead(index: nat) returns (live: bool, buf: seq<byte>, rcOffset: nat, size: nat)
      requires Valid() && (index in Contents() || index in a.free)
      requires index in Contents() ==> |Contents()[index].payload| >= REFS_SIZE
      ensures live <==> index in Contents()
      ensures live ==> index in a.chains && index in view && !view[index].Free? && index != 0
      ensures live ==> view[index].Fits(config)
      ensures live ==> |view[index].Body()| >= 4 && |Join(view, a.chains[index])| >= 4
      ensures live ==> rcOffset + 4 <= size <= |buf| && buf[..size] == Encode(view[index])
      ensures live ==> rcOffset == |Encode(view[index])| - |view[index].Body()|
      ensures live ==> buf[rcOffset..rcOffset + 4] == Contents()[index].payload[..4]
    {
      hide LE, UnLE, Linked, FreeLinked, Sound, Imaged, HeaderOk, Laid, LaidBut, Join, Encode, Slot.Fits;
      hide IsTombstone, IsMulti, SizeField, NextField, CompressedField, ContentsOf;
      ContentsKeys(a, view);
      if index in a.chains {
        LaidHead(a, view, index);
      }
      SlotAt(a, view, index, 0);
      Image(config, slots, view, index);
      ghost var x, full := view[index], [];
      buf, full := ReadSlot(index, config.entrySize);
      ReadsAs(config, x, full);
      PrefixReads(full, config.entrySize);
      live, rcOffset, size := !IsTombstone(buf), 0, 0;
      if !live {
        return;
      }
      BodyAt(config, x, full);
      var multi := config.multipart && IsMulti(buf);
      size := if multi then config.entrySize else SIZE_SIZE + SizeField(buf);
      rcOffset := if multi then SIZE_SIZE + INDEX_SIZE else SIZE_SIZE;
      HeadBytes(config, view, a.chains[index], 4);
      CountBytes(full, config.entrySize, rcOffset, |Encode(x)|, x.Body());
    }

    /**
     * Adds `delta` to the count of an entry; false, and nothing changed, where the count would drop to 0 and for a
     * tombstone.
     */
    method ChangeRef(index: nat, delta: int) returns (alive: bool)
      requires Valid() && config.refCounted && (index in Contents() || index in a.free)
      requires index in Contents() ==> |Contents()[index].payload| >= REFS_SIZE
      modifies this`slots, this`view
      ensures Valid()
      ensures index !in old(Contents()) ==> !alive && Contents() == old(Contents()) && slots == old(slots)
      ensures index !in old(Contents()) ==> view == old(view)
      ensures index in old(Contents()) ==> (alive <==> Counted(old(Contents()[index].payload), delta).Some?)
      ensures index in old(Contents()) ==> Contents() == match Counted(old(Contents()[index].payload), delta)
        case Some(p) => old(Contents())[index := old(Contents()[index]).(payload := p)]
        case None => old(Contents())
    {
      hide LE, UnLE, Linked, FreeLinked, Sound, Imaged, HeaderOk, Laid, LaidBut, Encode, Slot.Fits, Join, Recounted;
      hide Slot.Body, ContentsOf;
      var live, buf, rcOffset, size := ReadHead(index);
      if !live {
        return false;
      }
      ghost var x := view[index];
      var counter := UnLE(buf[rcOffset..rcOffset + 4]);
      if delta > 0 {
        if counter >= LOCKED_REF - delta {
          counter := LOCKED_REF;
        } else {
          counter := counter + delta;
        }
      } else if counter != LOCKED_REF {
        counter := if counter >= -delta then counter + delta else 0;
        if counter == 0 {
          return false;
        }
      }
      buf := buf[..rcOffset] + LE(counter, 4) + buf[rcOffset + 4..size];
      RecountLaid(a, view, index, LE(counter, 4));
      RecountBytes(x, Encode(x), rcOffset, LE(counter, 4));
      RecountFits(config, x, LE(counter, 4));
      Store(config, slots, view, index, buf, Recounted(x, LE(counter, 4)));
      slots := slots[index := buf];
      view := view[index := Recounted(x, LE(counter, 4))];
      alive := true;
    }

    /** One reference more; nothing happens to a tombstone. */
    method WriteIncRef(index: nat)
      requires Valid() && config.refCounted && (index in Contents() || index in a.free)
      requires index in Contents() ==> |Contents()[index].payload| >= REFS_SIZE
      modifies this`slots, this`view
      ensures Valid()
      ensures Contents() == if index in old(Contents()) then Recount(old(Contents()), index, 1) else old(Contents())
    {
      hide LE, UnLE, ContentsOf, Laid, Imaged, HeaderOk, RecordOf, ValueTable.Backed;
      var _ := ChangeRef(index, 1);
    }

    /**
     * Takes a reference off; the entry is removed, and false returned, with its last one. A tombstone is taken for one
     * and freed again.
     */
    method WriteDecRef(index: nat) returns (alive: bool)
      requires Valid() && config.refCounted && (index in Contents() || index in a.free)
      requires index in Contents() ==> |Contents()[index].payload| >= REFS_SIZE
      modifies this
      ensures index in old(Contents()) ==>
        Valid() && Contents() == Recount(old(Contents()), index, -1) && (alive <==> index in Contents())
      ensures index !in old(Contents()) ==> !alive && FreedTwice(index)
    {
      hide LE, UnLE, ContentsOf, Laid, Imaged, HeaderOk, RecordOf, ValueTable.Backed;
      ContentsKeys(a, view);
      if index in a.chains {
        Weaken(a, view, index);
        HeadNotFree(a, view, index);
      }
      alive := ChangeRef(index, -1);
      if !alive {
        WriteRemovePlan(index);
      }
    }

    /** One slot as a query reads it. */
    method ReadPart(at: nat) returns (tombstone: bool, body: seq<byte>, next: nat, compressed: bool)
      requires Backed() && at in view
      ensures tombstone == view[at].Free?
      ensures !tombstone ==> body == view[at].Body() && compressed == view[at].IsCompressed()
      ensures !tombstone ==> next == if view[at].Part? then view[at].next else 0
    {
      hide LE, UnLE, Imaged, HeaderOk, Encode, Slot.Fits, IsTombstone, IsMulti, SizeField, NextField, CompressedField;
      Image(config, slots, view, at);
      var buf, full := ReadSlot(at, config.entrySize);
      ReadsAs(config, view[at], full);
      PrefixReads(full, config.entrySize);
      assert buf[..2] == full[..2];
      tombstone, body, next, compressed := IsTombstone(buf), [], 0, false;
      if tombstone {
        return;
      }
      BodyAt(config, view[at], full);
      if config.multipart && IsMulti(buf) {
        compressed := buf[..2] == MULTIHEAD_COMPRESSED;
        next := NextField(buf);
        body := buf[SIZE_SIZE + INDEX_SIZE..config.entrySize];
      } else {
        compressed := CompressedField(buf);
        body := buf[SIZE_SIZE..SIZE_SIZE + SizeField(buf)];
      }
    }

    /**
     * The count, the key and the first value bytes in the first part of an entry; whether the key is the one sought.
     */
    method ReadFirst(q: KeyQuery, body: seq<byte>, ghost rec: Record)
      returns (same: bool, rc: nat, partial: seq<byte>, value: seq<byte>)
      requires RefSize(config) + q.Skips() <= |body| && body <= rec.payload
      ensures if same then QueryRead(config, q, rec, body, Found(value, rec.compressed, rc, partial))
        else Answer(config, q, rec) == None
    {
      hide QueryRead, Answer, UnLE;
      var start := 0;
      same, rc, partial, value := true, 1, [], [];
      if config.refCounted {
        rc := UnLE(body[..4]);
        start := 4;
      }
      match q {
        case Check(Partial(k)) =>
          partial := body[start..start + PARTIAL_SIZE];
          start := start + PARTIAL_SIZE;
          if k[6..] != partial {
            QueryMismatch(config, q, rec, body);
            same := false;
            return;
          }
        case FetchPartial =>
          partial := body[start..start + PARTIAL_SIZE];
          start := start + PARTIAL_SIZE;
        case _ =>
      }
      assert q.Skips() == 0 ==> body[start..start] == [];
      value := body[start..];
      QueryFirst(config, q, rec, body);
    }

    /**
     * Follows a chain from `index` on, checking or fetching the partial key in the first slot read. Any slot can be
     * asked for: one in the middle of a chain answers as if the entry started there, a free one does not answer.
     */
    method Query(q: KeyQuery, index: nat) returns (r: Option<Found>)
      requires Valid() && 1 <= index < filled
      requires Onward(a, index) != [] ==> |Join(view, Onward(a, index))| >= RefSize(config) + q.Skips()
      ensures r == if Onward(a, index) == [] then None else Answer(config, q, RecordOf(view, Onward(a, index)))
      ensures index in Contents() ==> Onward(a, index) != [] && RecordOf(view, Onward(a, index)) == Contents()[index]
      ensures Onward(a, index) == [] <==> index in a.free
    {
      hide LE, UnLE, Linked, FreeLinked, Sound, Imaged, HeaderOk, Laid, LaidBut, Join, Slot.Fits, Slot.Body;
      hide Slot.IsCompressed;
      hide QueryRead, Answer, ContentsOf, CountOf, Onward;
      ContentsKeys(a, view);
      OnwardFacts(a, view, index);
      ghost var live := Onward(a, index) != [];
      ghost var chain := if live then Onward(a, index) else [index];
      ghost var rec := if live then RecordOf(view, chain) else Record(false, []);
      var at, part, result, rc, compressed := index, 0, [], 1, false;
      var partial: seq<byte> := [];
      while true
        invariant part < |chain| && at == chain[part] && (!live ==> part == 0)
        invariant part > 0 ==>
          QueryRead(config, q, rec, Join(view, chain[..part]), Found(result, compressed, rc, partial))
        decreases |chain| - part
      {
        if live {
          PartAt(a, view, index, part);
        }
        var tombstone, body, next, comp := ReadPart(at);
        if tombstone {
          return None;
        }
        JoinStep(view, chain, part);
        if part == 0 {
          FirstPart(config, slots, view, chain, RefSize(config) + q.Skips());
          compressed := comp;
          assert [] + body == body == Join(view, chain[..1]);
          var same;
          same, rc, partial, result := ReadFirst(q, body, rec);
          if !same {
            return None;
          }
        } else {
          QueryMore(config, q, rec, Join(view, chain[..part]), body, Found(result, compressed, rc, partial));
          result := result + body;
        }
        if next == 0 {
          break;
        }
        at, part := next, part + 1;
      }
      assert chain[..part + 1] == chain;
      QueryEnd(config, q, rec, Found(result, compressed, rc, partial));
      r := if rc > 0 then Some(Found(result, compressed, rc, partial)) else None;
    }

    /** At the end of a log record: the header slot is written if the fields have changed. */
    method CompletePlan()
      requires Valid()
      modifies this`slots, this`dirtyHeader
      ensures Valid() && !dirtyHeader && Contents() == old(Contents())
      ensures forall s :: s != 0 && s in old(slots) ==> s in slots && slots[s] == old(slots[s])
    {
      hide LE, Laid, ContentsOf;
      if dirtyHeader {
        dirtyHeader := false;
        slots := slots[0 := HeaderBytes(lastRemoved, filled)];
      }
    }

    /** Loads the fields from the header slot, if there is one; a fresh header counts as one slot filled. */
    method RefreshMetadata()
      requires 0 in slots ==> |slots[0]| == 16
      modifies this`filled, this`lastRemoved
      ensures forall l: nat, f: nat :: 0 in slots && l < U64 && f < U64 && slots[0] == HeaderBytes(l, f) ==>
        lastRemoved == l && filled == if f == 0 then 1 else f
      ensures old(Valid()) && !dirtyHeader ==> Valid() && filled == old(filled) && lastRemoved == old(lastRemoved)
    {
      hide LE, UnLE, Laid, Imaged, Top;
      if 0 !in slots {
        return;
      }
      ghost var l0, f0 := lastRemoved, filled;
      forall l: nat, f: nat | l < U64 && f < U64
        ensures UnLE(HeaderBytes(l, f)[..8]) == l && UnLE(HeaderBytes(l, f)[8..]) == f
      {
        HeaderFields(l, f);
      }
      assert Valid() ==> lastRemoved < U64 && filled >= 1 by { if Valid() { TopOk(); } }
      var last, fill := UnLE(slots[0][..8]), UnLE(slots[0][8..]);
      lastRemoved := last;
      filled := if fill == 0 then 1 else fill;
      assert old(Valid()) && !dirtyHeader ==> lastRemoved == l0 && filled == f0;
    }

    lemma TopOk()
      requires Valid()
      ensures lastRemoved < U64 && filled >= 1
    {
      TopSmall(a);
    }
  }

  /** What a query has collected from the first bytes of a record, its count, key and flag included. */
  ghost predicate QueryRead(c: Config, q: KeyQuery, rec: Record, read: seq<byte>, f: Found) {
    var start := RefSize(c) + q.Skips();
    && start <= |read| && read <= rec.payload
    && f == Found(read[start..], rec.compressed, CountOf(c, rec.payload), rec.payload[RefSize(c)..start])
    && (q.Check? && q.key.Partial? ==> f.partial == q.key.Encoded())
  }

  lemma QueryFirst(c: Config, q: KeyQuery, rec: Record, body: seq<byte>)
    requires RefSize(c) + q.Skips() <= |body| && body <= rec.payload
    requires q.Check? && q.key.Partial? ==> body[RefSize(c)..RefSize(c) + PARTIAL_SIZE] == q.key.Encoded()
    ensures QueryRead(c, q, rec, body, Found(body[RefSize(c) + q.Skips()..], rec.compressed,
                                            if c.refCounted then UnLE(body[..4]) else 1,
                                            body[RefSize(c)..RefSize(c) + q.Skips()]))
  {
    var start := RefSize(c) + q.Skips();
    assert body[RefSize(c)..start] == rec.payload[RefSize(c)..start];
    if c.refCounted {
      assert body[..4] == rec.payload[..4];
    }
  }

  lemma QueryMismatch(c: Config, q: KeyQuery, rec: Record, body: seq<byte>)
    requires RefSize(c) + q.Skips() <= |body| && body <= rec.payload
    requires q.Check? && q.key.Partial? && body[RefSize(c)..RefSize(c) + PARTIAL_SIZE] != q.key.Encoded()
    ensures Answer(c, q, rec) == None
  {
    var start := RefSize(c) + q.Skips();
    assert body[RefSize(c)..start] == rec.payload[RefSize(c)..start];
  }

  lemma QueryMore(c: Config, q: KeyQuery, rec: Record, read: seq<byte>, body: seq<byte>, f: Found)
    requires QueryRead(c, q, rec, read, f) && read + body <= rec.payload
    ensures QueryRead(c, q, rec, read + body, f.(value := f.value + body))
  {
    var start := RefSize(c) + q.Skips();
    assert (read + body)[start..] == read[start..] + body;
  }

  lemma QueryEnd(c: Config, q: KeyQuery, rec: Record, f: Found)
    requires QueryRead(c, q, rec, rec.payload, f)
    ensures Answer(c, q, rec) == if f.rc > 0 then Some(f) else None
  {
  }

  lemma ContentsKeys(a: Alloc, v: View)
    ensures forall h :: h in ContentsOf(a, v) <==> h in a.chains
    ensures forall h :: h in a.chains ==> ContentsOf(a, v)[h] == RecordOf(v, a.chains[h])
  {
  }

  /** What is at position `k` of the chain at `h`, and at a free slot. */
  lemma SlotAt(a: Alloc, v: View, h: nat, k: nat)
    requires Laid(a, v) && (if h in a.chains then k < |a.chains[h]| else h in a.free)
    ensures h !in a.chains ==> h in v && v[h].Free?
    ensures h in a.chains ==> a.chains[h][0] == h
    ensures h in a.chains ==> a.chains[h][k] in v && !v[a.chains[h][k]].Free?
    ensures h in a.chains ==> (v[a.chains[h][k]].Last? <==> k + 1 == |a.chains[h]|)
    ensures h in a.chains && k + 1 < |a.chains[h]| ==> v[a.chains[h][k]].next == a.chains[h][k + 1] != 0
  {
    if h in a.chains {
      LaidHead(a, v, h);
      assert LinkedAt(v, a.chains[h], k);
      if k + 1 < |a.chains[h]| {
        assert UsedAt(a, h, k + 1);
      }
    }
  }

  /** The slots of a chain from this one on; none of a free slot. */
  ghost function Onward(a: Alloc, index: nat): seq<nat> {
    if index in a.place && a.place[index].Used? && a.place[index].head in a.chains &&
       a.place[index].at <= |a.chains[a.place[index].head]|
    then a.chains[a.place[index].head][a.place[index].at..]
    else []
  }

  lemma OnwardFacts(a: Alloc, v: View, index: nat)
    requires Laid(a, v) && 1 <= index < a.filled
    ensures Onward(a, index) == [] <==> index in a.free
    ensures Onward(a, index) == [] ==> index in v && v[index].Free?
    ensures Onward(a, index) != [] ==> Onward(a, index)[0] == index && Linked(v, Onward(a, index))
    ensures index in a.chains ==> Onward(a, index) == a.chains[index] != []
  {
    hide Linked;
    assert InPlace(a, index);
    if index in a.free {
      var i :| 0 <= i < |a.free| && a.free[i] == index;
      assert FreeAt(a, i);
    } else {
      var h, i := a.place[index].head, a.place[index].at;
      LaidHead(a, v, h);
      SuffixLinked(v, a.chains[h], i);
    }
    if index in a.chains {
      assert UsedAt(a, index, 0);
    }
  }

  lemma SuffixLinked(v: View, c: seq<nat>, i: nat)
    requires Linked(v, c) && i <= |c|
    ensures Linked(v, c[i..])
  {
    var d := c[i..];
    forall k | 0 <= k < |d|
      ensures LinkedAt(v, d, k)
    {
      assert LinkedAt(v, c, i + k);
    }
  }

  /** What is at position `k` from a slot on. */
  lemma PartAt(a: Alloc, v: View, index: nat, k: nat)
    requires Laid(a, v) && 1 <= index < a.filled && k < |Onward(a, index)|
    ensures var c := Onward(a, index);
      && c[k] in v && !v[c[k]].Free? && (v[c[k]].Last? <==> k + 1 == |c|)
      && (k + 1 < |c| ==> v[c[k]].next == c[k + 1] != 0)
  {
    hide Linked;
    assert InPlace(a, index);
    SlotAt(a, v, a.place[index].head, a.place[index].at + k);
  }

  lemma FirstPart(c: Config, slots: map<nat, seq<byte>>, v: View, chain: seq<nat>, n: nat)
    requires c.Valid() && Imaged(c, slots, v) && Linked(v, chain) && chain != []
    requires n <= REFS_SIZE + PARTIAL_SIZE && |Join(v, chain)| >= n
    ensures chain[0] in v && n <= |v[chain[0]].Body()| && RecordOf(v, chain).compressed == v[chain[0]].IsCompressed()
    ensures Join(v, chain[..0]) == []
  {
    hide Linked;
    LinkedHead(v, chain);
    HeadBytes(c, v, chain, n);
  }

  lemma {:induction false} JoinPrefix(v: View, chain: seq<nat>, k: nat)
    requires k <= |chain|
    ensures Join(v, chain[..k]) <= Join(v, chain)
  {
    if k == |chain| {
      assert chain[..k] == chain;
    } else {
      var d := chain[..|chain| - 1];
      JoinPrefix(v, d, k);
      assert d[..k] == chain[..k];
    }
  }

  lemma JoinStep(v: View, chain: seq<nat>, k: nat)
    requires k < |chain| && chain[k] in v
    ensures Join(v, chain[..k + 1]) == Join(v, chain[..k]) + v[chain[k]].Body() <= Join(v, chain)
  {
    JoinPrefix(v, chain, k + 1);
    assert chain[..k + 1][..k] == chain[..k];
  }

  /** What the table holds after the count of an entry has changed. */
  ghost function Recount(m: map<nat, Record>, index: nat, delta: int): map<nat, Record>
    requires index in m && |m[index].payload| >= REFS_SIZE
  {
    match Counted(m[index].payload, delta)
    case Some(p) => m[index := m[index].(payload := p)]
    case None => m - {index}
  }

  /** The marker or the size that starts a slot, with the link that follows a marker. */
  function SlotStart(full: bool, first: bool, compressed: bool, size: nat, next: nat): seq<byte> {
    if full then MarkBytes(MarkFor(first, compressed)) + LE(next, 8) else SizeBytes(size, compressed)
  }

  /** The slot that takes `size` bytes of a record from `done` on. */
  ghost function NextSlot(to: Record, first: bool, done: nat, size: nat, full: bool, next: nat): (x: Slot)
    requires done + size <= |to.payload|
    ensures x.Body() == to.payload[done..done + size]
  {
    var body := to.payload[done..done + size];
    if full then Part(MarkFor(first, to.compressed), next, body) else Last(to.compressed, body)
  }

  lemma PartNext(a0: Alloc, v0: View, a: Alloc, v: View, h: nat, k: nat, to: Record, done: nat, size: nat, follow: bool)
    requires Progress(a0, v0, a, v, h, k, to, done) && k + 1 < |a.chains[h]| && done + size <= |to.payload|
    requires if follow then Linked(v, a.chains[h][k..]) else |a.chains[h]| == k + 2
    ensures var w := v[a.chains[h][k] := NextSlot(to, k == 0, done, size, true, a.chains[h][k + 1])];
      Progress(a0, v0, a, w, h, k + 1, to, done + size) && Ahead(w, a.chains[h], k + 1, follow)
  {
    hide Linked, Ahead;
    var x := NextSlot(to, k == 0, done, size, true, a.chains[h][k + 1]);
    PartStep(a0, v0, a, v, h, k, to, done, x, follow);
  }

  lemma SlotStartOf(x: Slot, size: nat)
    requires !x.Free? && |x.Body()| == size
    ensures x.Part? ==> Encode(x) == MarkBytes(x.mark) + LE(x.next, 8) + x.Body()
    ensures x.Last? ==> Encode(x) == SizeBytes(size, x.compressed) + x.Body()
  {
  }

  lemma EntryBytes(start: seq<byte>, pre: seq<byte>, value: seq<byte>, offset: nat, end: nat)
    requires offset <= end <= |value|
    ensures offset == 0 ==> start + pre + value[offset..end] == start + (pre + value)[..|pre| + end]
    ensures start + value[offset..end] == start + (pre + value)[|pre| + offset..|pre| + end]
  {
  }

  lemma StartGrown(a: Alloc, h: nat)
    requires h in a.chains
    ensures Grown(a, a, h, true)
  {
  }

  lemma TailAt(a: Alloc, h: nat, k: nat)
    requires h in a.chains && 0 < k < |a.chains[h]|
    ensures a.chains[h][k] in Cut(a, h, k).chains && Cut(a, h, k).chains[a.chains[h][k]] == a.chains[h][k..]
  {
  }

  // Counts.

  lemma CountBytes(full: seq<byte>, n: nat, off: nat, end: nat, body: seq<byte>)
    requires off + |body| == end <= n <= |full| && |body| >= 4 && full[off..end] == body
    ensures full[..n][off..off + 4] == body[..4]
  {
    assert full[..n][off..off + 4] == full[off..end][..4];
  }

  /** A slot with the first four bytes of its body replaced. */
  ghost function Recounted(x: Slot, rc: seq<byte>): (r: Slot)
    requires !x.Free? && |x.Body()| >= |rc| == 4
    ensures r.Body() == rc + x.Body()[4..] && r.IsCompressed() == x.IsCompressed() && |r.Body()| == |x.Body()|
  {
    match x
    case Part(m, n, b) => Part(m, n, rc + b[4..])
    case Last(c, b) => Last(c, rc + b[4..])
  }

  lemma HeadNotFree(a: Alloc, v: View, h: nat)
    requires LaidBut(a, v, h) && h in a.chains
    ensures h !in a.free
  {
    assert UsedAt(a, h, 0);
    forall i | 0 <= i < |a.free|
      ensures a.free[i] != h
    {
      assert FreeAt(a, i);
    }
  }

  lemma FreeSlotAt(a: Alloc, v: View, index: nat)
    requires Laid(a, v) && index in a.free
    ensures index in v && v[index].Free?
  {
    hide Linked;
    var i :| 0 <= i < |a.free| && a.free[i] == index;
  }

  /** The free slot reached from another one over this many links. */
  ghost function Follow(v: View, at: nat, n: nat): nat {
    if n == 0 then at
    else
      var b := Follow(v, at, n - 1);
      if b in v && v[b].Free? then v[b].next else 0
  }

  /** A slot freed twice leads back to itself: the free list has become a circle, and never runs out. */
  lemma FreeListLoops(a: Alloc, v: View, index: nat) returns (n: nat)
    requires Laid(a, v) && index in a.free
    ensures n > 0 && Follow(v[index := Free(Top(a.free))], index, n) == index
  {
    hide Linked;
    var w, m := v[index := Free(Top(a.free))], |a.free|;
    var j :| 0 <= j < m && a.free[j] == index;
    n := m - j;
    LoopStep(a, v, index, j, n);
  }

  lemma {:induction false} LoopStep(a: Alloc, v: View, index: nat, j: nat, n: nat)
    requires Laid(a, v) && j < |a.free| && a.free[j] == index && 0 < n <= |a.free| - j
    ensures Follow(v[index := Free(Top(a.free))], index, n) == a.free[|a.free| - n]
  {
    hide Linked;
    var w, m := v[index := Free(Top(a.free))], |a.free|;
    if n == 1 {
      assert Follow(w, index, 0) == index;
    } else {
      LoopStep(a, v, index, j, n - 1);
      var i := m - (n - 1);
      FreeDistinct(a, i, j);
      assert v[a.free[i]] == Free(Top(a.free[..i]));
    }
  }

  lemma FreeDistinct(a: Alloc, i: nat, j: nat)
    requires Sound(a) && i < |a.free| && j < |a.free| && i != j
    ensures a.free[i] != a.free[j]
  {
    assert FreeAt(a, i) && FreeAt(a, j);
  }

  lemma NoSharedSlot(a: Alloc, v: View, h: nat, g: nat)
    requires Laid(a, v) && h in a.chains && g in a.chains && h != g
    ensures forall s :: s in a.chains[h] ==> s !in a.chains[g]
  {
    hide Linked;
    forall i, j | 0 <= i < |a.chains[h]| && 0 <= j < |a.chains[g]|
      ensures a.chains[h][i] != a.chains[g][j]
    {
      Disjoint(a, h, i, g, j);
    }
  }

  lemma OutsideSelf(v: View, chain: seq<nat>)
    ensures SameOutside(v, v, chain)
  {
  }

  lemma OutsideMore(v: View, w: View, chain: seq<nat>, at: nat, x: Slot)
    requires SameOutside(v, w, chain) && at in chain
    ensures SameOutside(v, w[at := x], chain)
  {
  }

  /** How many slots an entry of this length takes: as few as it fits. All but the last are full, of 4086 bytes. */
  ghost predicate SlotsNeeded(c: Config, length: nat, n: nat) {
    if n == 1 then length <= c.entrySize - 2
    else n > 1 && c.multipart && 4086 * (n - 2) + 4094 < length <= 4086 * (n - 1) + 4094
  }

  lemma NeededSlots(c: Config, length: nat, k: nat, done: nat, remainder: nat)
    requires c.Valid() && length == done + remainder && remainder <= c.entrySize - SIZE_SIZE
    requires k == 0 ==> done == 0
    requires k > 0 ==> c.multipart && done == 4086 * k && remainder > INDEX_SIZE
    ensures SlotsNeeded(c, length, k + 1)
  {
  }

  lemma RecountFits(c: Config, x: Slot, rc: seq<byte>)
    requires !x.Free? && |x.Body()| >= |rc| == 4 && x.Fits(c)
    ensures Recounted(x, rc).Fits(c)
  {
  }

  lemma RecountBytes(x: Slot, b: seq<byte>, off: nat, rc: seq<byte>)
    requires !x.Free? && |x.Body()| >= |rc| == 4 && b == Encode(x) && off == |b| - |x.Body()|
    ensures b[..off] + rc + b[off + 4..] == Encode(Recounted(x, rc))
  {
    hide LE, SizeBytes, MarkBytes;
    var start := if x.Part? then MarkBytes(x.mark) + LE(x.next, 8) else SizeBytes(|x.last|, x.compressed);
    assert b == start + x.Body() && |start| == off;
    assert b[..off] == start && b[off + 4..] == x.Body()[4..];
    assert start + rc + x.Body()[4..] == start + (rc + x.Body()[4..]);
  }

  lemma {:induction false} JoinHead(v: View, chain: seq<nat>)
    requires chain != [] && chain[0] in v
    ensures Join(v, chain) == v[chain[0]].Body() + Join(v, chain[1..])
  {
    hide Slot.Body;
    var n := |chain| - 1;
    if n == 0 {
      assert chain[..0] == [] == chain[1..];
    } else {
      JoinHead(v, chain[..n]);
      assert chain[..n][1..] == chain[1..][..n - 1] && chain[1..][n - 1] == chain[n];
    }
  }

  /** The first slot of a chain holds the first bytes of its record, at least the count and the key. */
  lemma HeadBytes(c: Config, v: View, chain: seq<nat>, n: nat)
    requires c.Valid() && Linked(v, chain) && chain != [] && chain[0] in v && v[chain[0]].Fits(c)
    requires n <= REFS_SIZE + PARTIAL_SIZE && |Join(v, chain)| >= n
    ensures n <= |v[chain[0]].Body()| <= |Join(v, chain)| && Join(v, chain)[..n] == v[chain[0]].Body()[..n]
    ensures Join(v, chain) == v[chain[0]].Body() + Join(v, chain[1..])
  {
    assert LinkedAt(v, chain, 0);
    JoinHead(v, chain);
    if |chain| == 1 {
      assert chain[1..] == [];
    }
  }

  lemma BodyAt(c: Config, x: Slot, full: seq<byte>)
    requires c.Valid() && x.Fits(c) && Encode(x) <= full && !x.Free?
    ensures var off := if x.Part? then 10 else 2;
      off + |x.Body()| == |Encode(x)| <= c.entrySize && |Encode(x)| <= |full| && full[off..|Encode(x)|] == x.Body()
      && full[..|Encode(x)|] == Encode(x)
  {
    hide LE, UnLE;
    ReadsAs(c, x, full);
  }

  /** The count of entry `h` is overwritten: only that record changes, and only in its first four bytes. */
  lemma RecountLaid(a: Alloc, v: View, h: nat, rc: seq<byte>)
    requires Laid(a, v) && h in a.chains && h in v && !v[h].Free? && |v[h].Body()| >= |rc| == 4
    requires |Join(v, a.chains[h])| >= 4
    ensures var w, r := v[h := Recounted(v[h], rc)], ContentsOf(a, v)[h];
      |r.payload| >= 4 && Laid(a, w) && ContentsOf(a, w) == ContentsOf(a, v)[h := r.(payload := rc + r.payload[4..])]
  {
    hide Sound, FreeLinked, Linked, LaidBut, ContentsOf, Kept, Join;
    var c, w := a.chains[h], v[h := Recounted(v[h], rc)];
    LaidHead(a, v, h);
    Weaken(a, v, h);
    WriteLaid(a, v, h, 0, Recounted(v[h], rc));
    SoundOf(a, v, h);
    ChainDistinct(a, h, 0);
    RecountLinked(v, c, rc);
    Whole(a, w, h);
    KeptContents(a, v, a, w, h);
    JoinHead(v, c);
    JoinHead(w, c);
    JoinAgree(v, w, c[1..]);
    var b := v[h].Body();
    assert (rc + b[4..]) + Join(v, c[1..]) == rc + (b + Join(v, c[1..]))[4..];
    ContentsAt(a, v, h);
  }

  lemma ContentsAt(a: Alloc, v: View, h: nat)
    requires h in a.chains
    ensures h in ContentsOf(a, v) && ContentsOf(a, v)[h] == RecordOf(v, a.chains[h])
  {
  }

  lemma RecountLinked(v: View, c: seq<nat>, rc: seq<byte>)
    requires c != [] && Linked(v, c) && c[0] in v && !v[c[0]].Free? && |v[c[0]].Body()| >= |rc| == 4
    requires forall i :: 0 < i < |c| ==> c[i] != c[0]
    ensures Linked(v[c[0] := Recounted(v[c[0]], rc)], c)
  {
    var w := v[c[0] := Recounted(v[c[0]], rc)];
    forall i | 0 <= i < |c|
      ensures LinkedAt(w, c, i)
    {
      assert LinkedAt(v, c, i);
    }
  }

  /** Without multipart entries every chain is a single slot. */
  lemma SingleSlot(c: Config, slots: map<nat, seq<byte>>, v: View, chain: seq<nat>)
    requires Imaged(c, slots, v) && !c.multipart && Linked(v, chain) && chain != []
    ensures |chain| == 1
  {
    assert LinkedAt(v, chain, 0);
  }

  lemma PrefixReads(full: seq<byte>, n: nat)
    requires 2 <= n <= |full|
    ensures IsTombstone(full[..n]) == IsTombstone(full) && IsMulti(full[..n]) == IsMulti(full)
    ensures SizeField(full[..n]) == SizeField(full) && CompressedField(full[..n]) == CompressedField(full)
    ensures n >= 10 ==> NextField(full[..n]) == NextField(full)
  {
    assert full[..n][..2] == full[..2];
    if n >= 10 {
      assert full[..n][2..10] == full[2..10];
    }
  }

  lemma TopSmall(a: Alloc)
    requires Sound(a)
    ensures Top(a.free) < a.filled
  {
    if a.free != [] {
      assert FreeAt(a, |a.free| - 1);
    }
  }

  lemma LaidHead(a: Alloc, v: View, h: nat)
    requires Laid(a, v) && h in a.chains
    ensures a.chains[h] != [] && a.chains[h][0] == h && h != 0 && Linked(v, a.chains[h])
  {
    ZeroIsNoHead(a);
  }

  lemma LinkedHead(v: View, c: seq<nat>)
    requires c != [] && Linked(v, c)
    ensures c[0] in v && !v[c[0]].Free?
    ensures v[c[0]].Part? <==> |c| > 1
    ensures v[c[0]].Part? ==> v[c[0]].next == c[1]
  {
    assert LinkedAt(v, c, 0);
  }

  lemma Weaken(a: Alloc, v: View, h: nat)
    requires Laid(a, v)
    ensures LaidBut(a, v, h)
  {
    ZeroIsNoHead(a);
  }

  lemma TailOf(v: View, c: seq<nat>)
    requires |c| > 1 && Linked(v, c)
    ensures Linked(v, c[1..])
  {
    var d := c[1..];
    forall i | 0 <= i < |d|
      ensures LinkedAt(v, d, i)
    {
      assert LinkedAt(v, c, i + 1);
    }
  }

  /** Cutting a chain adds the record of its tail and changes only the record of its head. */
  lemma CutContents(a: Alloc, v: View, h: nat, k: nat)
    requires Sound(a) && h in a.chains && 0 < k < |a.chains[h]|
    ensures a.chains[h][k] !in a.chains && a.chains[h][k] != h
    ensures Cut(a, h, k).chains - {h} - {a.chains[h][k]} == a.chains - {h}
    ensures ContentsOf(Cut(a, h, k), v) - {h} - {a.chains[h][k]} == ContentsOf(a, v) - {h}
  {
    hide RecordOf, Sound;
    CutSound(a, h, k);
  }
}
