/** The stored form of B-tree nodes. */
module NodeCodec {
  import opened Keys
  import opened Bytes
  import opened Trees

  /** Key lengths below 255 take one byte; others a marker byte and four bytes. */
  function KeyHeader(size: nat): seq<byte> {
    if size >= 255 then [255 as byte] + LE(size, 4) else [size as byte]
  }

  function EncodeSep(s: SepRec): seq<byte> {
    LE(s.at, 8) + KeyHeader(|s.key|) + s.key
  }

  function EncodeChild(c: Option<Address>): seq<byte> {
    LE(if c.Some? then c.value else 0, 8)
  }

  /** child, separator, child, separator, ..., child */
  function Encode(seps: seq<SepRec>, kids: seq<Option<Address>>): seq<byte>
    requires |kids| == |seps| + 1
  {
    EncodeChild(kids[0]) + (if seps == [] then [] else EncodeSep(seps[0]) + Encode(seps[1..], kids[1..]))
  }

  /** What the code can store: addresses and key lengths fit their fields, and no address is 0. */
  predicate Encodable(seps: seq<SepRec>, kids: seq<Option<Address>>) {
    && (forall i :: 0 <= i < |seps| ==> 0 < seps[i].at < U64 && |seps[i].key| < U32)
    && (forall i :: 0 <= i < |kids| ==> kids[i].Some? ==> 0 < kids[i].value < U64)
  }

  function ReadChild(b: seq<byte>): Option<Got<Option<Address>>> {
    if |b| < 8 then None
    else
      var n := UnLE(b[..8]);
      Some(Got(if n == 0 then None else Some(n), b[8..]))
  }

  /** The size of the key whose header starts `b`. */
  function ReadKeySize(b: seq<byte>): Option<Got<nat>> {
    if b == [] then None
    else if b[0] != 255 then Some(Got(b[0] as nat, b[1..]))
    else if |b| < 5 then None
    else Some(Got(UnLE(b[1..5]), b[5..]))
  }

  /** A separator; an absent one where its value address is 0. */
  function ReadSep(b: seq<byte>): Option<Got<Option<SepRec>>> {
    if |b| < 8 then None
    else
      var at := UnLE(b[..8]);
      match ReadKeySize(b[8..])
      case None => None
      case Some(size) =>
        match Take(size.rest, size.value)
        case None => None
        case Some(key) => Some(Got(if at == 0 then None else Some(SepRec(key.value, at)), key.rest))
  }

  /** The node that starts `b`, with at most `room` separators; `None` where reading runs past the end. */
  function Decode(b: seq<byte>, room: nat): (r: Option<Blob>)
    ensures r.Some? ==> r.value.NodeBlob? && |r.value.kids| == |r.value.seps| + 1 <= room + 1
    decreases room
  {
    match ReadChild(b)
    case None => None
    case Some(child) =>
      if room == 0 || child.rest == [] then Some(NodeBlob([], [child.value]))
      else
        match ReadSep(child.rest)
        case None => None
        case Some(sep) =>
          if sep.value.None? then Some(NodeBlob([], [child.value]))
          else
            match Decode(sep.rest, room - 1)
            case Some(NodeBlob(seps, kids)) => Some(NodeBlob([sep.value.value] + seps, [child.value] + kids))
            case _ => None
  }

  lemma ReadChildOf(c: Option<Address>, rest: seq<byte>)
    requires c.Some? ==> 0 < c.value < U64
    ensures ReadChild(EncodeChild(c) + rest) == Some(Got(c, rest))
  {
    var b := EncodeChild(c) + rest;
    Widths();
    UnLEofLE(if c.Some? then c.value else 0, 8);
    assert b[..8] == EncodeChild(c) && b[8..] == rest;
  }

  lemma ReadKeySizeOf(size: nat, rest: seq<byte>)
    requires size < U32
    ensures ReadKeySize(KeyHeader(size) + rest) == Some(Got(size, rest))
  {
    var b := KeyHeader(size) + rest;
    if size >= 255 {
      Widths();
      UnLEofLE(size, 4);
      assert b[1..5] == LE(size, 4) && b[5..] == rest;
    } else {
      assert b[1..] == rest;
    }
  }

  lemma ReadSepOf(s: SepRec, rest: seq<byte>)
    requires 0 < s.at < U64 && |s.key| < U32
    ensures ReadSep(EncodeSep(s) + rest) == Some(Got(Some(s), rest))
  {
    var b := EncodeSep(s) + rest;
    Widths();
    UnLEofLE(s.at, 8);
    assert b == LE(s.at, 8) + (KeyHeader(|s.key|) + (s.key + rest));
    assert b[..8] == LE(s.at, 8) && b[8..] == KeyHeader(|s.key|) + (s.key + rest);
    ReadKeySizeOf(|s.key|, s.key + rest);
    assert (s.key + rest)[..|s.key|] == s.key && (s.key + rest)[|s.key|..] == rest;
  }

  lemma EncodeNonempty(seps: seq<SepRec>, kids: seq<Option<Address>>)
    requires |kids| == |seps| + 1
    ensures |Encode(seps, kids)| >= 8
  {
  }

  /** Decoding an encoded node of up to `room` separators gives the node back. */
  lemma {:induction false} DecodeOfEncode(seps: seq<SepRec>, kids: seq<Option<Address>>, room: nat)
    requires |kids| == |seps| + 1 && |seps| <= room && Encodable(seps, kids)
    ensures Decode(Encode(seps, kids), room) == Some(NodeBlob(seps, kids))
  {
    hide LE, UnLE, ReadSep, ReadChild, EncodeSep, EncodeChild, Decode;
    var b := Encode(seps, kids);
    if seps == [] {
      assert b == EncodeChild(kids[0]) + [];
      ReadChildOf(kids[0], []);
      DecodeLast(b, room, kids[0]);
      assert kids == [kids[0]];
    } else {
      var more := Encode(seps[1..], kids[1..]);
      ReadChildOf(kids[0], EncodeSep(seps[0]) + more);
      assert b == EncodeChild(kids[0]) + (EncodeSep(seps[0]) + more);
      EncodeNonempty(seps[1..], kids[1..]);
      ReadSepOf(seps[0], more);
      DecodeOfEncode(seps[1..], kids[1..], room - 1);
      DecodeStep(b, room, kids[0], EncodeSep(seps[0]) + more, seps[0], more, seps[1..], kids[1..]);
      assert [seps[0]] + seps[1..] == seps && [kids[0]] + kids[1..] == kids;
    }
  }

  lemma DecodeLast(b: seq<byte>, room: nat, child: Option<Address>)
    requires ReadChild(b) == Some(Got(child, []))
    ensures Decode(b, room) == Some(NodeBlob([], [child]))
  {
  }

  lemma DecodeStep(b: seq<byte>, room: nat, child: Option<Address>, rest: seq<byte>, sep: SepRec, more: seq<byte>,
                   seps: seq<SepRec>, kids: seq<Option<Address>>)
    requires room > 0 && ReadChild(b) == Some(Got(child, rest)) && rest != []
    requires ReadSep(rest) == Some(Got(Some(sep), more)) && Decode(more, room - 1) == Some(NodeBlob(seps, kids))
    ensures Decode(b, room) == Some(NodeBlob([sep] + seps, [child] + kids))
  {
    hide LE, UnLE, ReadSep, ReadChild;
  }

  /** A node in bytes: the first child, then value address, key size, key and the rest of the node, or nothing. */
  lemma NodeLayout(seps: seq<SepRec>, kids: seq<Option<Address>>)
    requires |kids| == |seps| + 1
    ensures Encode(seps, kids) == LE(if kids[0].Some? then kids[0].value else 0, 8) +
      if seps == [] then []
      else
        LE(seps[0].at, 8) +
        (if |seps[0].key| < 255 then [|seps[0].key| as byte] else [255 as byte] + LE(|seps[0].key|, 4)) +
        seps[0].key + Encode(seps[1..], kids[1..])
  {
  }

  /** Writes a node record through an entry buffer. */
  method WriteNode(seps: seq<SepRec>, kids: seq<Option<Address>>) returns (enc: seq<byte>)
    requires |kids| == |seps| + 1 && |seps| <= ORDER
    ensures enc == Encode(seps, kids)
  {
    hide LE, EncodeSep, EncodeChild;
    var entry := new Entry([]);
    var i := 0;
    while true
      invariant i <= |seps| && entry.offset == |entry.data| && fresh(entry)
      invariant entry.data + Encode(seps[i..], kids[i..]) == Encode(seps, kids)
      decreases |seps| - i
    {
      ghost var d := entry.data;
      entry.WriteSlice(EncodeChild(kids[i]));
      if i == |seps| {
        assert d + EncodeChild(kids[i]) == d + (EncodeChild(kids[i..][0]) + []);
        break;
      }
      entry.WriteSlice(EncodeSep(seps[i]));
      assert seps[i..][1..] == seps[i + 1..] && kids[i..][1..] == kids[i + 1..];
      assert entry.data + Encode(seps[i + 1..], kids[i + 1..]) == d + Encode(seps[i..], kids[i..]);
      i := i + 1;
    }
    enc := entry.data;
  }

  /** Reads a node record, stopping after the ninth child or the last separator. */
  method ReadNode(enc: seq<byte>) returns (node: Option<Blob>)
    ensures node == Decode(enc, ORDER)
  {
    hide LE, UnLE, ReadChild, ReadSep, Decode;
    var entry := new Entry(enc);
    var seps, kids := [], [];
    assert enc[0..] == enc;
    PrefixedNone(Decode(enc, ORDER));
    while true
      invariant |seps| == |kids| <= ORDER && entry.Valid() && fresh(entry)
      invariant Decode(enc, ORDER) == Prefixed(seps, kids, Decode(entry.Rest(), ORDER - |seps|))
      decreases ORDER - |seps|
    {
      ghost var b := entry.Rest();
      DecodeIs(b, ORDER - |seps|);
      var c := ReadChildIndex(entry);
      if c.None? {
        return None;
      }
      var child := c.value;
      if |kids| == ORDER || entry.offset == |entry.data| {
        assert Decode(b, ORDER - |seps|) == Some(NodeBlob([], [child]));
        assert seps + [] == seps;
        return Some(NodeBlob(seps, kids + [child]));
      }
      var sep := ReadSeparator(entry);
      if sep.None? {
        return None;
      }
      if sep.value.None? {
        assert Decode(b, ORDER - |seps|) == Some(NodeBlob([], [child]));
        assert seps + [] == seps;
        return Some(NodeBlob(seps, kids + [child]));
      }
      assert Decode(b, ORDER - |seps|) ==
             Prefixed([sep.value.value], [child], Decode(entry.Rest(), ORDER - |seps| - 1));
      PrefixedStep(seps, kids, sep.value.value, child, Decode(entry.Rest(), ORDER - |seps| - 1));
      seps, kids := seps + [sep.value.value], kids + [child];
    }
  }

  ghost function Prefixed(seps: seq<SepRec>, kids: seq<Option<Address>>, r: Option<Blob>): Option<Blob> {
    match r
    case Some(NodeBlob(s, k)) => Some(NodeBlob(seps + s, kids + k))
    case _ => None
  }

  /** One step of the decoder. */
  lemma DecodeIs(b: seq<byte>, room: nat)
    ensures Decode(b, room) == match ReadChild(b)
      case None => None
      case Some(child) =>
        if room == 0 || child.rest == [] then Some(NodeBlob([], [child.value]))
        else match ReadSep(child.rest)
          case None => None
          case Some(sep) =>
            if sep.value.None? then Some(NodeBlob([], [child.value]))
            else Prefixed([sep.value.value], [child.value], Decode(sep.rest, room - 1))
  {
    hide LE, UnLE, ReadChild, ReadSep;
  }

  lemma PrefixedNone(r: Option<Blob>)
    requires r.Some? ==> r.value.NodeBlob?
    ensures Prefixed([], [], r) == r
  {
    if r.Some? {
      assert [] + r.value.seps == r.value.seps && [] + r.value.kids == r.value.kids;
    }
  }

  lemma PrefixedStep(seps: seq<SepRec>, kids: seq<Option<Address>>, s: SepRec, c: Option<Address>, r: Option<Blob>)
    ensures Prefixed(seps + [s], kids + [c], r) == Prefixed(seps, kids, Prefixed([s], [c], r))
  {
    if r.Some? && r.value.NodeBlob? {
      assert seps + [s] + r.value.seps == seps + ([s] + r.value.seps);
      assert kids + [c] + r.value.kids == kids + ([c] + r.value.kids);
    }
  }

  method ReadChildIndex(entry: Entry) returns (child: Option<Option<Address>>)
    requires entry.Valid()
    modifies entry`offset
    ensures entry.Valid()
    ensures match ReadChild(old(entry.Rest()))
            case None => child == None
            case Some(r) => child == Some(r.value) && entry.Rest() == r.rest
  {
    hide UnLE;
    var c := entry.ReadSlice(8);
    if c.None? {
      return None;
    }
    var n := UnLE(c.value);
    child := Some(if n == 0 then None else Some(n));
  }

  method ReadKeyHeader(entry: Entry) returns (size: Option<nat>)
    requires entry.Valid()
    modifies entry`offset
    ensures entry.Valid()
    ensures match ReadKeySize(old(entry.Rest()))
            case None => size == None
            case Some(r) => size == Some(r.value) && entry.Rest() == r.rest
  {
    hide UnLE;
    ghost var b := entry.Rest();
    var head := entry.ReadSlice(1);
    if head.None? {
      return None;
    }
    if head.value[0] != 255 {
      return Some(head.value[0] as nat);
    }
    var wide := entry.ReadSlice(4);
    if wide.None? {
      return None;
    }
    assert b[1..][..4] == b[1..5] && b[1..][4..] == b[5..];
    size := Some(UnLE(wide.value));
  }

  method ReadSeparator(entry: Entry) returns (sep: Option<Option<SepRec>>)
    requires entry.Valid()
    modifies entry`offset
    ensures entry.Valid()
    ensures match ReadSep(old(entry.Rest()))
            case None => sep == None
            case Some(r) => sep == Some(r.value) && entry.Rest() == r.rest
  {
    hide UnLE, ReadKeySize;
    var v := entry.ReadSlice(8);
    if v.None? {
      return None;
    }
    var size := ReadKeyHeader(entry);
    if size.None? {
      return None;
    }
    var key := entry.ReadSlice(size.value);
    if key.None? {
      return None;
    }
    var at := UnLE(v.value);
    sep := Some(if at == 0 then None else Some(SepRec(key.value, at)));
  }
}
