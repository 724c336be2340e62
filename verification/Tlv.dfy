/** TLV streams in their binary form: the BigSize and truncated-integer codecs,
    the printer and the parser, and the stream type itself.

    A `get_*` past the end of a buffer panics; here it answers `None`. */
module Tlv {
  import opened Prims

  type Bytes = seq<u8>

  /** What a `Vec<u8>` can hold. */
  type Value = v: seq<u8> | |v| <= 0xFFFF_FFFF_FFFF_FFFF

  datatype TlvEntry = TlvEntry(typ: u64, value: Value)

  // ---------------------------------------------------------------- big-endian integers

  /** The number of values of `n` bytes. */
  function Range(n: nat): nat {
    if n == 0 then 1 else 256 * Range(n - 1)
  }

  function ToBE(v: nat, n: nat): (b: Bytes)
    ensures |b| == n
  {
    if n == 0 then [] else ToBE(v / 256, n - 1) + [v % 256]
  }

  function FromBE(b: Bytes): (v: nat)
    ensures v < Range(|b|)
  {
    if b == [] then 0
    else
      var last: int := b[|b| - 1];
      FromBE(b[..|b| - 1]) * 256 + last
  }

  lemma Ranges()
    ensures Range(0) == 1 && Range(1) == 0x100 && Range(2) == 0x1_0000 && Range(3) == 0x100_0000
    ensures Range(4) == 0x1_0000_0000 && Range(7) == 0x100_0000_0000_0000 && Range(8) == 0x1_0000_0000_0000_0000
  {
    assert Range(5) == 256 * Range(4) && Range(6) == 256 * Range(5);
  }

  // ---------------------------------------------------------------- BigSize

  /** The first byte of a number above 0xFC: the shortest form that holds it. */
  function Marker(cs: u64): u8 {
    if cs <= 0xFFFF then 253 else if cs <= 0xFFFF_FFFF then 254 else 255
  }

  /** How many bytes follow the first byte of a BigSize. */
  function Following(first: u8): nat {
    if first == 253 then 2 else if first == 254 then 4 else if first == 255 then 8 else 0
  }

  function CompactSize(cs: u64): Bytes {
    if cs <= 0xFC then [cs] else [Marker(cs)] + ToBE(cs, Following(Marker(cs)))
  }

  /** The number read and the remaining bytes. */
  function GetCompactSize(b: Bytes): (r: Option<(u64, Bytes)>)
    ensures r.Some? ==> |r.value.1| < |b|
  {
    if b == [] || |b| < 1 + Following(b[0]) then None
    else if Following(b[0]) == 0 then Some((b[0], b[1..]))
    else
      var n := Following(b[0]);
      Ranges();
      var v: u64 := FromBE(b[1..n + 1]);
      Some((v, b[n + 1..]))
  }

  // ---------------------------------------------------------------- truncated integers

  function SkipZeros(b: Bytes): Bytes {
    if b != [] && b[0] == 0 then SkipZeros(b[1..]) else b
  }

  function Tu64(u: u64): (b: Bytes)
    ensures |b| <= 8
  {
    SkipZerosLength(ToBE(u, 8));
    SkipZeros(ToBE(u, 8))
  }

  lemma {:induction false} SkipZerosLength(b: Bytes)
    ensures |SkipZeros(b)| <= |b|
  {
    if b != [] && b[0] == 0 {
      SkipZerosLength(b[1..]);
    }
  }

  /** Reads all of the buffer; other lengths panic. */
  function GetTu64(b: Bytes): Option<u64> {
    Ranges();
    if |b| == 1 || |b| == 2 || |b| == 4 || |b| == 8 then
      var v: u64 := FromBE(b);
      Some(v)
    else None
  }

  // ---------------------------------------------------------------- printing and parsing

  function EntryBytes(e: TlvEntry): Bytes {
    CompactSize(e.typ) + CompactSize(|e.value|) + e.value
  }

  function Serialized(es: seq<TlvEntry>): Bytes {
    if es == [] then [] else EntryBytes(es[0]) + Serialized(es[1..])
  }

  function ParseEntry(b: Bytes): (r: Option<(TlvEntry, Bytes)>)
    ensures r.Some? ==> |r.value.1| + 2 <= |b|
  {
    match GetCompactSize(b)
    case None => None
    case Some((typ, b1)) =>
      match GetCompactSize(b1)
      case None => None
      case Some((len, b2)) => if len > |b2| then None else Some((TlvEntry(typ, b2[..len]), b2[len..]))
  }

  /** Entries as long as two bytes remain; a single trailing byte is dropped. */
  function Parsed(b: Bytes): Option<seq<TlvEntry>> {
    if |b| < 2 then Some([])
    else
      match ParseEntry(b)
      case None => None
      case Some((e, rest)) =>
        match Parsed(rest)
        case None => None
        case Some(es) => Some([e] + es)
  }

  /** A length-prefixed stream: the prefix is read but does not limit what is parsed. */
  function Deserialized(b: Bytes): Option<seq<TlvEntry>> {
    match GetCompactSize(b)
    case None => None
    case Some((_, rest)) => Parsed(rest)
  }

  /** A growing buffer. */
  class BytesMut {
    var b: Bytes

    constructor ()
      ensures b == []
    {
      b := [];
    }

    method Put(s: Bytes)
      modifies this
      ensures b == old(b) + s
    {
      b := b + s;
    }

    method PutCompactSize(cs: u64)
      modifies this
      ensures b == old(b) + CompactSize(cs)
    {
      if cs <= 0xFC {
        Put([cs]);
      } else if cs <= 0xFFFF {
        Put([253]);
        Regroup(old(b), [253], ToBE(cs, 2));
        Put(ToBE(cs, 2));
      } else if cs <= 0xFFFF_FFFF {
        Put([254]);
        Regroup(old(b), [254], ToBE(cs, 4));
        Put(ToBE(cs, 4));
      } else {
        Put([255]);
        Regroup(old(b), [255], ToBE(cs, 8));
        Put(ToBE(cs, 8));
      }
    }

    method PutTu64(u: u64)
      modifies this
      ensures b == old(b) + Tu64(u)
    {
      Put(SkipZeros(ToBE(u, 8)));
    }
  }

  // ---------------------------------------------------------------- streams

  function Lookup(es: seq<TlvEntry>, typ: u64): Option<TlvEntry> {
    if es == [] then None else if es[0].typ == typ then Some(es[0]) else Lookup(es[1..], typ)
  }

  function InsertByType(e: TlvEntry, es: seq<TlvEntry>): seq<TlvEntry> {
    if es == [] || e.typ <= es[0].typ then [e] + es else [es[0]] + InsertByType(e, es[1..])
  }

  /** The stable sort by type. */
  function SortByType(es: seq<TlvEntry>): seq<TlvEntry> {
    if es == [] then [] else InsertByType(es[0], SortByType(es[1..]))
  }

  /** The first entry of type `typ` gets the value; without one, a new entry is sorted in. */
  function WithValue(es: seq<TlvEntry>, typ: u64, v: Value): seq<TlvEntry> {
    if Lookup(es, typ) == None then SortByType(es + [TlvEntry(typ, v)])
    else Replaced(es, typ, v)
  }

  function Replaced(es: seq<TlvEntry>, typ: u64, v: Value): seq<TlvEntry> {
    if es == [] then []
    else if es[0].typ == typ then [TlvEntry(typ, v)] + es[1..]
    else [es[0]] + Replaced(es[1..], typ, v)
  }

  lemma {:induction false} FirstOfType(es: seq<TlvEntry>, typ: u64, v: Value, i: nat)
    requires i <= |es| && forall k :: 0 <= k < i ==> es[k].typ != typ
    requires i < |es| ==> es[i].typ == typ
    ensures Lookup(es, typ).Some? <==> i < |es|
    ensures i < |es| ==> Replaced(es, typ, v) == es[i := TlvEntry(typ, v)]
  {
    if i > 0 {
      FirstOfType(es[1..], typ, v, i - 1);
    }
  }

  class SerializedTlvStream {
    var entries: seq<TlvEntry>

    constructor ()
      ensures entries == []
    {
      entries := [];
    }

    constructor Clone(entries: seq<TlvEntry>)
      ensures this.entries == entries
    {
      this.entries := entries;
    }

    method Get(typ: u64) returns (e: Option<TlvEntry>)
      ensures e == Lookup(entries, typ)
    {
      e := Lookup(entries, typ);
    }

    /** `false` is the error of a type that is already there. */
    method Insert(e: TlvEntry) returns (ok: bool)
      modifies this
      ensures ok <==> Lookup(old(entries), e.typ) == None
      ensures entries == if ok then SortByType(old(entries) + [e]) else old(entries)
    {
      var present := Get(e.typ);
      if present.Some? {
        return false;
      }
      entries := entries + [e];
      entries := SortByType(entries);
      ok := true;
    }

    method SetBytes(typ: u64, v: Value)
      modifies this
      ensures entries == WithValue(old(entries), typ, v)
    {
      var i := 0;
      while i < |entries| && entries[i].typ != typ
        invariant i <= |entries|
        invariant forall k :: 0 <= k < i ==> entries[k].typ != typ
      {
        i := i + 1;
      }
      FirstOfType(entries, typ, v, i);
      if i < |entries| {
        entries := entries[i := TlvEntry(typ, v)];
      } else {
        var ok := Insert(TlvEntry(typ, v));
        assert ok;
      }
    }

    method SetTu64(typ: u64, u: u64)
      modifies this
      ensures entries == WithValue(old(entries), typ, Tu64(u))
    {
      var b := new BytesMut();
      b.PutTu64(u);
      assert b.b == Tu64(u);
      SetBytes(typ, b.b);
    }

    method ToBytes() returns (r: Bytes)
      ensures r == Serialized(entries)
    {
      var b := new BytesMut();
      var rest := entries;
      while rest != []
        invariant b.b + Serialized(rest) == Serialized(entries)
        decreases |rest|
      {
        var e := rest[0];
        ghost var before := b.b;
        b.PutCompactSize(e.typ);
        b.PutCompactSize(|e.value|);
        b.Put(e.value);
        AppendEntry(before, e, Serialized(rest[1..]));
        rest := rest[1..];
      }
      r := b.b;
    }
  }

  lemma AppendEntry(before: Bytes, e: TlvEntry, after: Bytes)
    ensures before + CompactSize(e.typ) + CompactSize(|e.value|) + e.value + after == before + (EntryBytes(e) + after)
  {
    var x, y := CompactSize(e.typ), CompactSize(|e.value|);
    assert before + x + y + e.value == before + (x + y + e.value);
    Regroup(before, EntryBytes(e), after);
  }

  method FromBytes(s: Bytes) returns (r: Option<seq<TlvEntry>>)
    ensures r == Parsed(s)
  {
    var b := s;
    var entries: seq<TlvEntry> := [];
    assert Parsed(s).Some? ==> [] + Parsed(s).value == Parsed(s).value;
    while |b| >= 2
      invariant Parsed(s) == match Parsed(b) case None => None case Some(es) => Some(entries + es)
    {
      var first := GetCompactSize(b);
      if first == None {
        return None;
      }
      var second := GetCompactSize(first.value.1);
      if second == None {
        return None;
      }
      var len, rest := second.value.0, second.value.1;
      if len > |rest| {
        return None;
      }
      var e := TlvEntry(first.value.0, rest[..len]);
      if Parsed(rest[len..]).Some? {
        Regroup(entries, [e], Parsed(rest[len..]).value);
      }
      entries := entries + [e];
      b := rest[len..];
    }
    assert entries + [] == entries;
    r := Some(entries);
  }
}
