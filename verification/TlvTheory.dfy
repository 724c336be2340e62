/** Round trips, canonical encodings and stream invariants of the TLV codec. */
module TlvTheory {
  import opened Prims
  import opened Tlv

  // ---------------------------------------------------------------- big-endian integers

  lemma {:induction false} FromToBE(v: nat, n: nat)
    requires v < Range(n)
    ensures FromBE(ToBE(v, n)) == v
  {
    if n > 0 {
      FromToBE(v / 256, n - 1);
      assert ToBE(v, n)[..n - 1] == ToBE(v / 256, n - 1);
    }
  }

  lemma {:induction false} ToFromBE(b: Bytes)
    ensures ToBE(FromBE(b), |b|) == b
  {
    if b != [] {
      ToFromBE(b[..|b| - 1]);
    }
  }

  lemma DivideTwice(v: nat, m: nat)
    requires m > 0
    ensures (v / 256) / m == v / (256 * m)
  {
    var q, r := v / (256 * m), v % (256 * m);
    assert v == 256 * (q * m) + r;
    assert v / 256 == q * m + r / 256;
    assert r / 256 < m;
    QuotientUnique(v / 256, m, q, r / 256);
  }

  lemma QuotientUnique(x: nat, m: nat, q: nat, r: nat)
    requires r < m && x == q * m + r
    ensures x / m == q
  {
    var d, s := x / m, x % m;
    assert x == m * d + s;
    Multiples(d, q, m);
    Multiples(q, d, m);
  }

  lemma {:induction false} Multiples(a: nat, b: nat, m: nat)
    ensures a < b ==> a * m + m <= b * m
    decreases b
  {
    if a < b {
      assert b * m == (b - 1) * m + m;
      Multiples(a, b - 1, m);
    }
  }

  lemma {:induction false} RangePositive(n: nat)
    ensures Range(n) > 0
  {
    if n > 0 {
      RangePositive(n - 1);
    }
  }

  /** Byte `k` of the encoding is the digit of weight 256 to the power `n - 1 - k`: the most significant comes first. */
  lemma {:induction false} ToBEDigit(v: nat, n: nat, k: nat)
    requires k < n
    ensures Range(n - 1 - k) > 0 && ToBE(v, n)[k] == (v / Range(n - 1 - k)) % 256
  {
    RangePositive(n - 1 - k);
    if k < n - 1 {
      ToBEDigit(v / 256, n - 1, k);
      DivideTwice(v, Range(n - 2 - k));
    }
  }

  lemma FromBEDigit(b: Bytes, k: nat)
    requires k < |b|
    ensures Range(|b| - 1 - k) > 0 && b[k] == (FromBE(b) / Range(|b| - 1 - k)) % 256
  {
    ToFromBE(b);
    ToBEDigit(FromBE(b), |b|, k);
  }

  // ---------------------------------------------------------------- BigSize

  /** The four forms of a BigSize. */
  lemma CompactSizeForms(v: u64)
    ensures v < 0xFD ==> CompactSize(v) == [v]
    ensures 0xFD <= v < 0x1_0000 ==> CompactSize(v) == [0xFD] + ToBE(v, 2)
    ensures 0x1_0000 <= v < 0x1_0000_0000 ==> CompactSize(v) == [0xFE] + ToBE(v, 4)
    ensures 0x1_0000_0000 <= v ==> CompactSize(v) == [0xFF] + ToBE(v, 8)
  {
  }

  /** What is read from any bytes: the first tells how many more there must be. */
  lemma GetCompactSizeForms(b: Bytes)
    ensures GetCompactSize(b).Some? <==>
            b != [] && (b[0] == 0xFD ==> |b| >= 3) && (b[0] == 0xFE ==> |b| >= 5) && (b[0] == 0xFF ==> |b| >= 9)
    ensures GetCompactSize(b).Some? ==>
              var (v, rest) := GetCompactSize(b).value;
              && (b[0] < 0xFD ==> v == b[0] && rest == b[1..])
              && (b[0] == 0xFD ==> v == FromBE(b[1..3]) && rest == b[3..])
              && (b[0] == 0xFE ==> v == FromBE(b[1..5]) && rest == b[5..])
              && (b[0] == 0xFF ==> v == FromBE(b[1..9]) && rest == b[9..])
  {
  }

  /** Decoding consumes exactly what was encoded, whatever follows. */
  lemma CompactSizeRoundTrip(v: u64, rest: Bytes)
    ensures GetCompactSize(CompactSize(v) + rest) == Some((v, rest))
  {
    Ranges();
    var b := CompactSize(v) + rest;
    if v > 0xFC {
      var n := Following(Marker(v));
      FromToBE(v, n);
      assert b[1..n + 1] == ToBE(v, n);
      assert b[n + 1..] == rest;
    } else {
      assert b[1..] == rest;
    }
  }

  /** The number could not have been written with fewer bytes. */
  predicate Minimal(first: u8, v: nat) {
    (first == 253 ==> v > 0xFC) && (first == 254 ==> v > 0xFFFF) && (first == 255 ==> v > 0xFFFF_FFFF)
  }

  /** Re-encoding what was read never takes more room, and gives the same bytes iff they were minimal. */
  lemma CompactSizeReencode(b: Bytes)
    requires GetCompactSize(b).Some?
    ensures var (v, rest) := GetCompactSize(b).value;
            && |CompactSize(v) + rest| <= |b|
            && (CompactSize(v) + rest == b <==> Minimal(b[0], v))
            && (|CompactSize(v) + rest| == |b| <==> Minimal(b[0], v))
  {
    var (v, rest) := GetCompactSize(b).value;
    if Following(b[0]) == 0 {
      assert b == [b[0]] + b[1..];
    } else {
      LongReencode(b[0], b[1..Following(b[0]) + 1]);
      assert b == [b[0]] + b[1..Following(b[0]) + 1] + rest;
    }
  }

  /** The same for a number that is written with more than one byte. */
  lemma LongReencode(first: u8, number: Bytes)
    requires Following(first) == |number| > 0
    ensures FromBE(number) <= U64_MAX
    ensures var v: u64 := FromBE(number);
            if Minimal(first, v) then CompactSize(v) == [first] + number
            else |CompactSize(v)| < |[first] + number|
  {
    Ranges();
    ToFromBE(number);
    var v := FromBE(number);
    assert Minimal(first, v) <==> v > 0xFC && first == Marker(v);
    assert !Minimal(first, v) && v > 0xFC ==> Following(Marker(v)) < |number|;
  }

  // ---------------------------------------------------------------- streams

  lemma EntryRoundTrip(e: TlvEntry, rest: Bytes)
    ensures ParseEntry(EntryBytes(e) + rest) == Some((e, rest))
    ensures |EntryBytes(e)| >= 2
  {
    var tail := e.value + rest;
    var mid := CompactSize(|e.value|) + tail;
    Regroup(CompactSize(e.typ) + CompactSize(|e.value|), e.value, rest);
    Regroup(CompactSize(e.typ), CompactSize(|e.value|), tail);
    CompactSizeRoundTrip(e.typ, mid);
    CompactSizeRoundTrip(|e.value|, tail);
    assert tail[..|e.value|] == e.value && tail[|e.value|..] == rest;
  }

  /** A serialized stream starts with the type, then the length, then the value of its first entry. */
  lemma EntryLayout(e: TlvEntry, es: seq<TlvEntry>)
    ensures Serialized([e] + es) == CompactSize(e.typ) + (CompactSize(|e.value|) + (e.value + Serialized(es)))
  {
    var x, y := CompactSize(e.typ), CompactSize(|e.value|);
    assert ([e] + es)[1..] == es;
    Regroup(x + y, e.value, Serialized(es));
    Regroup(x, y, e.value + Serialized(es));
  }

  /** Parsing a serialized stream followed by anything gives its entries and then those of the rest. */
  lemma {:induction false} ParseAfterSerialized(es: seq<TlvEntry>, rest: Bytes)
    ensures Parsed(Serialized(es) + rest) ==
            match Parsed(rest) case None => None case Some(more) => Some(es + more)
  {
    if es == [] {
      assert Serialized(es) + rest == rest;
      if Parsed(rest).Some? {
        assert es + Parsed(rest).value == Parsed(rest).value;
      }
    } else {
      var after := Serialized(es[1..]) + rest;
      Regroup(EntryBytes(es[0]), Serialized(es[1..]), rest);
      EntryRoundTrip(es[0], after);
      ParseAfterSerialized(es[1..], rest);
      if Parsed(rest).Some? {
        var more := Parsed(rest).value;
        Regroup([es[0]], es[1..], more);
        assert [es[0]] + es[1..] == es;
        assert [es[0]] + (es[1..] + more) == es + more;
      }
    }
  }

  lemma RoundTrip(es: seq<TlvEntry>)
    ensures Parsed(Serialized(es)) == Some(es)
  {
    ParseAfterSerialized(es, []);
    assert Serialized(es) + [] == Serialized(es) && es + [] == es;
  }

  lemma ConcatenationParses(es: seq<TlvEntry>, fs: seq<TlvEntry>)
    ensures Parsed(Serialized(es) + Serialized(fs)) == Some(es + fs)
  {
    RoundTrip(fs);
    ParseAfterSerialized(es, Serialized(fs));
  }

  /** The length prefix is not enforced: for all bytes, any number there gives the same result. */
  lemma LengthPrefixIgnored(len: u64, b: Bytes)
    ensures Deserialized(CompactSize(len) + b) == Parsed(b)
  {
    CompactSizeRoundTrip(len, b);
  }

  /** A stream behind its true length is what is read exactly if less than two bytes follow it. */
  lemma LengthPrefixHonouredExactly(es: seq<TlvEntry>, b: Bytes)
    requires |Serialized(es)| <= U64_MAX
    ensures Deserialized(CompactSize(|Serialized(es)|) + (Serialized(es) + b)) == Some(es) <==> |b| < 2
  {
    LengthPrefixIgnored(|Serialized(es)|, Serialized(es) + b);
    ParseAfterSerialized(es, b);
    if Parsed(b).Some? {
      assert |es + Parsed(b).value| == |es| + |Parsed(b).value|;
      assert es + [] == es;
    }
  }

  /** Every type and length of the stream is minimally encoded and no byte trails. */
  predicate Canonical(b: Bytes) {
    if |b| < 2 then b == []
    else
      match ParseEntry(b)
      case None => false
      case Some((e, rest)) =>
        && Minimal(b[0], e.typ)
        && Minimal(GetCompactSize(b).value.1[0], |e.value|)
        && Canonical(rest)
  }

  lemma EntryReencode(b: Bytes)
    requires ParseEntry(b).Some?
    ensures var (e, rest) := ParseEntry(b).value;
            var minimal := Minimal(b[0], e.typ) && Minimal(GetCompactSize(b).value.1[0], |e.value|);
            && |EntryBytes(e)| + |rest| <= |b|
            && (minimal ==> EntryBytes(e) + rest == b)
            && (!minimal ==> |EntryBytes(e)| + |rest| < |b|)
  {
    var (e, rest) := ParseEntry(b).value;
    var (typ, b1) := GetCompactSize(b).value;
    var (len, b2) := GetCompactSize(b1).value;
    var x, y := CompactSize(typ), CompactSize(len);
    CompactSizeReencode(b);
    CompactSizeReencode(b1);
    assert e == TlvEntry(typ, b2[..len]) && rest == b2[len..];
    Regroup(x + y, e.value, rest);
    assert e.value + rest == b2;
    Regroup(x, y, b2);
    assert |EntryBytes(e)| + |rest| == |x| + |y| + |b2|;
  }

  /** Serializing what was parsed reproduces the input byte for byte iff the
      input was canonical; otherwise it takes less room. */
  lemma {:induction false} Reencode(b: Bytes)
    requires Parsed(b).Some?
    ensures if Canonical(b) then Serialized(Parsed(b).value) == b else |Serialized(Parsed(b).value)| < |b|
  {
    if |b| >= 2 {
      var (e, rest) := ParseEntry(b).value;
      Reencode(rest);
      EntryReencode(b);
      assert ([e] + Parsed(rest).value)[1..] == Parsed(rest).value;
    }
  }

  /** Distinct canonical inputs parse to distinct streams. */
  lemma CanonicalInjective(b: Bytes, c: Bytes)
    requires Parsed(b).Some? && Parsed(b) == Parsed(c) && Canonical(b) && Canonical(c)
    ensures b == c
  {
    Reencode(b);
    Reencode(c);
  }

  /** What is serialized is canonical. */
  lemma SerializedCanonical(es: seq<TlvEntry>)
    ensures Canonical(Serialized(es))
  {
    RoundTrip(es);
    Reencode(Serialized(es));
  }

  // ---------------------------------------------------------------- truncated integers

  lemma {:induction false} LeadingZero(b: Bytes)
    requires b != [] && b[0] == 0
    ensures FromBE(b[1..]) == FromBE(b)
  {
    if |b| > 1 {
      LeadingZero(b[..|b| - 1]);
      assert b[..|b| - 1][1..] == b[1..][..|b| - 2];
    }
  }

  lemma {:induction false} LeadingNonZero(b: Bytes)
    requires b != [] && b[0] != 0
    ensures FromBE(b) >= Range(|b| - 1)
  {
    if |b| > 1 {
      LeadingNonZero(b[..|b| - 1]);
    } else {
      assert b[..0] == [];
    }
  }

  lemma {:induction false} SkipZerosKeepsValue(b: Bytes)
    ensures FromBE(SkipZeros(b)) == FromBE(b)
    ensures SkipZeros(b) != [] ==> SkipZeros(b)[0] != 0
  {
    if b != [] && b[0] == 0 {
      LeadingZero(b);
      SkipZerosKeepsValue(b[1..]);
    }
  }

  /** The encoding has no leading zero, and its big-endian value is the number. */
  lemma Tu64Value(u: u64)
    ensures FromBE(Tu64(u)) == u
    ensures Tu64(u) != [] ==> Tu64(u)[0] != 0
  {
    Ranges();
    FromToBE(u, 8);
    SkipZerosKeepsValue(ToBE(u, 8));
  }

  lemma Tu64Injective(u: u64, v: u64)
    ensures Tu64(u) == Tu64(v) ==> u == v
  {
    Tu64Value(u);
    Tu64Value(v);
  }

  lemma {:induction false} RangeMonotone(m: nat, n: nat)
    requires m <= n
    ensures Range(m) <= Range(n)
  {
    if m < n {
      RangeMonotone(m, n - 1);
    }
  }

  /** The decoder inverts the encoder exactly on the numbers of 1, 2, 4 or 8
      significant bytes; on the others it panics. */
  lemma Tu64RoundTripExactly(u: u64)
    ensures var readable := 1 <= u <= 0xFFFF || 0x100_0000 <= u <= 0xFFFF_FFFF || u >= 0x100_0000_0000_0000;
            GetTu64(Tu64(u)) == if readable then Some(u) else None
  {
    Ranges();
    Tu64Value(u);
    var b := Tu64(u);
    if b != [] {
      LeadingNonZero(b);
      if |b| <= 3 {
        RangeMonotone(|b|, 3);
      } else if 5 <= |b| <= 7 {
        RangeMonotone(4, |b| - 1);
        RangeMonotone(|b|, 7);
      }
    }
  }

  // ---------------------------------------------------------------- lookups and order

  ghost predicate Increasing(es: seq<TlvEntry>) {
    forall i, j :: 0 <= i < j < |es| ==> es[i].typ < es[j].typ
  }

  lemma {:induction false} LookupInserted(e: TlvEntry, es: seq<TlvEntry>, t: u64)
    ensures Lookup(InsertByType(e, es), t) == if t == e.typ then Some(e) else Lookup(es, t)
  {
    if es != [] && !(e.typ <= es[0].typ) {
      LookupInserted(e, es[1..], t);
    }
  }

  /** The sort is stable, so it changes no lookup, even among equal types. */
  lemma {:induction false} LookupSorted(es: seq<TlvEntry>, t: u64)
    ensures Lookup(SortByType(es), t) == Lookup(es, t)
  {
    if es != [] {
      LookupSorted(es[1..], t);
      LookupInserted(es[0], SortByType(es[1..]), t);
    }
  }

  lemma {:induction false} LookupAppended(es: seq<TlvEntry>, e: TlvEntry, t: u64)
    ensures Lookup(es + [e], t) ==
            if Lookup(es, t).Some? then Lookup(es, t) else if t == e.typ then Some(e) else None
  {
    if es != [] {
      assert (es + [e])[1..] == es[1..] + [e];
      LookupAppended(es[1..], e, t);
    }
  }

  lemma {:induction false} LookupReplaced(es: seq<TlvEntry>, typ: u64, v: Value, t: u64)
    requires Lookup(es, typ).Some?
    ensures Lookup(Replaced(es, typ, v), t) == if t == typ then Some(TlvEntry(typ, v)) else Lookup(es, t)
  {
    if es[0].typ != typ {
      LookupReplaced(es[1..], typ, v, t);
    }
  }

  /** For any stream, sorted or not: a set value is read back, and no other type is affected. */
  lemma LookupWithValue(es: seq<TlvEntry>, typ: u64, v: Value, t: u64)
    ensures Lookup(WithValue(es, typ, v), t) == if t == typ then Some(TlvEntry(typ, v)) else Lookup(es, t)
  {
    if Lookup(es, typ) == None {
      LookupSorted(es + [TlvEntry(typ, v)], t);
      LookupAppended(es, TlvEntry(typ, v), t);
    } else {
      LookupReplaced(es, typ, v, t);
    }
  }

  lemma {:induction false} LookupMember(es: seq<TlvEntry>, t: u64)
    ensures Lookup(es, t).Some? <==> exists k :: 0 <= k < |es| && es[k].typ == t
    ensures Lookup(es, t).Some? ==> Lookup(es, t).value in es
  {
    if es != [] {
      LookupMember(es[1..], t);
      if k :| 0 <= k < |es| && es[k].typ == t {
        assert k > 0 ==> es[1..][k - 1].typ == t;
      }
    }
  }

  /** A lookup gives the first entry of the type. */
  lemma {:induction false} LookupFirst(es: seq<TlvEntry>, k: nat)
    requires k < |es| && forall j :: 0 <= j < k ==> es[j].typ != es[k].typ
    ensures Lookup(es, es[k].typ) == Some(es[k])
  {
    if k > 0 {
      LookupFirst(es[1..], k - 1);
    }
  }

  /** The entries of one type, in the order of the stream. */
  function WithType(t: u64, es: seq<TlvEntry>): seq<TlvEntry> {
    if es == [] then []
    else if es[0].typ == t then [es[0]] + WithType(t, es[1..])
    else WithType(t, es[1..])
  }

  ghost predicate Ordered(es: seq<TlvEntry>) {
    forall i, j :: 0 <= i < j < |es| ==> es[i].typ <= es[j].typ
  }

  lemma {:induction false} InsertOrdered(e: TlvEntry, es: seq<TlvEntry>)
    requires Ordered(es)
    ensures Ordered(InsertByType(e, es))
    ensures forall x :: x in InsertByType(e, es) <==> x == e || x in es
    ensures |InsertByType(e, es)| == |es| + 1
  {
    if es != [] && !(e.typ <= es[0].typ) {
      InsertOrdered(e, es[1..]);
      forall x | x in InsertByType(e, es[1..]) ensures es[0].typ <= x.typ {
      }
    }
  }

  lemma WithTypeCons(t: u64, e: TlvEntry, es: seq<TlvEntry>)
    ensures WithType(t, [e] + es) == if e.typ == t then [e] + WithType(t, es) else WithType(t, es)
  {
    assert ([e] + es)[1..] == es;
  }

  lemma {:induction false} InsertWithType(t: u64, e: TlvEntry, es: seq<TlvEntry>)
    ensures WithType(t, InsertByType(e, es)) == WithType(t, [e] + es)
  {
    if es != [] && !(e.typ <= es[0].typ) {
      InsertWithType(t, e, es[1..]);
      WithTypeCons(t, es[0], InsertByType(e, es[1..]));
      WithTypeCons(t, e, es[1..]);
      WithTypeCons(t, e, es);
      assert WithType(t, es) == if es[0].typ == t then [es[0]] + WithType(t, es[1..]) else WithType(t, es[1..]);
    }
  }

  /** On any stream the sort orders by type, and keeps the entries of each type and their order. */
  lemma {:induction false} SortByTypeExact(es: seq<TlvEntry>, t: u64)
    ensures Ordered(SortByType(es)) && |SortByType(es)| == |es|
    ensures WithType(t, SortByType(es)) == WithType(t, es)
  {
    if es != [] {
      SortByTypeExact(es[1..], t);
      InsertOrdered(es[0], SortByType(es[1..]));
      InsertWithType(t, es[0], SortByType(es[1..]));
      WithTypeCons(t, es[0], SortByType(es[1..]));
    }
  }

  lemma {:induction false} InsertIncreasing(e: TlvEntry, es: seq<TlvEntry>)
    requires Increasing(es) && forall x :: x in es ==> x.typ != e.typ
    ensures Increasing(InsertByType(e, es))
    ensures forall x :: x in InsertByType(e, es) <==> x == e || x in es
  {
    if es != [] && !(e.typ <= es[0].typ) {
      InsertIncreasing(e, es[1..]);
      var s := InsertByType(e, es[1..]);
      forall k | 0 <= k < |s| ensures es[0].typ < s[k].typ {
        assert s[k] == e || s[k] in es[1..];
      }
    }
  }

  lemma {:induction false} SortAppendedIncreasing(es: seq<TlvEntry>, e: TlvEntry)
    requires Increasing(es) && forall x :: x in es ==> x.typ != e.typ
    ensures Increasing(SortByType(es + [e]))
    ensures forall x :: x in SortByType(es + [e]) <==> x == e || x in es
  {
    if es == [] {
      assert es + [e] == [e];
    } else {
      assert (es + [e])[1..] == es[1..] + [e];
      SortAppendedIncreasing(es[1..], e);
      InsertIncreasing(es[0], SortByType(es[1..] + [e]));
    }
  }

  lemma {:induction false} ReplacedTypes(es: seq<TlvEntry>, typ: u64, v: Value)
    ensures |Replaced(es, typ, v)| == |es|
    ensures forall k :: 0 <= k < |es| ==> Replaced(es, typ, v)[k].typ == es[k].typ
  {
    if es != [] && es[0].typ != typ {
      ReplacedTypes(es[1..], typ, v);
    }
  }

  lemma WithValueIncreasing(es: seq<TlvEntry>, typ: u64, v: Value)
    requires Increasing(es)
    ensures Increasing(WithValue(es, typ, v))
  {
    if Lookup(es, typ) == None {
      LookupMember(es, typ);
      SortAppendedIncreasing(es, TlvEntry(typ, v));
    } else {
      ReplacedTypes(es, typ, v);
    }
  }

  // ---------------------------------------------------------------- runs of a stream

  datatype Op = Insert(e: TlvEntry) | SetBytes(typ: u64, v: Value) | SetTu64(typ: u64, u: u64)

  function Apply(es: seq<TlvEntry>, op: Op): seq<TlvEntry> {
    match op
    case Insert(e) => if Lookup(es, e.typ) == None then SortByType(es + [e]) else es
    case SetBytes(typ, v) => WithValue(es, typ, v)
    case SetTu64(typ, u) => WithValue(es, typ, Tu64(u))
  }

  function Run(ops: seq<Op>): seq<TlvEntry> {
    if ops == [] then [] else Apply(Run(ops[..|ops| - 1]), ops[|ops| - 1])
  }

  /** The same operations on a plain map from types to values. */
  function Meaning(ops: seq<Op>): map<u64, Value> {
    if ops == [] then map[]
    else
      var m := Meaning(ops[..|ops| - 1]);
      match ops[|ops| - 1]
      case Insert(e) => if e.typ in m then m else m[e.typ := e.value]
      case SetBytes(typ, v) => m[typ := v]
      case SetTu64(typ, u) => m[typ := Tu64(u)]
  }

  /** Every stream built from scratch has strictly increasing types and holds exactly what the map holds. */
  lemma {:induction false} RunMeaning(ops: seq<Op>)
    ensures Increasing(Run(ops))
    ensures forall t :: Lookup(Run(ops), t) ==
                        if t in Meaning(ops) then Some(TlvEntry(t, Meaning(ops)[t])) else None
  {
    if ops != [] {
      var before, op := ops[..|ops| - 1], ops[|ops| - 1];
      RunMeaning(before);
      var es := Run(before);
      var typ := if op.Insert? then op.e.typ else op.typ;
      var v := match op case Insert(e) => e.value case SetBytes(_, v) => v case SetTu64(_, u) => Tu64(u);
      assert TlvEntry(typ, v) == TlvEntry(typ, v) && (op.Insert? ==> op.e == TlvEntry(typ, v));
      WithValueIncreasing(es, typ, v);
      forall t ensures Lookup(WithValue(es, typ, v), t) == if t == typ then Some(TlvEntry(typ, v)) else Lookup(es, t) {
        LookupWithValue(es, typ, v, t);
      }
    }
  }

  /** A strictly increasing stream is determined by its lookups. */
  lemma {:induction false} IncreasingDetermined(es: seq<TlvEntry>, fs: seq<TlvEntry>)
    requires Increasing(es) && Increasing(fs)
    requires forall t :: Lookup(es, t) == Lookup(fs, t)
    ensures es == fs
  {
    if es != [] {
      FirstFound(es);
      LookupMember(fs, es[0].typ);
    }
    if fs != [] {
      FirstFound(fs);
      LookupMember(es, fs[0].typ);
    }
    if es != [] && fs != [] {
      assert es[0] == fs[0];
      forall t ensures Lookup(es[1..], t) == Lookup(fs[1..], t) {
        assert Lookup(es, t) == Lookup(fs, t);
        LookupMember(es[1..], t);
        LookupMember(fs[1..], t);
      }
      IncreasingDetermined(es[1..], fs[1..]);
      assert es == [es[0]] + es[1..] && fs == [fs[0]] + fs[1..];
    }
  }

  lemma FirstFound(es: seq<TlvEntry>)
    requires es != []
    ensures Lookup(es, es[0].typ) == Some(es[0])
  {
  }

  /** So the bytes sent depend only on the final contents, not on how they came about. */
  lemma BytesOfContents(ops: seq<Op>, others: seq<Op>)
    requires Meaning(ops) == Meaning(others)
    ensures Serialized(Run(ops)) == Serialized(Run(others))
  {
    RunMeaning(ops);
    RunMeaning(others);
    IncreasingDetermined(Run(ops), Run(others));
  }
}
