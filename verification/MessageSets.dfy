/** Message sets: records one after the other, each a 28-byte header (offset, timestamp,
    leader epoch, size) and the serialized message; and the index entries that go with
    them. */
module MessageSets {
  import opened Wrappers
  import opened ByteOrder
  import opened MessageCodec

  const HEADER_LEN := 28

  datatype Record = Record(offset: int, timestamp: int, epoch: nat, data: Bytes) {
    function Size(): nat { HEADER_LEN + |data| }

    /** Fields within their widths. */
    ghost predicate Valid() {
      && 0 <= offset < TWO_63 && -TWO_63 <= timestamp < TWO_63 && epoch < TWO_64
      && |data| <= MAX_INT32 - HEADER_LEN
    }
  }

  datatype Entry = Entry(offset: int, timestamp: int, epoch: nat, position: int, size: int)

  function Header(r: Record): Bytes {
    BE(U64(r.offset), 8) + (BE(U64(r.timestamp), 8) + (BE(r.epoch, 8) + BE(|r.data| % TWO_32, 4)))
  }

  function RecordBytes(r: Record): Bytes { Header(r) + r.data }

  function SetBytes(rs: seq<Record>): Bytes
    decreases |rs|
  {
    if rs == [] then [] else RecordBytes(rs[0]) + SetBytes(rs[1..])
  }

  function EntryFor(r: Record, pos: int): Entry { Entry(r.offset, r.timestamp, r.epoch, pos, r.Size()) }

  /** The entries of records that start at `pos`. */
  function EntriesOf(rs: seq<Record>, pos: int): seq<Entry>
    decreases |rs|
  {
    if rs == [] then [] else [EntryFor(rs[0], pos)] + EntriesOf(rs[1..], pos + rs[0].Size())
  }

  ghost predicate AllValid(rs: seq<Record>) { forall i :: 0 <= i < |rs| ==> rs[i].Valid() }

  // ----- reading headers -----

  /** The header fields at the start of some bytes; None where slicing would fail. */
  function ReadHeader(b: Bytes): Option<Record> {
    if |b| < HEADER_LEN then None
    else Some(Record(S64(FromBE(b[0..8])), S64(FromBE(b[8..16])), FromBE(b[16..24]), []))
  }

  function ReadSize(b: Bytes): Option<int> { if |b| < HEADER_LEN then None else Some(S32(FromBE(b[24..28]))) }

  lemma HeaderReads(r: Record, b: Bytes)
    requires r.Valid() && |b| >= HEADER_LEN && b[..HEADER_LEN] == Header(r)
    ensures ReadHeader(b) == Some(r.(data := [])) && ReadSize(b) == Some(|r.data|)
  {
    hide BE;
    hide FromBE;
    assert Stands(b, 0, Header(r));
    StandsConcat(b, 0, BE(U64(r.offset), 8), BE(U64(r.timestamp), 8) + (BE(r.epoch, 8) + BE(|r.data| % TWO_32, 4)));
    StandsConcat(b, 8, BE(U64(r.timestamp), 8), BE(r.epoch, 8) + BE(|r.data| % TWO_32, 4));
    StandsConcat(b, 16, BE(r.epoch, 8), BE(|r.data| % TWO_32, 4));
    PowValues();
    BERoundTrip(U64(r.offset), 8);
    BERoundTrip(U64(r.timestamp), 8);
    BERoundTrip(r.epoch, 8);
    BERoundTrip(|r.data| % TWO_32, 4);
  }

  /** Where each field of a header is: offset, timestamp, leader epoch and size. */
  lemma HeaderLayout(r: Record)
    ensures |Header(r)| == HEADER_LEN
    ensures Header(r)[0..8] == BE(U64(r.offset), 8) && Header(r)[8..16] == BE(U64(r.timestamp), 8)
    ensures Header(r)[16..24] == BE(r.epoch, 8) && Header(r)[24..28] == BE(|r.data| % TWO_32, 4)
  {
    hide BE;
  }

  // ----- entries of a message set -----

  function ParseFrom(b: Bytes, pos: int): Option<seq<Entry>>
    decreases |b|
  {
    if b == [] then Some([])
    else if ReadHeader(b).None? then None
    else
      var h, size := ReadHeader(b).value, ReadSize(b).value;
      if !(0 <= HEADER_LEN + size <= |b|) || HEADER_LEN + size == 0 then None
      else
        var rest := ParseFrom(b[HEADER_LEN + size..], pos + HEADER_LEN + size);
        if rest.None? then None
        else Some([Entry(h.offset, h.timestamp, h.epoch, pos, size + HEADER_LEN)] + rest.value)
  }

  /** The index entries of a message set. A set no longer than one header has none. */
  function Parse(b: Bytes, pos: int): Option<seq<Entry>> {
    if |b| <= HEADER_LEN then Some([]) else ParseFrom(b, pos)
  }

  lemma RecordAtFront(r: Record, rest: Bytes)
    ensures |RecordBytes(r)| == r.Size()
    ensures var b := RecordBytes(r) + rest; b[..HEADER_LEN] == Header(r) && b[r.Size()..] == rest
  {
    hide BE;
    assert (RecordBytes(r) + rest)[..HEADER_LEN] == RecordBytes(r)[..HEADER_LEN] == Header(r);
  }

  lemma {:induction false} ParseFromBuilt(rs: seq<Record>, pos: int)
    requires AllValid(rs)
    ensures ParseFrom(SetBytes(rs), pos) == Some(EntriesOf(rs, pos))
    decreases |rs|
  {
    hide RecordBytes;
    hide Header;
    hide ReadHeader;
    hide ReadSize;
    if rs != [] {
      RecordAtFront(rs[0], SetBytes(rs[1..]));
      HeaderReads(rs[0], SetBytes(rs));
      ParseFromBuilt(rs[1..], pos + rs[0].Size());
    }
  }

  /** Parsing a built message set gives exactly the entries built with it. The one
      exception, a lone record without data, is never built: a serialized message has at
      least sixteen bytes. */
  lemma ParseBuilt(rs: seq<Record>, pos: int)
    requires AllValid(rs)
    ensures Parse(SetBytes(rs), pos) == Some(EntriesOf(rs, pos)) <==> !(|rs| == 1 && rs[0].data == [])
  {
    ParseFromBuilt(rs, pos);
    SetLen(rs);
  }

  lemma SetLen(rs: seq<Record>)
    ensures rs == [] ==> SetBytes(rs) == []
    ensures |rs| == 1 ==> |SetBytes(rs)| == rs[0].Size()
    ensures |rs| >= 2 ==> |SetBytes(rs)| >= 2 * HEADER_LEN
  {
    hide BE;
    if |rs| == 1 {
      assert rs[1..] == [];
      RecordAtFront(rs[0], []);
    } else if |rs| >= 2 {
      RecordAtFront(rs[0], SetBytes(rs[1..]));
      RecordAtFront(rs[1], SetBytes(rs[1..][1..]));
    }
  }

  // ----- building -----

  /** What a publisher hands over: the log gives it its offset. */
  datatype Pending = Pending(timestamp: int, epoch: nat, data: Bytes)

  function Stamp(ps: seq<Pending>, base: int): (rs: seq<Record>)
    ensures |rs| == |ps|
    ensures forall i :: 0 <= i < |ps| ==> rs[i] == Record(base + i, ps[i].timestamp, ps[i].epoch, ps[i].data)
  {
    seq(|ps|, i requires 0 <= i < |ps| => Record(base + i, ps[i].timestamp, ps[i].epoch, ps[i].data))
  }

  lemma SetFront(rs: seq<Record>, pos: int)
    requires rs != []
    ensures SetBytes(rs) == RecordBytes(rs[0]) + SetBytes(rs[1..]) && |RecordBytes(rs[0])| == rs[0].Size()
    ensures EntriesOf(rs, pos) == [EntryFor(rs[0], pos)] + EntriesOf(rs[1..], pos + rs[0].Size())
  {
    hide RecordBytes;
    RecordAtFront(rs[0], []);
  }

  lemma {:induction false} SetPush(rs: seq<Record>, r: Record, pos: int)
    ensures SetBytes(rs + [r]) == SetBytes(rs) + RecordBytes(r)
    ensures EntriesOf(rs + [r], pos) == EntriesOf(rs, pos) + [EntryFor(r, pos + |SetBytes(rs)|)]
    decreases |rs|
  {
    hide RecordBytes;
    hide SetBytes;
    hide EntriesOf;
    hide EntryFor;
    SetNone(pos);
    SetNone(pos + r.Size());
    SetFront(rs + [r], pos);
    if rs == [] {
      assert (rs + [r])[1..] == [];
    } else {
      SetFront(rs, pos);
      SetPush(rs[1..], r, pos + rs[0].Size());
      assert (rs + [r])[1..] == rs[1..] + [r];
    }
  }

  lemma {:induction false} EntryCount(rs: seq<Record>, pos: int)
    ensures |EntriesOf(rs, pos)| == |rs|
    decreases |rs|
  {
    if rs != [] { EntryCount(rs[1..], pos + rs[0].Size()); }
  }

  lemma {:induction false} EntryAt(rs: seq<Record>, pos: int, i: nat)
    requires i < |rs|
    ensures |EntriesOf(rs, pos)| == |rs|
    ensures EntriesOf(rs, pos)[i] == EntryFor(rs[i], pos + |SetBytes(rs[..i])|)
    ensures |SetBytes(rs[..i])| + rs[i].Size() <= |SetBytes(rs)| && HEADER_LEN * i <= |SetBytes(rs[..i])|
    decreases |rs|
  {
    hide RecordBytes;
    hide SetBytes;
    hide EntriesOf;
    hide EntryFor;
    SetFront(rs, pos);
    EntryCount(rs, pos);
    if i == 0 {
      assert rs[..0] == [];
      SetNone(pos);
    } else {
      EntryAt(rs[1..], pos + rs[0].Size(), i - 1);
      assert rs[..i][1..] == rs[1..][..i - 1];
      SetFront(rs[..i], pos);
    }
  }

  /** The entry as it is built: sizes and the position within the set are 32-bit. */
  function BuiltEntry(rs: seq<Record>, pos: int, i: nat): Entry
    requires i < |rs|
  {
    Entry(rs[i].offset, rs[i].timestamp, rs[i].epoch, pos + Wrap32(|SetBytes(rs[..i])|), Wrap32(rs[i].Size()))
  }

  /** Every record ends before the 32-bit counters wrap. */
  ghost predicate Narrow(rs: seq<Record>) {
    forall i :: 0 <= i < |rs| ==> |SetBytes(rs[..i])| < TWO_31 && rs[i].Size() < TWO_31
  }

  /** Builds a message set and its entries, keeping a 32-bit running position. The
      entries are those of the set if and only if no counter wraps. */
  method BuildSet(base: int, pos: int, ps: seq<Pending>) returns (b: Bytes, entries: seq<Entry>)
    ensures b == SetBytes(Stamp(ps, base))
    ensures |entries| == |ps| && forall i :: 0 <= i < |ps| ==> entries[i] == BuiltEntry(Stamp(ps, base), pos, i)
    ensures entries == EntriesOf(Stamp(ps, base), pos) <==> Narrow(Stamp(ps, base))
  {
    hide RecordBytes;
    hide SetBytes;
    hide EntriesOf;
    hide Wrap32;
    hide Stamp;
    hide BuiltEntry;
    hide Narrow;
    ghost var rs := Stamp(ps, base);
    SetNone(pos);
    b, entries := [], [];
    var n := 0;
    for i := 0 to |ps|
      invariant b == SetBytes(rs[..i]) && n == Wrap32(|b|) && |entries| == i
      invariant forall j :: 0 <= j < i ==> entries[j] == BuiltEntry(rs, pos, j)
    {
      var r := Record(base + i, ps[i].timestamp, ps[i].epoch, ps[i].data);
      assert rs[..i + 1] == rs[..i] + [r];
      SetPush(rs[..i], r, pos);
      RecordAtFront(r, []);
      BuiltStep(rs, pos, i, n);
      entries := entries + [Entry(r.offset, r.timestamp, r.epoch, pos + n, Wrap32(Wrap32(|r.data|) + HEADER_LEN))];
      n := Wrap32(Wrap32(n + HEADER_LEN) + Wrap32(|r.data|));
      RunningPosition(|b|, |r.data|);
      b := b + RecordBytes(r);
    }
    assert rs[..|ps|] == rs;
    BuiltExactly(rs, pos, entries);
  }

  lemma RunningPosition(n: nat, size: nat)
    ensures Wrap32(Wrap32(Wrap32(n) + HEADER_LEN) + Wrap32(size)) == Wrap32(n + HEADER_LEN + size)
  {
    hide Wrap32;
    WrapSum(n, HEADER_LEN);
    WrapSum(n + HEADER_LEN, Wrap32(size));
    WrapSum(size, n + HEADER_LEN);
    assert n + HEADER_LEN + Wrap32(size) == Wrap32(size) + (n + HEADER_LEN);
  }

  lemma BuiltStep(rs: seq<Record>, pos: int, i: nat, n: int)
    requires i < |rs| && n == Wrap32(|SetBytes(rs[..i])|)
    ensures BuiltEntry(rs, pos, i) ==
            Entry(rs[i].offset, rs[i].timestamp, rs[i].epoch, pos + n, Wrap32(Wrap32(|rs[i].data|) + HEADER_LEN))
  {
    hide Wrap32;
    WrapSum(|rs[i].data|, HEADER_LEN);
  }

  lemma BuiltExactly(rs: seq<Record>, pos: int, entries: seq<Entry>)
    requires |entries| == |rs| && forall i :: 0 <= i < |rs| ==> entries[i] == BuiltEntry(rs, pos, i)
    ensures entries == EntriesOf(rs, pos) <==> Narrow(rs)
  {
    hide SetBytes;
    hide EntriesOf;
    hide Wrap32;
    EntryCount(rs, pos);
    forall i | 0 <= i < |rs|
      ensures EntriesOf(rs, pos)[i] == entries[i] <==> |SetBytes(rs[..i])| < TWO_31 && rs[i].Size() < TWO_31
    {
      EntryAt(rs, pos, i);
      assert Wrap32(|SetBytes(rs[..i])|) == |SetBytes(rs[..i])| <==> |SetBytes(rs[..i])| < TWO_31;
      assert Wrap32(rs[i].Size()) == rs[i].Size() <==> rs[i].Size() < TWO_31;
    }
    if entries == EntriesOf(rs, pos) {
      forall i | 0 <= i < |rs| ensures |SetBytes(rs[..i])| < TWO_31 && rs[i].Size() < TWO_31 {
        assert EntriesOf(rs, pos)[i] == entries[i];
      }
    }
  }

  /** A set below 2^31 bytes is narrow. */
  lemma SmallIsNarrow(rs: seq<Record>)
    requires |SetBytes(rs)| <= MAX_INT32
    ensures Narrow(rs)
  {
    hide SetBytes;
    forall i | 0 <= i < |rs| ensures |SetBytes(rs[..i])| < TWO_31 && rs[i].Size() < TWO_31 { EntryAt(rs, 0, i); }
  }

  lemma SetNone(pos: int)
    ensures SetBytes([]) == [] && EntriesOf([], pos) == []
  {}

  /** Walks a message set from record to record. */
  method ParseSet(b: Bytes, pos: int) returns (r: Option<seq<Entry>>)
    ensures r == Parse(b, pos)
  {
    if |b| <= HEADER_LEN { return Some([]); }
    hide ParseFrom;
    hide ReadHeader;
    hide ReadSize;
    hide Preceded;
    var rest, at, entries := b, pos, [];
    PrecededByNone(ParseFrom(b, pos));
    while rest != []
      invariant ParseFrom(b, pos) == Preceded(entries, ParseFrom(rest, at))
      decreases |rest|
    {
      ParseOn(entries, rest, at);
      if ReadHeader(rest).None? { return None; }
      var h, size := ReadHeader(rest).value, ReadSize(rest).value;
      if !(0 <= HEADER_LEN + size <= |rest|) || HEADER_LEN + size == 0 { return None; }
      entries := entries + [Entry(h.offset, h.timestamp, h.epoch, at, size + HEADER_LEN)];
      at, rest := at + HEADER_LEN + size, rest[HEADER_LEN + size..];
    }
    ParseEnd(entries, at);
    r := Some(entries);
  }

  lemma ParseOn(entries: seq<Entry>, rest: Bytes, pos: int)
    requires rest != []
    ensures ReadHeader(rest).Some? == ReadSize(rest).Some?
    ensures ReadHeader(rest).None? ==> Preceded(entries, ParseFrom(rest, pos)) == None
    ensures ReadHeader(rest).Some? ==>
              var h, size := ReadHeader(rest).value, ReadSize(rest).value;
              Preceded(entries, ParseFrom(rest, pos)) ==
              if !(0 <= HEADER_LEN + size <= |rest|) || HEADER_LEN + size == 0 then None
              else Preceded(entries + [Entry(h.offset, h.timestamp, h.epoch, pos, size + HEADER_LEN)],
                            ParseFrom(rest[HEADER_LEN + size..], pos + HEADER_LEN + size))
  {
    hide ParseFrom;
    hide ReadHeader;
    hide ReadSize;
    ParseStep(rest, pos);
    if ReadHeader(rest).Some? {
      var h, size := ReadHeader(rest).value, ReadSize(rest).value;
      if 0 < HEADER_LEN + size <= |rest| {
        PrecededTwice(entries, [Entry(h.offset, h.timestamp, h.epoch, pos, size + HEADER_LEN)],
                      ParseFrom(rest[HEADER_LEN + size..], pos + HEADER_LEN + size));
      }
    }
  }

  lemma ParseEnd(entries: seq<Entry>, pos: int)
    ensures Preceded(entries, ParseFrom([], pos)) == Some(entries)
  {
    assert entries + [] == entries;
  }

  function Preceded(es: seq<Entry>, rest: Option<seq<Entry>>): Option<seq<Entry>> {
    if rest.None? then None else Some(es + rest.value)
  }

  lemma PrecededByNone(rest: Option<seq<Entry>>)
    ensures Preceded([], rest) == rest
  {
    assert rest.Some? ==> [] + rest.value == rest.value;
  }

  lemma PrecededTwice(a: seq<Entry>, b: seq<Entry>, rest: Option<seq<Entry>>)
    ensures Preceded(a, Preceded(b, rest)) == Preceded(a + b, rest)
  {
    assert rest.Some? ==> a + (b + rest.value) == (a + b) + rest.value;
  }

  lemma ParseStep(b: Bytes, pos: int)
    requires b != []
    ensures ReadHeader(b).Some? == ReadSize(b).Some?
    ensures ReadHeader(b).None? ==> ParseFrom(b, pos) == None
    ensures ReadHeader(b).Some? ==>
              var h, size := ReadHeader(b).value, ReadSize(b).value;
              ParseFrom(b, pos) ==
              if !(0 <= HEADER_LEN + size <= |b|) || HEADER_LEN + size == 0 then None
              else Preceded([Entry(h.offset, h.timestamp, h.epoch, pos, size + HEADER_LEN)],
                            ParseFrom(b[HEADER_LEN + size..], pos + HEADER_LEN + size))
  {}
}
