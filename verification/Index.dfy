/** The index of a segment: fixed-width entries relative to the base offset, in a
    memory-mapped file that is grown ahead of the writes, cut back when the segment is
    sealed, and rebuilt from the log when it is corrupt. */
module Index {
  import opened Wrappers
  import opened ByteOrder
  import opened MessageCodec
  import opened MessageSets
  import BinarySearch

  const ENTRY_WIDTH := 20
  const DEFAULT_BYTES := 10485760
  const MAX_MESSAGE := 104857600

  // ----- relative entries -----

  datatype Rel = Rel(offset: int, timestamp: int, position: int, size: int)

  function NewRel(e: Entry, base: int): Rel {
    Rel(Wrap32(e.offset - base), e.timestamp, Wrap32(e.position), e.size)
  }

  /** Index entries do not hold the leader epoch. */
  function Fill(rel: Rel, base: int): Entry { Entry(base + rel.offset, rel.timestamp, 0, rel.position, rel.size) }

  ghost predicate InRange(e: Entry, base: int) {
    -TWO_31 <= e.offset - base < TWO_31 && -TWO_31 <= e.position < TWO_31
  }

  /** A relative entry gives its entry back exactly if its fields did not overflow. */
  lemma RelRoundTrip(e: Entry, base: int)
    ensures Fill(NewRel(e, base), base) == e.(epoch := 0) <==> InRange(e, base)
  {}

  function RelBytes(rel: Rel): Bytes {
    BE(U32(rel.offset), 4) + (BE(U64(rel.timestamp), 8) + (BE(U32(rel.position), 4) + BE(U32(rel.size), 4)))
  }

  function ReadRel(b: Bytes): Rel
    requires |b| == ENTRY_WIDTH
  {
    Rel(S32(FromBE(b[0..4])), S64(FromBE(b[4..12])), S32(FromBE(b[12..16])), S32(FromBE(b[16..20])))
  }

  /** Where each field of an entry is: offset, timestamp, position and size. */
  lemma RelLayout(rel: Rel)
    ensures |RelBytes(rel)| == ENTRY_WIDTH
    ensures RelBytes(rel)[0..4] == BE(U32(rel.offset), 4) && RelBytes(rel)[4..12] == BE(U64(rel.timestamp), 8)
    ensures RelBytes(rel)[12..16] == BE(U32(rel.position), 4) && RelBytes(rel)[16..20] == BE(U32(rel.size), 4)
  {
    hide BE;
  }

  /** Everything that fits a signed field of its width. */
  ghost predicate Fits(rel: Rel) {
    && -TWO_31 <= rel.offset < TWO_31 && -TWO_63 <= rel.timestamp < TWO_63
    && -TWO_31 <= rel.position < TWO_31 && -TWO_31 <= rel.size < TWO_31
  }

  lemma RelBytesRead(rel: Rel)
    requires Fits(rel)
    ensures ReadRel(RelBytes(rel)) == rel
  {
    hide BE;
    hide FromBE;
    hide S32;
    hide S64;
    hide U32;
    hide U64;
    hide Wrap32;
    var b := RelBytes(rel);
    RelBytesStand(rel);
    Reads32(b, 0, rel.offset);
    Reads64(b, 4, rel.timestamp);
    Reads32(b, 12, rel.position);
    Reads32(b, 16, rel.size);
  }

  lemma RelBytesStand(rel: Rel)
    ensures var b := RelBytes(rel);
            && Stands(b, 0, BE(U32(rel.offset), 4)) && Stands(b, 4, BE(U64(rel.timestamp), 8))
            && Stands(b, 12, BE(U32(rel.position), 4)) && Stands(b, 16, BE(U32(rel.size), 4))
  {
    hide BE;
    hide Stands;
    var b := RelBytes(rel);
    StandsWhole(b);
    StandsConcat(b, 0, BE(U32(rel.offset), 4),
                 BE(U64(rel.timestamp), 8) + (BE(U32(rel.position), 4) + BE(U32(rel.size), 4)));
    StandsConcat(b, 4, BE(U64(rel.timestamp), 8), BE(U32(rel.position), 4) + BE(U32(rel.size), 4));
    StandsConcat(b, 12, BE(U32(rel.position), 4), BE(U32(rel.size), 4));
  }

  // ----- no overflow -----

  /** Relative offsets a 32-bit field can hold, the records in any order and with any
      gaps, such as compaction leaves. */
  ghost predicate Near(rs: seq<Record>, base: int) {
    forall i :: 0 <= i < |rs| ==> -TWO_31 <= rs[i].offset - base < TWO_31
  }

  /** No index field of a segment overflows if and only if every record is near the base
      offset and starts below 2^31. */
  lemma NoOverflow(rs: seq<Record>, base: int)
    ensures |EntriesOf(rs, 0)| == |rs|
    ensures (forall i :: 0 <= i < |rs| ==> InRange(EntriesOf(rs, 0)[i], base)) <==>
            Near(rs, base) && forall i :: 0 <= i < |rs| ==> |SetBytes(rs[..i])| < TWO_31
  {
    hide SetBytes;
    hide EntriesOf;
    EntryCount(rs, 0);
    forall i | 0 <= i < |rs|
      ensures InRange(EntriesOf(rs, 0)[i], base) <==>
              -TWO_31 <= rs[i].offset - base < TWO_31 && |SetBytes(rs[..i])| < TWO_31
    {
      EntryAt(rs, 0, i);
    }
  }

  /** A segment below 2^31 bytes overflows only by its offsets. */
  lemma SmallSegment(rs: seq<Record>, base: int)
    requires |SetBytes(rs)| <= TWO_31
    ensures |EntriesOf(rs, 0)| == |rs|
    ensures (forall i :: 0 <= i < |rs| ==> InRange(EntriesOf(rs, 0)[i], base)) <==> Near(rs, base)
  {
    hide SetBytes;
    hide EntriesOf;
    hide InRange;
    NoOverflow(rs, base);
    forall i | 0 <= i < |rs| ensures |SetBytes(rs[..i])| < TWO_31 { EntryAt(rs, 0, i); }
  }

  /** Record `i` of a segment without gaps. */
  ghost predicate Dense(rs: seq<Record>, base: int) { forall i :: 0 <= i < |rs| ==> rs[i].offset == base + i }

  /** Records taken from a segment without gaps below 2^31 bytes, all of them or those
      compaction kept, are near its base. */
  lemma KeptAreNear(rs: seq<Record>, base: int, kept: seq<Record>)
    requires Dense(rs, base) && |SetBytes(rs)| <= TWO_31
    requires forall i :: 0 <= i < |kept| ==> kept[i] in rs
    ensures Near(kept, base)
  {
    hide SetBytes;
    forall i | 0 <= i < |kept| ensures -TWO_31 <= kept[i].offset - base < TWO_31 {
      var j :| 0 <= j < |rs| && rs[j] == kept[i];
      EntryAt(rs, 0, j);
    }
  }

  // ----- the bytes of an index -----

  function RelsBytes(es: seq<Entry>, base: int): (b: Bytes)
    ensures |b| == ENTRY_WIDTH * |es|
  {
    if es == [] then [] else RelsBytes(es[..|es| - 1], base) + RelBytes(NewRel(es[|es| - 1], base))
  }

  function Slot(b: Bytes, i: nat): Rel
    requires ENTRY_WIDTH * (i + 1) <= |b|
  {
    ReadRel(b[ENTRY_WIDTH * i..ENTRY_WIDTH * (i + 1)])
  }

  predicate EmptyRel(rel: Rel) { rel.position == 0 && rel.timestamp == 0 && rel.size == 0 }

  lemma {:induction false} RelsConcat(a: seq<Entry>, b: seq<Entry>, base: int)
    ensures RelsBytes(a + b, base) == RelsBytes(a, base) + RelsBytes(b, base)
  {
    hide RelBytes;
    hide NewRel;
    if b == [] {
      assert a + b == a;
    } else {
      RelsConcat(a, b[..|b| - 1], base);
      assert (a + b)[..|a + b| - 1] == a + b[..|b| - 1];
    }
  }

  lemma RelsSlice(es: seq<Entry>, base: int, b: Bytes, i: nat)
    requires i < |es| && RelsBytes(es, base) <= b
    ensures ENTRY_WIDTH * (i + 1) <= |b| && b[ENTRY_WIDTH * i..ENTRY_WIDTH * (i + 1)] == RelBytes(NewRel(es[i], base))
  {
    hide RelBytes;
    hide NewRel;
    hide RelsBytes;
    var before, after := es[..i], es[i + 1..];
    assert es == before + ([es[i]] + after);
    RelsConcat(before, [es[i]] + after, base);
    RelsConcat([es[i]], after, base);
    OneRel(es[i], base);
    RelsLen(before, base);
    RelsLen([es[i]], base);
    SliceOf(b, RelsBytes(before, base), RelsBytes([es[i]], base), RelsBytes(after, base));
  }

  lemma SliceOf(b: Bytes, x: Bytes, y: Bytes, z: Bytes)
    requires x + (y + z) <= b
    ensures b[|x|..|x| + |y|] == y
  {
    assert b[|x|..|x| + |y|] == (x + (y + z))[|x|..|x| + |y|] == y;
  }

  ghost predicate Storable(e: Entry) { -TWO_63 <= e.timestamp < TWO_63 && 0 < e.size < TWO_31 }

  lemma NewRelFits(e: Entry, base: int)
    requires Storable(e)
    ensures Fits(NewRel(e, base)) && !EmptyRel(NewRel(e, base))
  {}

  /** Slot `i` of written entries is entry `i`, relative and wrapped; it is the entry
      itself if and only if the entry is in range. It never looks empty. */
  lemma SlotOf(es: seq<Entry>, base: int, b: Bytes, i: nat)
    requires i < |es| && RelsBytes(es, base) <= b && Storable(es[i])
    ensures ENTRY_WIDTH * (i + 1) <= |b| && Slot(b, i) == NewRel(es[i], base) && !EmptyRel(Slot(b, i))
    ensures Fill(Slot(b, i), base) == es[i].(epoch := 0) <==> InRange(es[i], base)
  {
    hide RelBytes;
    hide RelsBytes;
    hide NewRel;
    hide ReadRel;
    hide EmptyRel;
    hide Fill;
    hide InRange;
    RelsSlice(es, base, b, i);
    NewRelFits(es[i], base);
    RelBytesRead(NewRel(es[i], base));
    RelRoundTrip(es[i], base);
  }

  lemma OneRel(e: Entry, base: int)
    ensures RelsBytes([e], base) == RelBytes(NewRel(e, base))
  {
    assert [e][..0] == [];
  }

  ghost predicate Zeros(b: Bytes) { forall i :: 0 <= i < |b| ==> b[i] == 0 }

  lemma ZeroSlot(b: Bytes, from: nat, i: nat)
    requires from <= ENTRY_WIDTH * i && ENTRY_WIDTH * (i + 1) <= |b| && Zeros(b[from..])
    ensures EmptyRel(Slot(b, i))
  {
    var w := b[ENTRY_WIDTH * i..ENTRY_WIDTH * (i + 1)];
    forall k | 0 <= k < ENTRY_WIDTH ensures w[k] == 0 { assert w[k] == b[from..][ENTRY_WIDTH * i + k - from]; }
    ZeroValue(w[4..12]);
    ZeroValue(w[12..16]);
    ZeroValue(w[16..20]);
  }

  lemma {:induction false} ZeroValue(b: Bytes)
    requires Zeros(b)
    ensures FromBE(b) == 0
  {
    if b != [] {
      assert Zeros(b[..|b| - 1]);
      ZeroValue(b[..|b| - 1]);
    }
  }

  /** Whole entries only. */
  function RoundDown(total: nat): (r: nat)
    ensures r <= total < r + ENTRY_WIDTH && r % ENTRY_WIDTH == 0
  {
    ENTRY_WIDTH * (total / ENTRY_WIDTH)
  }

  // ----- the index file -----

  function Resized(b: Bytes, n: nat): (r: Bytes)
    ensures |r| == n
    ensures |b| <= n ==> r[..|b|] == b && Zeros(r[|b|..])
    ensures n <= |b| ==> r == b[..n]
  {
    if n <= |b| then b[..n] else b + seq(n - |b|, i => 0)
  }

  function Overwritten(b: Bytes, at: nat, p: Bytes): (r: Bytes)
    requires at + |p| <= |b|
    ensures |r| == |b| && r[..at] == b[..at] && r[at..at + |p|] == p && r[at + |p|..] == b[at + |p|..]
  {
    b[..at] + p + b[at + |p|..]
  }

  datatype Error = Corrupt

  /** `size` is what the index believes its file and mapping to be. */
  class IndexFile {
    const base: int
    const bytes: nat
    var file: Bytes
    var size: nat
    var position: nat

    /** Open for writing: what is mapped is there, and past the entries all is zero. */
    ghost predicate Valid() reads this {
      && |file| == size && position <= size && size % ENTRY_WIDTH == 0 && position % ENTRY_WIDTH == 0
      && Zeros(file[position..])
    }

    ghost predicate Holds(es: seq<Entry>) reads this { position <= |file| && file[..position] == RelsBytes(es, base) }

    /** A new index, preallocated and empty. */
    constructor (base: int, bytes: nat)
      ensures Valid() && Holds([]) && this.base == base && position == 0
    {
      this.base := base;
      this.bytes := if bytes == 0 then DEFAULT_BYTES else bytes;
      var n := RoundDown(if bytes == 0 then DEFAULT_BYTES else bytes);
      file, size, position := Resized([], n), n, 0;
    }

    /** Writes at a position, growing the file if the write reaches its end. Writing
        behind the end of the file is the failure. */
    method WriteAt(p: Bytes, at: nat) returns (ok: bool)
      requires at <= size && |file| <= size && size % ENTRY_WIDTH == 0
      modifies `file, `size
      ensures ok <==> at + |p| <= |file|
      ensures old(|file|) == old(size) ==> ok && |file| == size
      ensures old(|file|) < at + |p| ==> (ok <==> at + |p| >= old(size))
      ensures |p| % ENTRY_WIDTH == 0 ==> size % ENTRY_WIDTH == 0
      ensures ok && at <= old(|file|) ==> file[..at] == old(file)[..at] && file[at..at + |p|] == p
      ensures ok && at <= old(|file|) && Zeros(old(file)[at..]) ==> Zeros(file[at + |p|..])
    {
      if at + |p| >= size { Grow(|p|, at); }
      ok := at + |p| <= |file|;
      if ok {
        TailZeros(file, at, at + |p|);
        file := Overwritten(file, at, p);
      }
    }

    method NewSize(n: nat, at: nat) returns (r: nat)
      requires at <= size && size % ENTRY_WIDTH == 0
      ensures r >= at + n && r >= size && (n % ENTRY_WIDTH == 0 ==> r % ENTRY_WIDTH == 0)
    {
      r := RoundDown(size + bytes);
      if r < at + n { r := size + n; }
    }

    /** Grows the file by a chunk, or by what is to be written if that is more. */
    method Grow(n: nat, at: nat)
      requires at <= size && |file| <= size && size % ENTRY_WIDTH == 0
      modifies `file, `size
      ensures |file| == size >= at + n && size >= old(size)
      ensures n % ENTRY_WIDTH == 0 ==> size % ENTRY_WIDTH == 0
      ensures at <= old(|file|) ==> file[..at] == old(file)[..at]
      ensures at <= old(|file|) && Zeros(old(file)[at..]) ==> Zeros(file[at..])
    {
      hide Zeros;
      hide Resized;
      var newSize := NewSize(n, at);
      file, size := Resized(file, newSize), newSize;
      if at <= |old(file)| { GrownZeros(old(file), at, file); }
    }

    /** Appends entries; there is always room in an index that was not shrunk. */
    method WriteEntries(es: seq<Entry>, ghost written: seq<Entry>)
      requires Valid() && Holds(written)
      modifies `file, `size, `position
      ensures Valid() && Holds(written + es)
    {
      hide Zeros;
      hide RelBytes;
      var b: Bytes := [];
      for i := 0 to |es|
        invariant b == RelsBytes(es[..i], base)
      {
        assert es[..i + 1][..i] == es[..i];
        b := b + RelBytes(NewRel(es[i], base));
      }
      assert es[..|es|] == es;
      var ok := WriteAt(b, position);
      RelsConcat(written, es, base);
      assert file[..position + |b|] == file[..position] + file[position..position + |b|];
      position := position + |b|;
    }

    method ReadEntry(i: nat) returns (r: Option<Entry>)
      requires Valid()
      ensures r == if ENTRY_WIDTH * (i + 1) <= position then Some(Fill(Slot(file, i), base)) else None
    {
      if position < ENTRY_WIDTH * (i + 1) { return None; }
      r := Some(Fill(Slot(file, i), base));
    }

    /** Cuts the file to its contents when the segment is sealed; what the index believes
        about its size stays. */
    method Shrink()
      requires position <= |file|
      modifies `file
      ensures |file| == position && forall es :: old(Holds(es)) ==> Holds(es)
    {
      file := file[..position];
    }

    /** Finds an end of the entries: an empty slot behind one that is not. When all
        empty slots are at the end it is where they begin. The last entry before it is
        given back, or refused if it is below the base offset. */
    method InitializePosition() returns (r: Result<Option<Entry>, Error>)
      requires |file| == size == position
      modifies `position
      ensures position % ENTRY_WIDTH == 0 && position <= size
      ensures position + ENTRY_WIDTH <= size ==> EmptyRel(Slot(file, position / ENTRY_WIDTH))
      ensures forall k: nat :: EndsAt(file, k) ==> position == ENTRY_WIDTH * k
      ensures position == 0 ==> r == Ok(None)
      ensures position > 0 ==>
                && !EmptyRel(Slot(file, position / ENTRY_WIDTH - 1))
                && var last := Fill(Slot(file, position / ENTRY_WIDTH - 1), base);
                   r == if last.offset < base then Err(Corrupt) else Ok(Some(last))
    {
      hide Slot;
      hide EmptyRel;
      hide Fill;
      var n := size / ENTRY_WIDTH;
      var f := file;
      var i := BinarySearch.Search(n, j requires 0 <= j < n && ENTRY_WIDTH * (j + 1) <= |f| => EmptyRel(Slot(f, j)));
      forall k: nat | EndsAt(file, k) ensures i == k {
        assert k < n ==> EmptyRel(Slot(file, k));
      }
      position := ENTRY_WIDTH * i;
      if i == 0 { return Ok(None); }
      var e := Fill(Slot(file, i - 1), base);
      if e.offset < base { return Err(Corrupt); }
      r := Ok(Some(e));
    }
  }

  /** The first `k` slots are taken and the others empty. */
  ghost predicate EndsAt(file: Bytes, k: nat) {
    && ENTRY_WIDTH * k <= |file|
    && forall i :: 0 <= i < |file| / ENTRY_WIDTH ==>
      ENTRY_WIDTH * (i + 1) <= |file| && (EmptyRel(Slot(file, i)) <==> i >= k)
  }

  lemma TailZeros(b: Bytes, from: nat, to: nat)
    requires from <= to <= |b|
    ensures Zeros(b[from..]) ==> Zeros(b[to..])
  {
    forall i | Zeros(b[from..]) && 0 <= i < |b| - to ensures b[to..][i] == 0 {
      assert b[to..][i] == b[from..][to - from + i];
    }
  }

  lemma GrownZeros(a: Bytes, at: nat, b: Bytes)
    requires at <= |a| <= |b| && b[..|a|] == a && Zeros(b[|a|..])
    ensures Zeros(a[at..]) ==> Zeros(b[at..])
  {
    forall i | Zeros(a[at..]) && 0 <= i < |b| - at ensures b[at..][i] == 0 {
      if at + i < |a| {
        assert b[at + i] == b[..|a|][at + i] == a[at..][i];
      } else {
        assert b[at + i] == b[|a|..][at + i - |a|];
      }
    }
  }

  // ----- rebuilding -----

  /** Index entries of the whole records at the front of some bytes. */
  function ScanFrom(b: Bytes, pos: int): seq<Entry>
    decreases |b|
  {
    if |b| < HEADER_LEN then []
    else
      var h, size := ReadHeader(b).value, ReadSize(b).value;
      if size < 0 || size > MAX_MESSAGE || HEADER_LEN + size > |b| then []
      else [Entry(h.offset, h.timestamp, h.epoch, pos, size + HEADER_LEN)]
           + ScanFrom(b[HEADER_LEN + size..], pos + HEADER_LEN + size)
  }

  /** A record longer than 100 MB stops the scan, whatever follows it. */
  lemma LongRecordStops(r: Record, rest: Bytes, pos: int)
    requires r.Valid() && |r.data| > MAX_MESSAGE
    ensures ScanFrom(RecordBytes(r) + rest, pos) == []
  {
    hide RecordBytes;
    hide ScanFrom;
    hide ReadHeader;
    hide ReadSize;
    RecordAtFront(r, rest);
    HeaderReads(r, RecordBytes(r) + rest);
    ScanStep(RecordBytes(r) + rest, pos);
  }

  lemma ScanStep(b: Bytes, pos: int)
    ensures |b| < HEADER_LEN ==> ScanFrom(b, pos) == []
    ensures |b| >= HEADER_LEN ==>
              && ReadHeader(b).Some? && ReadSize(b).Some?
              && var h, size := ReadHeader(b).value, ReadSize(b).value;
                 ScanFrom(b, pos) ==
                 if size < 0 || size > MAX_MESSAGE || HEADER_LEN + size > |b| then []
                 else [Entry(h.offset, h.timestamp, h.epoch, pos, size + HEADER_LEN)]
                      + ScanFrom(b[HEADER_LEN + size..], pos + HEADER_LEN + size)
  {}

  /** The beginning of a record, cut off somewhere. */
  ghost predicate Torn(tail: Bytes) {
    exists r: Record :: r.Valid() && |tail| < r.Size() && tail == RecordBytes(r)[..|tail|]
  }

  lemma TornIsSkipped(tail: Bytes, pos: int)
    requires Torn(tail)
    ensures ScanFrom(tail, pos) == []
  {
    if |tail| >= HEADER_LEN {
      var r: Record :| r.Valid() && |tail| < r.Size() && tail == RecordBytes(r)[..|tail|];
      assert tail[..HEADER_LEN] == Header(r);
      HeaderReads(r, tail);
    }
  }

  ghost predicate Ordinary(rs: seq<Record>) {
    forall i :: 0 <= i < |rs| ==> rs[i].Valid() && |rs[i].data| <= MAX_MESSAGE
  }

  /** Rebuilding from whole records and a torn tail finds exactly the whole records. */
  lemma {:induction false} RebuildFindsWhole(rs: seq<Record>, tail: Bytes, pos: int)
    requires Ordinary(rs) && (tail == [] || Torn(tail))
    ensures ScanFrom(SetBytes(rs) + tail, pos) == EntriesOf(rs, pos)
    decreases |rs|
  {
    hide RecordBytes;
    hide Header;
    hide ReadHeader;
    hide ReadSize;
    hide ScanFrom;
    hide Torn;
    ScanStep(SetBytes(rs) + tail, pos);
    if rs == [] {
      assert SetBytes(rs) + tail == tail;
      if tail != [] { TornIsSkipped(tail, pos); }
    } else {
      var rest := SetBytes(rs[1..]) + tail;
      assert SetBytes(rs) + tail == RecordBytes(rs[0]) + rest;
      RecordAtFront(rs[0], rest);
      HeaderReads(rs[0], SetBytes(rs) + tail);
      RebuildFindsWhole(rs[1..], tail, pos + rs[0].Size());
    }
  }

  /** Rebuilds an index by walking the log file. The position is left at the end of the
      file, from where InitializePosition finds the end of the entries. */
  method RebuildIndex(log: Bytes, base: int) returns (idx: IndexFile)
    ensures fresh(idx) && idx.base == base && |idx.file| == idx.size == idx.position && idx.size % ENTRY_WIDTH == 0
    ensures RelsBytes(ScanFrom(log, 0), base) <= idx.file && Zeros(idx.file[ENTRY_WIDTH * |ScanFrom(log, 0)|..])
  {
    hide RelsBytes;
    hide Zeros;
    hide ReadHeader;
    hide ReadSize;
    hide ScanFrom;
    hide IndexFile.Valid;
    hide IndexFile.Holds;
    idx := new IndexFile(base, 0);
    var pos := 0;
    ghost var done: seq<Entry> := [];
    while pos < |log|
      invariant fresh(idx) && idx.base == base && idx.Valid() && idx.Holds(done) && pos <= |log|
      invariant ScanFrom(log, 0) == done + ScanFrom(log[pos..], pos)
    {
      var b := log[pos..];
      ScanStep(b, pos);
      if |b| < HEADER_LEN { break; }
      var h, size := ReadHeaderAt(b);
      if size < 0 || size > MAX_MESSAGE { break; }
      if pos + HEADER_LEN + size > |log| { break; }
      var e := Entry(h.offset, h.timestamp, h.epoch, pos, size + HEADER_LEN);
      idx.WriteEntries([e], done);
      assert log[pos + HEADER_LEN + size..] == b[HEADER_LEN + size..];
      Regroup(done, e, ScanFrom(b[HEADER_LEN + size..], pos + HEADER_LEN + size));
      done := done + [e];
      pos := pos + HEADER_LEN + size;
    }
    ScanStep(log[pos..], pos);
    assert done + [] == done;
    Written(idx, done);
    idx.position := idx.size;
  }

  lemma Regroup(a: seq<Entry>, e: Entry, b: seq<Entry>)
    ensures a + ([e] + b) == (a + [e]) + b
  {}

  lemma {:induction false} Written(idx: IndexFile, es: seq<Entry>)
    requires idx.Valid() && idx.Holds(es)
    ensures RelsBytes(es, idx.base) <= idx.file && Zeros(idx.file[ENTRY_WIDTH * |es|..])
    ensures |idx.file| == idx.size && idx.size % ENTRY_WIDTH == 0
  {
    RelsLen(es, idx.base);
    assert idx.file[..idx.position] <= idx.file;
  }

  method ReadHeaderAt(b: Bytes) returns (h: Record, size: int)
    requires |b| >= HEADER_LEN
    ensures ReadHeader(b) == Some(h) && ReadSize(b) == Some(size)
  {
    h, size := ReadHeader(b).value, ReadSize(b).value;
  }

  /** A rebuilt index is initialized to as many entries as there are whole records. Its
      last entry is refused if its relative offset is negative or wrapped to be. */
  method Reopen(rs: seq<Record>, tail: Bytes, base: int) returns (idx: IndexFile, r: Result<Option<Entry>, Error>)
    requires Ordinary(rs) && (tail == [] || Torn(tail))
    ensures idx.position == ENTRY_WIDTH * |rs| && idx.Valid() && idx.Holds(EntriesOf(rs, 0))
    ensures rs == [] ==> r == Ok(None)
    ensures rs != [] ==> (r == Err(Corrupt) <==> Wrap32(rs[|rs| - 1].offset - base) < 0)
    ensures rs != [] && |SetBytes(rs)| <= TWO_31 && base <= rs[|rs| - 1].offset < base + TWO_31 ==>
              r == Ok(Some(EntryFor(rs[|rs| - 1], |SetBytes(rs[..|rs| - 1])|).(epoch := 0)))
  {
    hide RelsBytes;
    hide ScanFrom;
    hide EntriesOf;
    hide SetBytes;
    hide EndsAt;
    hide EmptyRel;
    hide Slot;
    RebuildFindsWhole(rs, tail, 0);
    EntryCount(rs, 0);
    ghost var es := EntriesOf(rs, 0);
    idx := RebuildIndex(SetBytes(rs) + tail, base);
    AllStorable(rs);
    SlotsSplit(idx.file, es, base);
    r := idx.InitializePosition();
    if rs != [] {
      SlotOf(es, base, idx.file, |rs| - 1);
      EntryAt(rs, 0, |rs| - 1);
    }
  }

  lemma AllStorable(rs: seq<Record>)
    requires AllValid(rs)
    ensures |EntriesOf(rs, 0)| == |rs| && forall i :: 0 <= i < |rs| ==> Storable(EntriesOf(rs, 0)[i])
  {
    hide EntriesOf;
    hide SetBytes;
    EntryCount(rs, 0);
    forall i | 0 <= i < |rs| ensures Storable(EntriesOf(rs, 0)[i]) { EntryAt(rs, 0, i); }
  }

  lemma SlotsSplit(file: Bytes, es: seq<Entry>, base: int)
    requires RelsBytes(es, base) <= file && Zeros(file[ENTRY_WIDTH * |es|..])
    requires forall i :: 0 <= i < |es| ==> Storable(es[i])
    ensures EndsAt(file, |es|)
  {
    hide RelsBytes;
    hide Zeros;
    hide Slot;
    hide EmptyRel;
    RelsLen(es, base);
    forall i | 0 <= i < |file| / ENTRY_WIDTH
      ensures ENTRY_WIDTH * (i + 1) <= |file| && (EmptyRel(Slot(file, i)) <==> i >= |es|)
    {
      if i < |es| { SlotOf(es, base, file, i); } else { ZeroSlot(file, ENTRY_WIDTH * |es|, i); }
    }
  }

  // ----- a segment with its index -----

  class IndexedSegment {
    const base: int
    const maxBytes: nat
    var log: Bytes
    const index: IndexFile
    ghost var records: seq<Record>

    /** The log holds the records and the index exactly their entries. */
    ghost predicate Agrees() reads this, index {
      index.base == base && log == SetBytes(records) && index.Valid() && index.Holds(EntriesOf(records, 0))
    }

    constructor (base: int, maxBytes: nat)
      ensures Agrees() && records == [] && fresh(index) && this.base == base && this.maxBytes == maxBytes
    {
      this.base, this.maxBytes, log, records := base, maxBytes, [], [];
      index := new IndexFile(base, 0);
    }

    /** Writes a batch to the log and its entries to the index. */
    method WriteMessageSet(rs: seq<Record>)
      requires Agrees()
      modifies `log, `records, index
      ensures Agrees() && records == old(records) + rs && log == old(log) + SetBytes(rs)
    {
      hide SetBytes;
      hide EntriesOf;
      hide RelsBytes;
      SetConcat(records, rs, 0);
      index.WriteEntries(EntriesOf(rs, |log|), EntriesOf(records, 0));
      log, records := log + SetBytes(rs), records + rs;
    }

    /** What the index says of record `i`: its timestamp and size, and its offset and
        position wrapped to 32 bits, which are its own if and only if they are in
        range. */
    method Lookup(i: nat) returns (r: Option<Entry>)
      requires Agrees() && AllValid(records)
      ensures i >= |records| ==> r == None
      ensures i < |records| ==>
                && r == Some(Fill(NewRel(EntryFor(records[i], |SetBytes(records[..i])|), base), base))
                && (r == Some(EntryFor(records[i], |SetBytes(records[..i])|).(epoch := 0)) <==>
                    InRange(EntryFor(records[i], |SetBytes(records[..i])|), base))
    {
      hide SetBytes;
      hide EntriesOf;
      hide RelsBytes;
      hide NewRel;
      hide Fill;
      hide Slot;
      hide EmptyRel;
      hide EntryFor;
      hide InRange;
      hide Storable;
      r := index.ReadEntry(i);
      EntryCount(records, 0);
      RelsLen(EntriesOf(records, 0), base);
      if i < |records| {
        EntryAt(records, 0, i);
        AllStorable(records);
        SlotOf(EntriesOf(records, 0), base, index.file, i);
      }
    }

    /** Written while below its maximum, so at most one batch above it. */
    ghost predicate Bounded(maxBatch: nat) reads this { |log| <= maxBytes + maxBatch }

    /** In a segment that rolls in time for positions to stay below 2^31, the index gives
        back every record exactly if all are near the base offset. */
    lemma LookupsExact(maxBatch: nat)
      requires Agrees() && Bounded(maxBatch) && maxBytes + maxBatch <= TWO_31
      ensures Near(records, base) <==>
              forall i :: 0 <= i < |records| ==> InRange(EntryFor(records[i], |SetBytes(records[..i])|), base)
    {
      hide SetBytes;
      hide EntriesOf;
      hide InRange;
      hide EntryFor;
      SmallSegment(records, base);
      forall i | 0 <= i < |records| ensures EntriesOf(records, 0)[i] == EntryFor(records[i], |SetBytes(records[..i])|) {
        EntryAt(records, 0, i);
      }
    }
  }

  /** Appends a batch, to a new segment if the active one is full or `due` by its age. */
  method AppendBatch(active: IndexedSegment, rs: seq<Record>, next: int, due: bool, ghost maxBatch: nat)
    returns (s: IndexedSegment)
    requires active.Agrees() && active.Bounded(maxBatch) && |SetBytes(rs)| <= maxBatch
    modifies active`log, active`records, active.index
    ensures s.Agrees() && s.Bounded(maxBatch) && s.maxBytes == active.maxBytes
    ensures s == active <==> old(|active.log|) < active.maxBytes && !due
    ensures s == active ==> s.records == old(s.records) + rs
    ensures s != active ==>
            active.Agrees() && active.records == old(active.records) && s.base == next && s.records == rs
  {
    hide SetBytes;
    hide EntriesOf;
    hide RelsBytes;
    hide IndexFile.Valid;
    s := active;
    if |active.log| >= active.maxBytes || due { s := new IndexedSegment(next, active.maxBytes); }
    s.WriteMessageSet(rs);
    assert s != active ==> s.records == rs;
  }

  lemma RelsLen(es: seq<Entry>, base: int)
    ensures |RelsBytes(es, base)| == ENTRY_WIDTH * |es|
  {}

  lemma {:induction false} SetBytesConcat(a: seq<Record>, b: seq<Record>)
    ensures SetBytes(a + b) == SetBytes(a) + SetBytes(b)
    decreases |a|
  {
    hide RecordBytes;
    if a == [] {
      assert a + b == b;
    } else {
      SetBytesConcat(a[1..], b);
      assert (a + b)[1..] == a[1..] + b;
    }
  }

  lemma {:induction false} SetConcat(a: seq<Record>, b: seq<Record>, pos: int)
    ensures SetBytes(a + b) == SetBytes(a) + SetBytes(b)
    ensures EntriesOf(a + b, pos) == EntriesOf(a, pos) + EntriesOf(b, pos + |SetBytes(a)|)
    decreases |a|
  {
    hide RecordBytes;
    hide EntryFor;
    hide SetBytes;
    SetBytesConcat(a, b);
    SetLenStep(a);
    if a == [] {
      assert a + b == b;
    } else {
      SetConcat(a[1..], b, pos + a[0].Size());
      assert (a + b)[1..] == a[1..] + b;
    }
  }

  lemma SetLenStep(a: seq<Record>)
    ensures |SetBytes(a)| == if a == [] then 0 else a[0].Size() + |SetBytes(a[1..])|
  {
    hide RecordBytes;
    if a != [] { RecordAtFront(a[0], SetBytes(a[1..])); }
  }
}
