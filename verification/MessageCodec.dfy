/** The serialized message: checksum, magic byte, attributes, key, value and headers.
    Headers are a map, written in whatever order the map is walked, which may differ
    between the pass that measures and the pass that writes. */
module MessageCodec {
  import opened Wrappers
  import opened ByteOrder
  import opened Collections

  type Bytes = seq<Byte>

  /** Nil and empty are different values. */
  datatype Msg = Msg(magic: Byte, attributes: Byte, key: Option<Bytes>, value: Option<Bytes>,
                     headers: map<Bytes, Option<Bytes>>)

  // ----- encoding -----

  /** A size-prefixed byte slice; size -1 stands for nil. */
  function PutBytes(x: Option<Bytes>): Bytes {
    if x.None? then BE(U32(-1), 4) else BE(U32(|x.value|), 4) + x.value
  }

  function PutString(s: Bytes): Bytes { BE(|s| % TWO_16, 2) + s }

  function PutHeader(m: Msg, k: Bytes): Bytes
    requires k in m.headers
  {
    PutString(k) + PutBytes(m.headers[k])
  }

  function PutHeaders(m: Msg, order: seq<Bytes>): Bytes
    requires forall i :: 0 <= i < |order| ==> order[i] in m.headers
    decreases |order|
  {
    if order == [] then [] else PutHeader(m, order[0]) + PutHeaders(m, order[1..])
  }

  /** `order` walks the map: every key once. */
  ghost predicate Walks(order: seq<Bytes>, m: Msg) {
    && (forall i :: 0 <= i < |order| ==> order[i] in m.headers)
    && (forall k :: k in m.headers ==> k in order)
    && (forall i, j :: 0 <= i < j < |order| ==> order[i] != order[j])
  }

  /** Everything the checksum covers. */
  function Body(m: Msg, order: seq<Bytes>): Bytes
    requires forall i :: 0 <= i < |order| ==> order[i] in m.headers
  {
    [m.magic, m.attributes]
    + (PutBytes(m.key) + (PutBytes(m.value) + (BE(|m.headers| % TWO_16, 2) + PutHeaders(m, order))))
  }

  function Encoded(m: Msg, order: seq<Bytes>, crc: Bytes -> nat): Bytes
    requires forall i :: 0 <= i < |order| ==> order[i] in m.headers
  {
    BE(crc(Body(m, order)), 4) + Body(m, order)
  }

  // ----- measuring -----

  function BytesLen(x: Option<Bytes>): nat { if x.None? then 4 else 4 + |x.value| }

  function HeadersLen(m: Msg, order: seq<Bytes>): nat
    requires forall i :: 0 <= i < |order| ==> order[i] in m.headers
    decreases |order|
  {
    if order == [] then 0 else 2 + |order[0]| + BytesLen(m.headers[order[0]]) + HeadersLen(m, order[1..])
  }

  function Length(m: Msg, order: seq<Bytes>): nat
    requires forall i :: 0 <= i < |order| ==> order[i] in m.headers
  {
    4 + 1 + 1 + BytesLen(m.key) + BytesLen(m.value) + 2 + HeadersLen(m, order)
  }

  lemma {:induction false} HeadersMeasured(m: Msg, order: seq<Bytes>)
    requires forall i :: 0 <= i < |order| ==> order[i] in m.headers
    ensures |PutHeaders(m, order)| == HeadersLen(m, order)
    decreases |order|
  {
    if order != [] { HeadersMeasured(m, order[1..]); }
  }

  lemma {:induction false} HeadersLenDrop(m: Msg, order: seq<Bytes>, j: nat)
    requires j < |order| && forall i :: 0 <= i < |order| ==> order[i] in m.headers
    ensures HeadersLen(m, order) == 2 + |order[j]| + BytesLen(m.headers[order[j]]) + HeadersLen(m, Without(order, j))
    decreases |order|
  {
    if j == 0 {
      assert order[..0] + order[1..] == order[1..];
    } else {
      HeadersLenDrop(m, order[1..], j - 1);
      var rest := order[..j] + order[j + 1..];
      assert rest[1..] == order[1..][..j - 1] + order[1..][j..];
    }
  }

  /** Two lists of the same keys, each key once. */
  ghost predicate SameKeys<T(!new)>(a: seq<T>, b: seq<T>) {
    && (forall i, j :: 0 <= i < j < |a| ==> a[i] != a[j])
    && (forall i, j :: 0 <= i < j < |b| ==> b[i] != b[j])
    && (forall x :: x in a <==> x in b)
  }

  lemma SameKeysWithout<T(!new)>(a: seq<T>, b: seq<T>, j: nat)
    requires SameKeys(a, b) && a != [] && j < |b| && b[j] == a[0]
    ensures SameKeys(a[1..], Without(b, j))
  {
    hide Without;
    var c := Without(b, j);
    forall x | x in c ensures x in a[1..] {
      var k :| 0 <= k < |c| && c[k] == x;
      assert x == b[if k < j then k else k + 1] && x in a && x != a[0];
    }
    forall x | x in a[1..] ensures x in c {
      var i :| 0 <= i < |a| - 1 && a[1..][i] == x;
      assert x == a[i + 1] && x in b;
      var k :| 0 <= k < |b| && b[k] == x;
      assert c[if k < j then k else k - 1] == x;
    }
  }

  /** The same keys in another order take the same room. */
  lemma {:induction false} HeadersLenAnyOrder(m: Msg, a: seq<Bytes>, b: seq<Bytes>)
    requires forall i :: 0 <= i < |a| ==> a[i] in m.headers
    requires forall i :: 0 <= i < |b| ==> b[i] in m.headers
    requires SameKeys(a, b)
    ensures HeadersLen(m, a) == HeadersLen(m, b)
    decreases |a|
  {
    if a == [] {
      assert forall i :: 0 <= i < |b| ==> b[i] in a;
    } else {
      assert a[0] in b;
      var j :| 0 <= j < |b| && b[j] == a[0];
      SameKeysWithout(a, b, j);
      HeadersLenDrop(m, b, j);
      HeadersLenAnyOrder(m, a[1..], Without(b, j));
    }
  }

  /** The measuring pass finds exactly the number of bytes the writing pass writes,
      whatever order each of them walks the headers in. */
  lemma LengthPass(m: Msg, measured: seq<Bytes>, written: seq<Bytes>, crc: Bytes -> nat)
    requires Walks(measured, m) && Walks(written, m)
    ensures Length(m, measured) == |Encoded(m, written, crc)|
  {
    assert SameKeys(measured, written);
    HeadersLenAnyOrder(m, measured, written);
    HeadersMeasured(m, written);
  }

  // ----- decoding -----

  /** A slice of the message; None where Go would panic. */
  function Slice(b: Bytes, from: int, to: int): Option<Bytes> {
    if 0 <= from <= to <= |b| then Some(b[from..to]) else None
  }

  /** Where a size-prefixed slice at `start` ends, and its size. */
  function Offsets(b: Bytes, start: int): Option<(int, int)> {
    match Uint(b, start, 4)
    case None => None
    case Some(u) => Some((start + 4 + (if S32(u) != -1 then S32(u) else 0), S32(u)))
  }

  function GetBytes(b: Bytes, start: int): Option<Option<Bytes>> {
    match Offsets(b, start)
    case None => None
    case Some((end, size)) =>
      if size == -1 then Some(None)
      else match Slice(b, start + 4, end) { case None => None case Some(x) => Some(Some(x)) }
  }

  function Key(b: Bytes): Option<Option<Bytes>> { GetBytes(b, 6) }

  function Value(b: Bytes): Option<Option<Bytes>> {
    match Offsets(b, 6)
    case None => None
    case Some((end, _)) => GetBytes(b, end)
  }

  /** One header at a position: its key, its value and where the next one starts. */
  function GetHeader(b: Bytes, n: int): Option<(Bytes, Bytes, int)> {
    match Uint(b, n, 2)
    case None => None
    case Some(k) =>
      match (Slice(b, n + 2, n + 2 + k), Uint(b, n + 2 + k, 4)) {
        case (Some(key), Some(v)) =>
          (match Slice(b, n + 6 + k, n + 6 + k + S32(v)) {
             case Some(value) => Some((key, value, n + 6 + k + S32(v)))
             case None => None
           })
        case _ => None
      }
  }

  function GetHeaders(b: Bytes, n: int, count: nat, acc: map<Bytes, Bytes>): Option<map<Bytes, Bytes>>
    decreases count
  {
    if count == 0 then Some(acc)
    else match GetHeader(b, n)
      case None => None
      case Some((k, v, next)) => GetHeaders(b, next, count - 1, acc[k := v])
  }

  function Headers(b: Bytes): Option<map<Bytes, Bytes>> {
    match Offsets(b, 6)
    case None => None
    case Some((keyEnd, _)) =>
      match Offsets(b, keyEnd) {
        case None => None
        case Some((end, _)) =>
          (match Uint(b, end, 2) {
             case None => None
             case Some(count) => GetHeaders(b, end + 2, count, map[])
           })
      }
  }

  // ----- round trips -----

  /** What fits: string lengths in 15 bits, the whole message in 31 bits. The number of
      headers is not checked. */
  ghost predicate Fits(m: Msg, order: seq<Bytes>)
    requires forall i :: 0 <= i < |order| ==> order[i] in m.headers
  {
    && (forall k :: k in m.headers ==> |k| <= MAX_INT16)
    && Length(m, order) <= MAX_INT32
  }

  lemma SizePrefix(x: Option<Bytes>)
    requires x.Some? ==> |x.value| <= MAX_INT32
    ensures var u := if x.None? then U32(-1) else U32(|x.value|);
            u < Pow256(4) && S32(u) == if x.None? then -1 else |x.value|
  {
    PowValues();
  }

  lemma GetBytesReads(b: Bytes, start: int, x: Option<Bytes>)
    requires Stands(b, start, PutBytes(x)) && (x.Some? ==> |x.value| <= MAX_INT32)
    ensures GetBytes(b, start) == Some(x)
    ensures Offsets(b, start) == Some((start + |PutBytes(x)|, if x.None? then -1 else |x.value|))
  {
    hide BE;
    hide FromBE;
    hide U32;
    hide S32;
    SizePrefix(x);
    if x.None? {
      UintReads(b, start, U32(-1), 4);
    } else {
      StandsConcat(b, start, BE(U32(|x.value|), 4), x.value);
      UintReads(b, start, U32(|x.value|), 4);
    }
  }

  lemma GetHeaderReads(b: Bytes, n: int, m: Msg, k: Bytes)
    requires k in m.headers && Stands(b, n, PutHeader(m, k)) && |k| <= MAX_INT16
    requires m.headers[k].Some? ==> |m.headers[k].value| <= MAX_INT32
    ensures m.headers[k].Some? ==> GetHeader(b, n) == Some((k, m.headers[k].value, n + |PutHeader(m, k)|))
    ensures m.headers[k].None? ==> GetHeader(b, n) == None
  {
    hide BE;
    hide FromBE;
    hide U32;
    hide S32;
    var x := m.headers[k];
    PowValues();
    SizePrefix(x);
    StandsConcat(b, n, PutString(k), PutBytes(x));
    StandsConcat(b, n, BE(|k| % TWO_16, 2), k);
    UintReads(b, n, |k| % TWO_16, 2);
    if x.None? {
      UintReads(b, n + 2 + |k|, U32(-1), 4);
    } else {
      StandsConcat(b, n + 2 + |k|, BE(U32(|x.value|), 4), x.value);
      UintReads(b, n + 2 + |k|, U32(|x.value|), 4);
    }
  }

  ghost predicate Limits(m: Msg) {
    forall k :: k in m.headers ==> |k| <= MAX_INT16 && (m.headers[k].Some? ==> |m.headers[k].value| <= MAX_INT32)
  }

  /** Every part within the length its size field can hold. */
  ghost predicate Encodable(m: Msg) {
    Limits(m) && (m.key.Some? ==> |m.key.value| <= MAX_INT32) && (m.value.Some? ==> |m.value.value| <= MAX_INT32)
  }

  /** The headers of `m` named by `done`, as a reader sees them. */
  ghost function Named(m: Msg, done: set<Bytes>): map<Bytes, Bytes>
    requires forall k :: k in done ==> k in m.headers && m.headers[k].Some?
  {
    map k | k in done :: m.headers[k].value
  }

  ghost predicate NoNil(m: Msg, order: seq<Bytes>) {
    forall k :: k in order ==> k in m.headers && m.headers[k].Some?
  }

  lemma {:induction false} GetHeadersReads(b: Bytes, n: int, m: Msg, order: seq<Bytes>, done: set<Bytes>,
                                           acc: map<Bytes, Bytes>)
    requires forall i :: 0 <= i < |order| ==> order[i] in m.headers
    requires Stands(b, n, PutHeaders(m, order)) && Limits(m) && NoNil(m, order)
    requires (forall k :: k in done ==> k in m.headers && m.headers[k].Some?) && acc == Named(m, done)
    ensures GetHeaders(b, n, |order|, acc) == Some(Named(m, done + ToSet(order)))
    decreases |order|
  {
    hide PutHeader;
    hide GetHeader;
    hide Stands;
    hide Limits;
    hide ToSet;
    hide Named;
    KeySetStep(order, done);
    if order != [] {
      var k := order[0];
      assert k in order;
      StandsConcat(b, n, PutHeader(m, k), PutHeaders(m, order[1..]));
      LimitsAt(m, k);
      GetHeaderReads(b, n, m, k);
      NamedAdd(m, done, k);
      GetHeadersReads(b, n + |PutHeader(m, k)|, m, order[1..], done + {k}, acc[k := m.headers[k].value]);
    }
  }

  lemma KeySetStep(order: seq<Bytes>, done: set<Bytes>)
    ensures order == [] ==> done + ToSet(order) == done
    ensures order != [] ==> done + {order[0]} + ToSet(order[1..]) == done + ToSet(order)
  {}

  lemma NamedAdd(m: Msg, done: set<Bytes>, k: Bytes)
    requires (forall x :: x in done ==> x in m.headers && m.headers[x].Some?) && k in m.headers && m.headers[k].Some?
    ensures Named(m, done)[k := m.headers[k].value] == Named(m, done + {k})
  {}

  lemma LimitsAt(m: Msg, k: Bytes)
    requires Limits(m) && k in m.headers
    ensures |k| <= MAX_INT16 && (m.headers[k].Some? ==> |m.headers[k].value| <= MAX_INT32)
  {}

  lemma {:induction false} GetHeadersFails(b: Bytes, n: int, m: Msg, order: seq<Bytes>, acc: map<Bytes, Bytes>)
    requires forall i :: 0 <= i < |order| ==> order[i] in m.headers
    requires Stands(b, n, PutHeaders(m, order)) && Limits(m) && !NoNil(m, order)
    ensures GetHeaders(b, n, |order|, acc) == None
    decreases |order|
  {
    hide PutHeader;
    hide GetHeader;
    hide Stands;
    hide Limits;
    var k := order[0];
    StandsConcat(b, n, PutHeader(m, k), PutHeaders(m, order[1..]));
    LimitsAt(m, k);
    GetHeaderReads(b, n, m, k);
    if m.headers[k].Some? {
      GetHeadersFails(b, n + |PutHeader(m, k)|, m, order[1..], acc[k := m.headers[k].value]);
    }
  }

  lemma WalksAll(m: Msg, order: seq<Bytes>)
    requires Walks(order, m)
    ensures ToSet(order) == m.headers.Keys && |order| == |m.headers|
  {
    assert ToSet(order) == m.headers.Keys;
    DistinctCount(order);
  }

  lemma {:induction false} DistinctCount(order: seq<Bytes>)
    requires forall i, j :: 0 <= i < j < |order| ==> order[i] != order[j]
    ensures |ToSet(order)| == |order|
  {
    if order != [] {
      DistinctCount(order[1..]);
      assert ToSet(order) == {order[0]} + ToSet(order[1..]);
      assert order[0] !in ToSet(order[1..]);
    }
  }

  /** A read-back message has the key and the value it was written with, nil and empty
      apart. */
  lemma RoundTrip(m: Msg, order: seq<Bytes>, crc: Bytes -> nat)
    requires Walks(order, m) && Fits(m, order)
    ensures var b := Encoded(m, order, crc);
            b[4] == m.magic && b[5] == m.attributes && Key(b) == Some(m.key) && Value(b) == Some(m.value)
    ensures var end := 6 + |PutBytes(m.key)| + |PutBytes(m.value)|;
            && Offsets(Encoded(m, order, crc), 6) ==
              Some((6 + |PutBytes(m.key)|, if m.key.None? then -1 else |m.key.value|))
            && Offsets(Encoded(m, order, crc), 6 + |PutBytes(m.key)|) ==
               Some((end, if m.value.None? then -1 else |m.value.value|))
  {
    hide BE;
    hide PutBytes;
    hide GetBytes;
    hide Offsets;
    hide Stands;
    hide Limits;
    var b := Encoded(m, order, crc);
    SizesFit(m, order);
    Layout(m, order, crc);
    GetBytesReads(b, 6, m.key);
    GetBytesReads(b, 6 + |PutBytes(m.key)|, m.value);
  }

  /** The checksum read from the first four bytes is that of all the bytes behind them. */
  lemma ChecksumHolds(m: Msg, order: seq<Bytes>, crc: Bytes -> nat)
    requires forall i :: 0 <= i < |order| ==> order[i] in m.headers
    requires crc(Encoded(m, order, crc)[4..]) < TWO_32
    ensures Uint(Encoded(m, order, crc), 0, 4) == Some(crc(Encoded(m, order, crc)[4..]))
  {
    hide Body;
    hide BE;
    hide FromBE;
    var b, body := Encoded(m, order, crc), Body(m, order);
    assert b[4..] == body;
    PowValues();
    StandsWhole(b);
    StandsConcat(b, 0, BE(crc(body), 4), body);
    UintReads(b, 0, crc(body), 4);
  }

  lemma {:induction false} HeadersConcat(m: Msg, a: seq<Bytes>, b: seq<Bytes>)
    requires forall i :: 0 <= i < |a| ==> a[i] in m.headers
    requires forall i :: 0 <= i < |b| ==> b[i] in m.headers
    ensures PutHeaders(m, a + b) == PutHeaders(m, a) + PutHeaders(m, b)
    decreases |a|
  {
    hide PutHeader;
    if a == [] {
      assert a + b == b;
    } else {
      HeadersConcat(m, a[1..], b);
      assert (a + b)[1..] == a[1..] + b;
    }
  }

  /** The headers the count field speaks of: its 16 bits wrap. */
  function Counted(m: Msg, order: seq<Bytes>): seq<Bytes>
    requires |order| == |m.headers|
  {
    order[..|m.headers| % TWO_16]
  }

  /** Reading the headers back gives the first ones written, as many as the 16-bit count
      says, unless one of them has a nil value, which makes the read fail. */
  lemma HeadersRoundTrip(m: Msg, order: seq<Bytes>, crc: Bytes -> nat)
    requires (forall i :: 0 <= i < |order| ==> order[i] in m.headers) && Walks(order, m) && Fits(m, order)
    ensures |order| == |m.headers|
    ensures Headers(Encoded(m, order, crc)) ==
            if NoNil(m, Counted(m, order)) then Some(Named(m, ToSet(Counted(m, order)))) else None
  {
    hide BE;
    hide PutBytes;
    hide Headers;
    hide GetHeaders;
    hide PutHeaders;
    hide Stands;
    hide Limits;
    hide NoNil;
    hide Named;
    hide Encoded;
    hide Walks;
    hide Fits;
    var b := Encoded(m, order, crc);
    HeadersAt(m, order, crc);
    SizesFit(m, order);
    Layout(m, order, crc);
    WalksAll(m, order);
    var end := 6 + |PutBytes(m.key)| + |PutBytes(m.value)|;
    var first, others := Counted(m, order), order[|m.headers| % TWO_16..];
    assert order == first + others;
    HeadersConcat(m, first, others);
    StandsConcat(b, end + 2, PutHeaders(m, first), PutHeaders(m, others));
    if NoNil(m, first) {
      NamedNone(m);
      GetHeadersReads(b, end + 2, m, first, {}, map[]);
      assert {} + ToSet(first) == ToSet(first);
    } else {
      GetHeadersFails(b, end + 2, m, first, map[]);
    }
  }

  /** All headers are read back if and only if none is nil and there are fewer than
      65536 of them. */
  lemma AllHeadersBack(m: Msg, order: seq<Bytes>, crc: Bytes -> nat)
    requires (forall i :: 0 <= i < |order| ==> order[i] in m.headers) && Walks(order, m) && Fits(m, order)
    ensures (Headers(Encoded(m, order, crc)).Some? && Headers(Encoded(m, order, crc)).value.Keys == m.headers.Keys)
            <==> NoNil(m, order) && |m.headers| < TWO_16
    ensures NoNil(m, order) && |m.headers| < TWO_16 ==>
              Headers(Encoded(m, order, crc)) == Some(Named(m, m.headers.Keys))
  {
    hide Headers;
    hide Encoded;
    hide Fits;
    HeadersRoundTrip(m, order, crc);
    WalksAll(m, order);
    var first := Counted(m, order);
    if |m.headers| < TWO_16 {
      assert first == order;
    } else {
      assert order[|first|] in m.headers.Keys && order[|first|] !in ToSet(first);
    }
  }

  lemma HeadersAt(m: Msg, order: seq<Bytes>, crc: Bytes -> nat)
    requires (forall i :: 0 <= i < |order| ==> order[i] in m.headers) && Walks(order, m) && Fits(m, order)
    ensures var b := Encoded(m, order, crc);
            var end := 6 + |PutBytes(m.key)| + |PutBytes(m.value)|;
            Headers(b) == GetHeaders(b, end + 2, |m.headers| % TWO_16, map[])
  {
    hide Fits;
    hide Limits;
    hide FromBE;
    hide Pow256;
    hide Body;
    hide PutHeaders;
    hide BE;
    hide PutBytes;
    hide Offsets;
    hide GetHeaders;
    hide Uint;
    hide Stands;
    hide Encoded;
    hide Walks;
    var b := Encoded(m, order, crc);
    PowValues();
    Layout(m, order, crc);
    RoundTrip(m, order, crc);
    UintReads(b, 6 + |PutBytes(m.key)| + |PutBytes(m.value)|, |m.headers| % TWO_16, 2);
  }

  lemma NamedNone(m: Msg)
    ensures Named(m, {}) == map[]
  {}

  lemma Layout(m: Msg, order: seq<Bytes>, crc: Bytes -> nat)
    requires forall i :: 0 <= i < |order| ==> order[i] in m.headers
    ensures var b := Encoded(m, order, crc);
            var keyEnd := 6 + |PutBytes(m.key)|;
            var end := keyEnd + |PutBytes(m.value)|;
            && |b| >= 6 && b[4] == m.magic && b[5] == m.attributes
            && Stands(b, 6, PutBytes(m.key)) && Stands(b, keyEnd, PutBytes(m.value))
            && Stands(b, end, BE(|m.headers| % TWO_16, 2)) && Stands(b, end + 2, PutHeaders(m, order))
  {
    hide Stands;
    hide BE;
    hide PutBytes;
    hide PutHeaders;
    var b, c, hs := Encoded(m, order, crc), BE(|m.headers| % TWO_16, 2), PutHeaders(m, order);
    StandsWhole(b);
    StandsConcat(b, 0, BE(crc(Body(m, order)), 4), Body(m, order));
    StandsConcat(b, 4, [m.magic, m.attributes], PutBytes(m.key) + (PutBytes(m.value) + (c + hs)));
    StandsConcat(b, 6, PutBytes(m.key), PutBytes(m.value) + (c + hs));
    StandsConcat(b, 6 + |PutBytes(m.key)|, PutBytes(m.value), c + hs);
    StandsConcat(b, 6 + |PutBytes(m.key)| + |PutBytes(m.value)|, c, hs);
    StandsTwo(b, 4, m.magic, m.attributes);
  }

  /** A message that fits has parts that fit. */
  lemma SizesFit(m: Msg, order: seq<Bytes>)
    requires Walks(order, m) && Fits(m, order)
    ensures Encodable(m)
  {
    forall k | k in m.headers ensures |k| <= MAX_INT16 && (m.headers[k].Some? ==> |m.headers[k].value| <= MAX_INT32) {
      var j :| 0 <= j < |order| && order[j] == k;
      HeadersLenDrop(m, order, j);
    }
  }
}
