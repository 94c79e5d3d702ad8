/** The two encoders: one only counts bytes, the other writes them into a buffer of the
    counted size. Both walk the headers in an order of their own. */
module Encoders {
  import opened Wrappers
  import opened ByteOrder
  import opened MessageCodec
  import opened Collections

  datatype Error = InvalidStringLength | InvalidByteSliceLength

  // ----- walking part of the headers -----

  /** Distinct keys of the message, not necessarily all. */
  ghost predicate Part(order: seq<Bytes>, m: Msg) {
    && (forall i :: 0 <= i < |order| ==> order[i] in m.headers)
    && (forall i, j :: 0 <= i < j < |order| ==> order[i] != order[j])
  }

  lemma {:induction false} HeadersPush(m: Msg, order: seq<Bytes>, k: Bytes)
    requires (forall i :: 0 <= i < |order| ==> order[i] in m.headers) && k in m.headers
    ensures PutHeaders(m, order + [k]) == PutHeaders(m, order) + PutHeader(m, k)
    ensures HeadersLen(m, order + [k]) == HeadersLen(m, order) + 2 + |k| + BytesLen(m.headers[k])
    decreases |order|
  {
    if order == [] {
      assert order + [k] == [k] && [k][1..] == [];
    } else {
      HeadersPush(m, order[1..], k);
      assert (order + [k])[1..] == order[1..] + [k];
    }
  }

  /** Part of the headers takes no more room than all of them. */
  lemma {:induction false} PartFits(m: Msg, part: seq<Bytes>, all: seq<Bytes>)
    requires Part(part, m) && Part(all, m) && forall i :: 0 <= i < |part| ==> part[i] in all
    ensures HeadersLen(m, part) <= HeadersLen(m, all)
    decreases |part|
  {
    if part != [] {
      var j :| 0 <= j < |all| && all[j] == part[0];
      HeadersLenDrop(m, all, j);
      var rest := Without(all, j);
      forall i | 0 <= i < |part| - 1 ensures part[1..][i] in rest {
        var k :| 0 <= k < |all| && all[k] == part[i + 1];
        assert rest[if k < j then k else k - 1] == part[i + 1];
      }
      PartFits(m, part[1..], rest);
    }
  }

  /** The keys walked so far and the keys left to walk. */
  ghost predicate Walking(order: seq<Bytes>, m: Msg, rest: set<Bytes>) {
    && Part(order, m) && rest <= m.headers.Keys
    && (forall k :: k in m.headers ==> (k in order <==> k !in rest))
  }

  lemma WalkStart(m: Msg)
    ensures Walking([], m, m.headers.Keys) && HeadersLen(m, []) == 0 && PutHeaders(m, []) == []
  {}

  lemma WalkStep(order: seq<Bytes>, m: Msg, rest: set<Bytes>, k: Bytes)
    requires Walking(order, m, rest) && k in rest
    ensures k in m.headers && (forall i :: 0 <= i < |order| ==> order[i] in m.headers)
    ensures Walking(order + [k], m, rest - {k})
  {}

  lemma WalkEnd(order: seq<Bytes>, m: Msg)
    requires Walking(order, m, {})
    ensures Walks(order, m)
  {}

  lemma WalkFits(order: seq<Bytes>, m: Msg, rest: set<Bytes>, k: Bytes, measured: seq<Bytes>)
    requires Walking(order, m, rest) && k in rest && Walks(measured, m)
    ensures k in m.headers && (forall i :: 0 <= i < |order| ==> order[i] in m.headers)
    ensures HeadersLen(m, order) + 2 + |k| + BytesLen(m.headers[k]) <= HeadersLen(m, measured)
  {
    HeadersPush(m, order, k);
    PartFits(m, order + [k], measured);
  }

  // ----- measuring -----

  class LenEncoder {
    var Length: nat

    constructor ()
      ensures Length == 0
    {
      Length := 0;
    }

    method PutInt(n: nat)
      modifies this
      ensures Length == old(Length) + n
    {
      Length := Length + n;
    }

    method PutBytes(x: Option<Bytes>) returns (r: Option<Error>)
      modifies this
      ensures r == if x.Some? && |x.value| > MAX_INT32 then Some(InvalidByteSliceLength) else None
      ensures r.None? ==> Length == old(Length) + BytesLen(x)
    {
      Length := Length + 4;
      if x.None? { return None; }
      if |x.value| > MAX_INT32 { return Some(InvalidByteSliceLength); }
      Length := Length + |x.value|;
      r := None;
    }

    method PutString(s: Bytes) returns (r: Option<Error>)
      modifies this
      ensures r == if |s| > MAX_INT16 then Some(InvalidStringLength) else None
      ensures r.None? ==> Length == old(Length) + 2 + |s|
    {
      Length := Length + 2;
      if |s| > MAX_INT16 { return Some(InvalidStringLength); }
      Length := Length + |s|;
      r := None;
    }

    /** Measures a message, in some order of its headers. Fails exactly if a key, value
        or header is too long. */
    method Measure(m: Msg) returns (r: Option<Error>, ghost order: seq<Bytes>)
      modifies this
      ensures r.None? <==> Encodable(m)
      ensures r.None? ==> Walks(order, m) && Length == old(Length) + MessageCodec.Length(m, order)
    {
      order := [];
      PutInt(6);
      r := PutBytes(m.key);
      if r.Some? { return; }
      r := PutBytes(m.value);
      if r.Some? { return; }
      PutInt(2);
      r, order := MeasureHeaders(m);
    }

    method MeasureHeaders(m: Msg) returns (r: Option<Error>, ghost order: seq<Bytes>)
      modifies this
      ensures r.None? <==> Limits(m)
      ensures r.None? ==> Walks(order, m) && Length == old(Length) + HeadersLen(m, order)
    {
      hide Part;
      order := [];
      WalkStart(m);
      var rest := m.headers.Keys;
      while rest != {}
        invariant Walking(order, m, rest) && forall i :: 0 <= i < |order| ==> order[i] in m.headers
        invariant forall k :: k in m.headers && k !in rest ==>
                    |k| <= MAX_INT16 && (m.headers[k].Some? ==> |m.headers[k].value| <= MAX_INT32)
        invariant Length == old(Length) + HeadersLen(m, order)
        decreases |rest|
      {
        var k :| k in rest;
        WalkStep(order, m, rest, k);
        r := PutString(k);
        if r.Some? { return; }
        r := PutBytes(m.headers[k]);
        if r.Some? { return; }
        HeadersPush(m, order, k);
        order := order + [k];
        rest := rest - {k};
      }
      WalkEnd(order, m);
      r := None;
    }
  }

  // ----- writing -----

  class ByteEncoder {
    const b: array<Byte>
    var off: nat
    /** Positions reserved for checksums. */
    var stack: seq<nat>

    ghost predicate Valid() reads this { off <= b.Length }

    constructor (b: array<Byte>)
      ensures this.b == b && off == 0 && stack == [] && Valid()
    {
      this.b, off, stack := b, 0, [];
    }

    /** Copies bytes to the current position. */
    method PutRawBytes(x: Bytes)
      requires Valid() && off + |x| <= b.Length
      modifies `off, b
      ensures Valid() && off == old(off) + |x| && b[..off] == old(b[..off]) + x
    {
      for i := 0 to |x|
        invariant off == old(off) && b[..off] == old(b[..off])
        invariant b[off..off + i] == x[..i]
      {
        b[off + i] := x[i];
      }
      off := off + |x|;
    }

    method PutUint(x: nat, n: nat)
      requires Valid() && off + n <= b.Length
      modifies `off, b
      ensures Valid() && off == old(off) + n && b[..off] == old(b[..off]) + BE(x, n)
    {
      PutRawBytes(BE(x, n));
    }

    method PutBytes(x: Option<Bytes>)
      requires Valid() && off + BytesLen(x) <= b.Length
      modifies `off, b
      ensures Valid() && off == old(off) + BytesLen(x) && b[..off] == old(b[..off]) + MessageCodec.PutBytes(x)
    {
      if x.None? {
        PutUint(U32(-1), 4);
      } else {
        PutUint(U32(|x.value|), 4);
        PutRawBytes(x.value);
      }
    }

    method PutString(s: Bytes)
      requires Valid() && off + 2 + |s| <= b.Length
      modifies `off, b
      ensures Valid() && off == old(off) + 2 + |s| && b[..off] == old(b[..off]) + MessageCodec.PutString(s)
    {
      PutUint(|s| % TWO_16, 2);
      PutRawBytes(s);
    }

    /** Reserves four bytes for a checksum. */
    method Push()
      requires Valid() && off + 4 <= b.Length
      modifies this
      ensures Valid() && off == old(off) + 4 && stack == old(stack) + [old(off)]
    {
      stack, off := stack + [off], off + 4;
    }

    /** Fills in the checksum of everything written since the last Push. */
    method Pop(crc: Bytes -> nat)
      requires Valid() && stack != [] && stack[|stack| - 1] + 4 <= off
      modifies `stack, b
      ensures Valid() && stack == old(stack)[..|old(stack)| - 1] && off == old(off)
      ensures var at := old(stack)[|old(stack)| - 1];
              b[..off] == old(b[..at]) + BE(crc(old(b[at + 4..off])), 4) + old(b[at + 4..off])
    {
      var at := stack[|stack| - 1];
      stack := stack[..|stack| - 1];
      var sum := BE(crc(b[at + 4..off]), 4);
      b[at], b[at + 1], b[at + 2], b[at + 3] := sum[0], sum[1], sum[2], sum[3];
      assert b[..at] == old(b[..at]) && b[at..at + 4] == sum && b[at + 4..off] == old(b[at + 4..off]);
      assert b[..off] == b[..at] + b[at..at + 4] + b[at + 4..off];
    }

    method PutHeaders(m: Msg, ghost measured: seq<Bytes>) returns (ghost order: seq<Bytes>)
      requires Valid() && Walks(measured, m) && off + HeadersLen(m, measured) <= b.Length
      modifies `off, b
      ensures Valid() && Walks(order, m) && off == old(off) + HeadersLen(m, order)
      ensures b[..off] == old(b[..off]) + MessageCodec.PutHeaders(m, order)
    {
      hide Part;
      hide Walking;
      hide Walks;
      hide MessageCodec.PutHeaders;
      hide MessageCodec.PutHeader;
      hide HeadersLen;
      order := [];
      WalkStart(m);
      var rest := m.headers.Keys;
      assert b[..off] == old(b[..off]) + [];
      while rest != {}
        invariant Valid() && Walking(order, m, rest) && forall i :: 0 <= i < |order| ==> order[i] in m.headers
        invariant off == old(off) + HeadersLen(m, order)
        invariant b[..off] == old(b[..off]) + MessageCodec.PutHeaders(m, order)
        decreases |rest|
      {
        var k :| k in rest;
        WalkFits(order, m, rest, k, measured);
        WalkStep(order, m, rest, k);
        HeadersPush(m, order, k);
        PutHeader(m, k);
        order, rest := order + [k], rest - {k};
      }
      WalkEnd(order, m);
    }

    method PutHeader(m: Msg, k: Bytes)
      requires Valid() && k in m.headers && off + 2 + |k| + BytesLen(m.headers[k]) <= b.Length
      modifies `off, b
      ensures Valid() && off == old(off) + 2 + |k| + BytesLen(m.headers[k])
      ensures b[..off] == old(b[..off]) + MessageCodec.PutHeader(m, k)
    {
      PutString(k);
      PutBytes(m.headers[k]);
    }
  }

  /** Writes a message into a buffer of the measured size. */
  method EncodeInto(e: ByteEncoder, m: Msg, crc: Bytes -> nat, ghost measured: seq<Bytes>)
    returns (ghost order: seq<Bytes>)
    requires e.Valid() && e.off == 0 && e.stack == [] && Walks(measured, m) && e.b.Length == Length(m, measured)
    modifies e, e.b
    ensures Walks(order, m) && e.b[..] == Encoded(m, order, crc)
  {
    hide MessageCodec.PutHeaders;
    hide MessageCodec.PutBytes;
    hide HeadersLen;
    hide BE;
    e.Push();
    order := PutBody(e, m, measured);
    e.Pop(crc);
    assert e.b[..e.off] == e.b[..];
    assert [] + BE(crc(Body(m, order)), 4) == BE(crc(Body(m, order)), 4);
  }

  method PutBody(e: ByteEncoder, m: Msg, ghost measured: seq<Bytes>) returns (ghost order: seq<Bytes>)
    requires e.Valid() && Walks(measured, m) && e.off == 4 && e.b.Length == Length(m, measured)
    modifies e`off, e.b
    ensures Walks(order, m) && e.off == e.b.Length && e.b[4..e.off] == Body(m, order)
  {
    hide MessageCodec.PutHeaders;
    hide MessageCodec.PutBytes;
    hide HeadersLen;
    hide BE;
    ghost var start := e.b[..4];
    e.PutUint(m.magic, 1);
    e.PutUint(m.attributes, 1);
    OneByte(m.magic);
    OneByte(m.attributes);
    assert e.b[..6] == start + [m.magic, m.attributes];
    e.PutBytes(m.key);
    e.PutBytes(m.value);
    e.PutUint(|m.headers| % TWO_16, 2);
    order := e.PutHeaders(m, measured);
    SameRoom(m, measured, order);
    assert e.b[..e.off] == start + Body(m, order);
    assert e.b[4..e.off] == e.b[..e.off][4..];
  }

  lemma OneByte(x: Byte)
    ensures BE(x, 1) == [x]
  {
    assert BE(x / 256, 0) == [];
  }

  lemma SameRoom(m: Msg, a: seq<Bytes>, b: seq<Bytes>)
    requires Walks(a, m) && Walks(b, m)
    ensures HeadersLen(m, a) == HeadersLen(m, b)
  {
    assert SameKeys(a, b);
    HeadersLenAnyOrder(m, a, b);
  }

  /** Encoding: measure, allocate, write. */
  method Encode(m: Msg, crc: Bytes -> nat) returns (r: Result<array<Byte>, Error>, ghost order: seq<Bytes>)
    ensures r.Ok? <==> Encodable(m)
    ensures r.Ok? ==> Walks(order, m) && fresh(r.value) && r.value[..] == Encoded(m, order, crc)
  {
    var len := new LenEncoder();
    var e, measured := len.Measure(m);
    order := [];
    if e.Some? { return Err(e.value), []; }
    var b := new Byte[len.Length];
    var enc := new ByteEncoder(b);
    order := EncodeInto(enc, m, crc, measured);
    r := Ok(b);
  }

  // ----- reading headers -----

  /** Reads the headers one after the other, moving a cursor. */
  method ReadHeaders(b: Bytes, at: int, count: nat) returns (r: Option<map<Bytes, Bytes>>)
    ensures r == GetHeaders(b, at, count, map[])
  {
    var headers: map<Bytes, Bytes>, n := map[], at;
    for i := 0 to count
      invariant GetHeaders(b, at, count, map[]) == GetHeaders(b, n, count - i, headers)
    {
      var h := GetHeader(b, n);
      if h.None? { return None; }
      headers, n := headers[h.value.0 := h.value.1], h.value.2;
    }
    r := Some(headers);
  }
}
