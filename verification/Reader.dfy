/** The committed reader object: the index and segment searches it makes, opening it, and
    one pass of its read loop. */
module Readers {
  import opened Wrappers
  import opened Messages
  import opened SegmentedLog
  import opened CommittedReader
  import BinarySearch

  /** The first index entry at or above an offset: None if there is none. */
  method FindEntry(msgs: Log, offset: int) returns (e: Option<nat>)
    requires Increasing(msgs)
    ensures e == if EntryAt(msgs, offset) < |msgs| then Some(EntryAt(msgs, offset)) else None
    ensures e.Some? ==> msgs[e.value].offset >= offset && forall i :: 0 <= i < e.value ==> msgs[i].offset < offset
    ensures e.None? ==> forall i :: 0 <= i < |msgs| ==> msgs[i].offset < offset
  {
    var i := BinarySearch.Search(|msgs|, k requires 0 <= k < |msgs| => msgs[k].offset >= offset);
    EntryIs(msgs, offset, i);
    EntryLaw(msgs, offset);
    e := if i == |msgs| then None else Some(i);
  }

  /** The first segment whose base offset is at least `offset`. */
  method FindSegmentByBaseOffset(segs: seq<Seg>, offset: int) returns (i: nat)
    requires forall j, k :: 0 <= j <= k < |segs| ==> segs[j].base <= segs[k].base
    ensures i == FirstFrom(segs, offset)
  {
    i := BinarySearch.Search(|segs|, k requires 0 <= k < |segs| => segs[k].base >= offset);
    var j := FirstFrom(segs, offset);
    assert i < |segs| ==> (segs[i].base < offset || i >= j);
    assert j < |segs| ==> (segs[j].base < offset || j >= i);
  }

  method FindSegmentIndex(segs: seq<Seg>, offset: int) returns (i: nat)
    requires Chain(segs)
    ensures i == FirstAbove(segs, offset)
  {
    hide FirstAbove;
    i := SegmentedLog.FindSegment(segs, offset);
    var j := FirstAbove(segs, offset);
    assert i < |segs| ==> (segs[i].NextOffset() <= offset || i >= j);
    assert j < |segs| ==> (segs[j].NextOffset() <= offset || j >= i);
  }

  method GetHWPos(segs: seq<Seg>, hw: int) returns (r: Option<(nat, nat)>)
    requires Chain(segs)
    ensures r == HWPos(segs, hw)
  {
    hide Before;
    var h := FindSegmentIndex(segs, hw);
    if h == |segs| { return None; }
    var e := FindEntry(segs[h].msgs, hw);
    if e.None? { return None; }
    r := Some((h, Pos(segs[h].msgs, e.value) + HEADER_LEN + segs[h].msgs[e.value].size));
  }

  method NewReaderCommitted(segs: seq<Seg>, hw: int, offset: int) returns (r: Option<Reader>)
    requires segs != [] && Chain(segs)
    ensures r == Open(segs, hw, offset)
  {
    hide Before;
    hide HWPos;
    if offset > hw || segs[0].msgs == [] { return Some(Reader(None, 0, None, 0, hw)); }
    var hwSeg: Option<nat>, hwPos: nat := None, 0;
    if hw != -1 {
      var p := GetHWPos(segs, hw);
      if p.None? { return None; }
      hwSeg, hwPos := Some(p.value.0), p.value.1;
    }
    var s := FindSegmentIndex(segs, offset);
    if s == |segs| { return Some(Reader(None, 0, hwSeg, hwPos, hw)); }
    var pos: nat := 0;
    if segs[s].base <= offset {
      var e := FindEntry(segs[s].msgs, offset);
      if e.None? { return None; }
      pos := Pos(segs[s].msgs, e.value);
    }
    r := Some(Reader(Some(s), pos, hwSeg, hwPos, hw));
  }

  class CommittedLogReader {
    var seg: Option<nat>
    var pos: nat
    var hwSeg: Option<nat>
    var hwPos: nat
    var hw: int

    function State(): Reader reads this { Reader(seg, pos, hwSeg, hwPos, hw) }

    constructor (r: Reader)
      ensures State() == r
    {
      seg, pos, hwSeg, hwPos, hw := r.seg, r.pos, r.hwSeg, r.hwPos, r.hw;
    }

    /** The first read of a reader opened past the watermark, once that has moved. */
    method LocateStart(segs: seq<Seg>, newHW: int) returns (ok: bool)
      requires Chain(segs)
      modifies this
      ensures ok <==> Locate(segs, newHW, old(State())).Some?
      ensures State() == if ok then Locate(segs, newHW, old(State())).value else old(State())
    {
      hide Bytes;
      hide Chain;
      hide FirstAbove;
      hide Before;
      hide HWPos;
      var p := GetHWPos(segs, newHW);
      if p.None? { return false; }
      var s := FindSegmentIndex(segs, hw + 1);
      if s == |segs| { return false; }
      SegmentIncreasing(segs, s);
      var e := FindEntry(segs[s].msgs, hw + 1);
      if e.None? { return false; }
      seg, pos, hwSeg, hwPos, hw := Some(s), Pos(segs[s].msgs, e.value), Some(p.value.0), p.value.1, newHW;
      ok := true;
    }

    /** One pass of the read loop over the segments and watermark of that moment. */
    method ReadPass(segs: seq<Seg>, newHW: int, c: Call) returns (r: Outcome)
      requires Chain(segs) && seg.Some?
      modifies this
      ensures (State(), r) == Pass(segs, newHW, old(State()), c)
              || (r == Failed && Pass(segs, newHW, old(State()), c).1 == Failed)
    {
      hide Sync;
      hide Bytes;
      hide Chain;
      hide FirstFrom;
      var s := seg.value;
      if s >= |segs| || c.known > |segs| { return Failed; }
      var lim := c.want - c.n;
      if seg == hwSeg && hwPos - pos < lim { lim := hwPos - pos; }
      if !(c.n <= lim <= c.want) || pos > Bytes(segs[s].msgs) { return Failed; }
      var size := Bytes(segs[s].msgs) - pos;
      var got := if size < lim - c.n then size else lim - c.n;
      var eof := got < lim - c.n;
      pos := pos + got;
      var call := c.(n := c.n + got);
      if call.n == c.want { return Full; }
      if got != 0 && !eof { return More(call); }
      if eof {
        BasesSorted(segs, c.known);
        var next := FindSegmentByBaseOffset(segs[..c.known], segs[s].base + 1);
        if next == c.known { return Failed; }
        seg, pos := Some(next), 0;
        return More(call);
      }
      r := SyncHW(segs, newHW, call);
    }

    method SyncHW(segs: seq<Seg>, newHW: int, c: Call) returns (r: Outcome)
      requires Chain(segs)
      modifies this
      ensures (State(), r) == Sync(segs, newHW, old(State()), c)
    {
      if newHW == hw { return More(c); }
      var p := GetHWPos(segs, newHW);
      if p.None? { return Failed; }
      hw, hwSeg, hwPos := newHW, Some(p.value.0), p.value.1;
      r := More(c.(known := |segs|));
    }
  }

  lemma SegmentIncreasing(segs: seq<Seg>, s: nat)
    requires Chain(segs) && s < |segs|
    ensures Increasing(segs[s].msgs)
  {}

  lemma BasesSorted(segs: seq<Seg>, known: nat)
    requires Chain(segs) && known <= |segs|
    ensures forall j, k :: 0 <= j <= k < known ==> segs[..known][j].base <= segs[..known][k].base
  {
    forall j, k | 0 <= j <= k < known ensures segs[j].base <= segs[k].base {
      if j < k { NextAboveBase(segs[j]); }
    }
  }
}
