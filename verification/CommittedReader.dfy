/** Reading committed messages while the log grows. A segment is a file of messages one
    after the other; a message is a 28-byte header and its payload. Appends, segment
    rolls and high-watermark advances may come between any two actions of the reader. */
module CommittedReader {
  import opened Wrappers
  import opened Messages
  import opened SegmentedLog
  import BinarySearch

  // ----- positions -----

  /** The byte position of message `i` in its segment. */
  function Pos(msgs: Log, i: nat): nat
    requires i <= |msgs|
  {
    Bytes(msgs[..i])
  }

  /** The number of messages below an offset: where the index search ends. */
  function EntryAt(msgs: Log, offset: int): nat { |Before(msgs, offset)| }

  /** The first segment whose next offset is above `offset`. */
  function FirstAbove(segs: seq<Seg>, offset: int): (i: nat)
    ensures i <= |segs|
    ensures forall j :: 0 <= j < i ==> segs[j].NextOffset() <= offset
    ensures i < |segs| ==> segs[i].NextOffset() > offset
  {
    if segs == [] || segs[0].NextOffset() > offset then 0 else 1 + FirstAbove(segs[1..], offset)
  }

  /** The first segment whose base is at least `offset`. */
  function FirstFrom(segs: seq<Seg>, offset: int): (i: nat)
    ensures i <= |segs|
    ensures forall j :: 0 <= j < i ==> segs[j].base < offset
    ensures i < |segs| ==> segs[i].base >= offset
  {
    if segs == [] || segs[0].base >= offset then 0 else 1 + FirstFrom(segs[1..], offset)
  }

  /** The segment and the end position of the message at the watermark. */
  function HWPos(segs: seq<Seg>, hw: int): Option<(nat, nat)> {
    var h := FirstAbove(segs, hw);
    if h == |segs| then None
    else
      var e := EntryAt(segs[h].msgs, hw);
      if e >= |segs[h].msgs| then None
      else Some((h, Pos(segs[h].msgs, e) + HEADER_LEN + segs[h].msgs[e].size))
  }

  // ----- the reader -----

  /** `seg` is None until the first message to read is committed. */
  datatype Reader = Reader(seg: Option<nat>, pos: nat, hwSeg: Option<nat>, hwPos: nat, hw: int)

  function Open(segs: seq<Seg>, hw: int, offset: int): Option<Reader>
    requires segs != []
  {
    if offset > hw || segs[0].msgs == [] then Some(Reader(None, 0, None, 0, hw))
    else if hw != -1 && HWPos(segs, hw).None? then None
    else
      var hwSeg := if hw == -1 then None else Some(HWPos(segs, hw).value.0);
      var hwPos := if hw == -1 then 0 else HWPos(segs, hw).value.1;
      var s := FirstAbove(segs, offset);
      if s == |segs| then Some(Reader(None, 0, hwSeg, hwPos, hw))
      else if segs[s].base > offset then Some(Reader(Some(s), 0, hwSeg, hwPos, hw))
      else
        var e := EntryAt(segs[s].msgs, offset);
        if e >= |segs[s].msgs| then None else Some(Reader(Some(s), Pos(segs[s].msgs, e), hwSeg, hwPos, hw))
  }

  /** A read in progress: bytes wanted, bytes got, segments it knows. */
  datatype Call = Call(want: nat, n: nat, known: nat)

  /** Whether the next read is for a header, or for the payload whose header was found
      at `start` of segment `seg`. */
  datatype Phase = Header | Payload(seg: nat, start: nat, m: Message)

  datatype World = World(segs: seq<Seg>, hw: int, reader: Reader, call: Option<Call>, phase: Phase, out: Log,
                         broken: bool)

  function Want(p: Phase): nat { if p.Header? then HEADER_LEN else p.m.size }

  /** The message whose bytes begin at a position. */
  ghost predicate Begins(msgs: Log, pos: nat, i: nat) { i < |msgs| && Pos(msgs, i) == pos }

  /** The wanted bytes have been read, ending at the reader's position. They are a
      message's header or payload only if they are in the right place. */
  ghost function Finished(w: World): World
    requires w.reader.seg.Some? && w.reader.seg.value < |w.segs| && Want(w.phase) <= w.reader.pos
  {
    var s, from := w.reader.seg.value, w.reader.pos - Want(w.phase);
    match w.phase
    case Header =>
      if exists i :: Begins(w.segs[s].msgs, from, i)
      then
        var i: nat :| Begins(w.segs[s].msgs, from, i);
        w.(call := None, phase := Payload(s, from, w.segs[s].msgs[i]))
      else w.(broken := true)
    case Payload(s0, start, m) =>
      if s0 == s && from == start + HEADER_LEN then w.(call := None, phase := Header, out := w.out + [m])
      else w.(broken := true)
  }

  /** How a pass of the read loop ends: all bytes read, another pass, or an error. */
  datatype Outcome = Full | More(call: Call) | Failed

  ghost function After(w: World, pass: (Reader, Outcome)): World {
    var v := w.(reader := pass.0);
    match pass.1
    case Full =>
      if v.reader.seg.Some? && v.reader.seg.value < |v.segs| && Want(v.phase) <= v.reader.pos then Finished(v)
      else w.(broken := true)
    case More(c) => v.(call := Some(c))
    case Failed => w.(broken := true)
  }

  /** Waiting for the watermark to move, then finding it again. */
  function Sync(segs: seq<Seg>, hw: int, r: Reader, c: Call): (Reader, Outcome) {
    if hw == r.hw then (r, More(c))
    else if HWPos(segs, hw).None? then (r, Failed)
    else
      var (h, p) := HWPos(segs, hw).value;
      (r.(hw := hw, hwSeg := Some(h), hwPos := p), More(c.(known := |segs|)))
  }

  ghost function Synced(w: World, c: Call): World { After(w, Sync(w.segs, w.hw, w.reader, c)) }

  /** One pass of the read loop. Reading past the end of a file is the end-of-file
      error; slicing the buffer outside its length, or no next segment, is a failure. */
  function Pass(segs: seq<Seg>, hw: int, r: Reader, c: Call): (Reader, Outcome)
    requires r.seg.Some?
  {
    var s := r.seg.value;
    if s >= |segs| || c.known > |segs| then (r, Failed)
    else
      var lim := if r.hwSeg == Some(s) && r.hwPos - r.pos < c.want - c.n then r.hwPos - r.pos else c.want - c.n;
      if !(c.n <= lim <= c.want) || r.pos > Bytes(segs[s].msgs) then (r, Failed)
      else
        var size := Bytes(segs[s].msgs) - r.pos;
        var got := if size < lim - c.n then size else lim - c.n;
        var eof := size < lim - c.n;
        var n := c.n + got;
        var moved := r.(pos := r.pos + got);
        if n == c.want then (moved, Full)
        else if got != 0 && !eof then (moved, More(c.(n := n)))
        else if eof then
          var next := FirstFrom(segs[..c.known], segs[s].base + 1);
          if next == c.known then (moved, Failed) else (moved.(seg := Some(next), pos := 0), More(c.(n := n)))
        else Sync(segs, hw, moved, c.(n := n))
  }

  ghost function Iterated(w: World, c: Call): World
    requires w.reader.seg.Some?
  {
    After(w, Pass(w.segs, w.hw, w.reader, c))
  }

  /** The reader had nothing committed to read: wait, then start after the watermark it
      had seen. */
  function Locate(segs: seq<Seg>, hw: int, r: Reader): Option<Reader> {
    var offset, s := r.hw + 1, FirstAbove(segs, r.hw + 1);
    if HWPos(segs, hw).None? || s == |segs| then None
    else
      var e := EntryAt(segs[s].msgs, offset);
      if e >= |segs[s].msgs| then None
      else Some(Reader(Some(s), Pos(segs[s].msgs, e), Some(HWPos(segs, hw).value.0), HWPos(segs, hw).value.1, hw))
  }

  function Located(w: World): World {
    if w.hw == w.reader.hw then w
    else match Locate(w.segs, w.hw, w.reader)
      case None => w.(broken := true)
      case Some(r) => w.(reader := r, call := Some(Call(Want(w.phase), 0, |w.segs|)))
  }

  ghost function Read(w: World): World {
    if w.broken then w
    else if w.reader.seg.None? then Located(w)
    else match w.call
      case None => w.(call := Some(Call(Want(w.phase), 0, |w.segs|)))
      case Some(c) => Iterated(w, c)
  }

  // ----- everything that can happen -----

  datatype Step =
    | Append(ms: Log)
    | Split
    | Advance(hw: int)
    | Act

  ghost predicate Present(segs: seq<Seg>, hw: int) {
    exists h, e :: 0 <= h < |segs| && 0 <= e < |segs[h].msgs| && segs[h].msgs[e].offset == hw
  }

  ghost predicate Enabled(w: World, step: Step)
    requires w.segs != []
  {
    match step
    case Append(ms) => Increasing(ms) && Stamped(ms) && forall i :: 0 <= i < |ms| ==> ms[i].offset >= NextOffset(w.segs)
    case Split => w.segs[|w.segs| - 1].msgs != []
    case Advance(hw) => hw > w.hw && Present(w.segs, hw)
    case Act => true
  }

  function Grown(segs: seq<Seg>, ms: Log): seq<Seg>
    requires segs != []
  {
    var n := |segs| - 1;
    segs[n := Seg(segs[n].base, segs[n].msgs + ms)]
  }

  ghost function Next(w: World, step: Step): World
    requires w.segs != []
  {
    match step
    case Append(ms) => w.(segs := Grown(w.segs, ms))
    case Split => w.(segs := w.segs + [Seg(NextOffset(w.segs), [])])
    case Advance(hw) => w.(hw := hw)
    case Act => Read(w)
  }

  // ----- positions, searches and flattening -----

  lemma {:induction false} PosApart(msgs: Log, i: nat, j: nat)
    requires i <= j <= |msgs|
    ensures Pos(msgs, i) + HEADER_LEN * (j - i) <= Pos(msgs, j)
  {
    if i < j {
      PosApart(msgs, i, j - 1);
      assert msgs[..j][..j - 1] == msgs[..j - 1];
    }
  }

  lemma PosNext(msgs: Log, i: nat)
    requires i < |msgs|
    ensures Pos(msgs, i + 1) == Pos(msgs, i) + HEADER_LEN + msgs[i].size <= Bytes(msgs)
    ensures Pos(msgs, |msgs|) == Bytes(msgs) && Pos(msgs, 0) == 0
  {
    assert msgs[..i + 1][..i] == msgs[..i];
    assert msgs[..|msgs|] == msgs;
    PosApart(msgs, i + 1, |msgs|);
  }

  lemma PosUnique(msgs: Log, i: nat, j: nat)
    requires i <= |msgs| && j <= |msgs| && Pos(msgs, i) == Pos(msgs, j)
    ensures i == j
  {
    if i <= j { PosApart(msgs, i, j); } else { PosApart(msgs, j, i); }
  }

  lemma EntryIs(msgs: Log, offset: int, e: nat)
    requires Increasing(msgs) && e <= |msgs|
    requires e > 0 ==> msgs[e - 1].offset < offset
    requires e < |msgs| ==> offset <= msgs[e].offset
    ensures EntryAt(msgs, offset) == e
  {
    BeforeIsPrefix(msgs, offset, e);
  }

  lemma EntryLaw(msgs: Log, offset: int)
    requires Increasing(msgs)
    ensures var e := EntryAt(msgs, offset);
            && e <= |msgs|
            && (forall i :: 0 <= i < e ==> msgs[i].offset < offset)
            && (forall i :: e <= i < |msgs| ==> msgs[i].offset >= offset)
  {
    var n := BeforeOfIncreasing(msgs, offset);
  }

  /** The place in the whole log of the first message of a segment. */
  function FlatBase(segs: seq<Seg>, s: nat): nat
    requires s <= |segs|
  {
    |Flatten(segs[..s])|
  }

  lemma FlatAt(segs: seq<Seg>, s: nat)
    requires s < |segs|
    ensures FlatBase(segs, s + 1) == FlatBase(segs, s) + |segs[s].msgs| <= |Flatten(segs)|
    ensures forall i :: 0 <= i < |segs[s].msgs| ==> Flatten(segs)[FlatBase(segs, s) + i] == segs[s].msgs[i]
  {
    hide Flatten;
    FlattenTake(segs, s);
    FlattenConcat(segs[..s + 1], segs[s + 1..]);
    assert segs == segs[..s + 1] + segs[s + 1..];
  }

  lemma FlattenTake(segs: seq<Seg>, s: nat)
    requires s < |segs|
    ensures Flatten(segs[..s + 1]) == Flatten(segs[..s]) + segs[s].msgs
  {
    assert segs[..s + 1][..s] == segs[..s];
  }

  lemma InSegment(segs: seq<Seg>, s: nat, i: nat)
    requires Chain(segs) && s < |segs| && i < |segs[s].msgs|
    ensures Increasing(segs[s].msgs) && segs[s].base <= segs[s].msgs[i].offset < segs[s].NextOffset()
    ensures forall j :: s < j < |segs| ==> segs[s].msgs[i].offset < segs[j].base
    ensures forall j :: 0 <= j < s ==> segs[j].NextOffset() <= segs[s].msgs[i].offset
  {
    SegmentBounds(segs[s], segs[s].msgs[i]);
  }

  /** Finding the message at the watermark. */
  lemma HWPosIs(segs: seq<Seg>, h: nat, e: nat, hw: int)
    requires Chain(segs) && h < |segs| && e < |segs[h].msgs| && segs[h].msgs[e].offset == hw
    ensures FirstAbove(segs, hw) == h && EntryAt(segs[h].msgs, hw) == e
    ensures HWPos(segs, hw) == Some((h, Pos(segs[h].msgs, e + 1)))
  {
    hide Chain;
    hide FirstAbove;
    hide Before;
    hide Bytes;
    InSegment(segs, h, e);
    EntryIs(segs[h].msgs, hw, e);
    PosNext(segs[h].msgs, e);
  }

  // ----- one pass of the loop -----

  /** The reader knows where the message at its watermark ends. */
  ghost predicate AtHW(segs: seq<Seg>, r: Reader) {
    r.hwSeg.Some? && r.hwSeg.value < |segs| &&
    var msgs := segs[r.hwSeg.value].msgs;
    var e := EntryAt(msgs, r.hw);
    e < |msgs| && msgs[e].offset == r.hw && r.hwPos == Pos(msgs, e + 1)
  }

  /** The reader is at message `i` of its segment, at the header or past it, and not
      beyond its watermark. No read is ever left half done. */
  ghost predicate Placed(segs: seq<Seg>, r: Reader, phase: Phase, call: Option<Call>, i: nat)
    requires AtHW(segs, r)
  {
    r.seg.Some? &&
    var s, h := r.seg.value, r.hwSeg.value;
    && s <= h && i <= |segs[s].msgs|
    && (s == h ==> i <= EntryAt(segs[h].msgs, r.hw) + 1)
    && (phase.Header? ==> r.pos == Pos(segs[s].msgs, i))
    && (phase.Payload? ==>
          && i < |segs[s].msgs| && (s == h ==> i <= EntryAt(segs[h].msgs, r.hw))
          && phase == Payload(s, Pos(segs[s].msgs, i), segs[s].msgs[i])
          && r.pos == Pos(segs[s].msgs, i) + HEADER_LEN)
    && (call.Some? ==> call.value.n == 0 && call.value.want == Want(phase) && h < call.value.known <= |segs|)
  }

  /** In front of the watermark every read finds all the bytes it wants. */
  lemma Fits(segs: seq<Seg>, r: Reader, phase: Phase, call: Option<Call>, i: nat)
    requires AtHW(segs, r) && Placed(segs, r, phase, call, i)
    requires i < |segs[r.seg.value].msgs|
    requires r.seg == r.hwSeg ==> i <= EntryAt(segs[r.seg.value].msgs, r.hw)
    ensures r.pos + Want(phase) <= Bytes(segs[r.seg.value].msgs)
    ensures r.seg == r.hwSeg ==> r.pos + Want(phase) <= r.hwPos
    ensures phase.Payload? ==> r.pos + Want(phase) == Pos(segs[r.seg.value].msgs, i + 1)
  {
    hide Bytes;
    var msgs := segs[r.seg.value].msgs;
    PosNext(msgs, i);
    if r.seg == r.hwSeg { PosApart(msgs, i + 1, EntryAt(msgs, r.hw) + 1); }
  }

  lemma ReadsHeader(w: World, c: Call, i: nat)
    requires AtHW(w.segs, w.reader) && Placed(w.segs, w.reader, w.phase, Some(c), i) && w.phase.Header?
    requires i < |w.segs[w.reader.seg.value].msgs|
    requires w.reader.seg == w.reader.hwSeg ==> i <= EntryAt(w.segs[w.reader.seg.value].msgs, w.reader.hw)
    ensures var s, pos := w.reader.seg.value, w.reader.pos;
            Iterated(w, c) == w.(reader := w.reader.(pos := pos + HEADER_LEN), call := None,
                                 phase := Payload(s, pos, w.segs[s].msgs[i]))
  {
    hide Bytes;
    hide EntryAt;
    Fits(w.segs, w.reader, w.phase, Some(c), i);
    var msgs := w.segs[w.reader.seg.value].msgs;
    assert Begins(msgs, w.reader.pos, i);
    forall j: nat | Begins(msgs, w.reader.pos, j) ensures j == i { PosUnique(msgs, i, j); }
  }

  lemma ReadsPayload(w: World, c: Call, i: nat)
    requires AtHW(w.segs, w.reader) && Placed(w.segs, w.reader, w.phase, Some(c), i) && w.phase.Payload?
    ensures var s := w.reader.seg.value;
            Iterated(w, c) == w.(reader := w.reader.(pos := Pos(w.segs[s].msgs, i + 1)), call := None,
                                 phase := Header, out := w.out + [w.segs[s].msgs[i]])
  {
    hide Bytes;
    hide EntryAt;
    Fits(w.segs, w.reader, w.phase, Some(c), i);
  }

  lemma NextSegment(segs: seq<Seg>, s: nat, known: nat)
    requires Chain(segs) && s + 1 < known <= |segs|
    ensures FirstFrom(segs[..known], segs[s].base + 1) == s + 1
  {
    hide FirstFrom;
    var next := FirstFrom(segs[..known], segs[s].base + 1);
    forall j | 0 <= j <= s ensures segs[j].base <= segs[s].base {
      if j < s { InSegment(segs, j, 0); InSegment(segs, s, 0); }
    }
    InSegment(segs, s, 0);
    assert segs[..known][s + 1].base >= segs[s].base + 1;
  }

  lemma CrossesSegment(w: World, c: Call, i: nat)
    requires Chain(w.segs) && AtHW(w.segs, w.reader) && Placed(w.segs, w.reader, w.phase, Some(c), i) && w.phase.Header?
    requires w.reader.seg != w.reader.hwSeg && i == |w.segs[w.reader.seg.value].msgs|
    ensures Iterated(w, c) == w.(reader := w.reader.(seg := Some(w.reader.seg.value + 1), pos := 0), call := Some(c))
  {
    hide Chain;
    hide EntryAt;
    hide FirstFrom;
    var msgs := w.segs[w.reader.seg.value].msgs;
    assert msgs[..|msgs|] == msgs;
    NextSegment(w.segs, w.reader.seg.value, c.known);
  }

  lemma HitsHW(w: World, c: Call, i: nat)
    requires AtHW(w.segs, w.reader) && Placed(w.segs, w.reader, w.phase, Some(c), i) && w.phase.Header?
    requires w.reader.seg == w.reader.hwSeg && i == EntryAt(w.segs[w.reader.seg.value].msgs, w.reader.hw) + 1
    ensures Iterated(w, c) == Synced(w, c)
  {
    hide EntryAt;
    var msgs := w.segs[w.reader.seg.value].msgs;
    PosApart(msgs, i, |msgs|);
    assert msgs[..|msgs|] == msgs;
  }

  // ----- the invariant of every run -----

  /** Message `a` of the log is the first at or above `start`. */
  ghost predicate IsStart(log: Log, start: int, a: nat) {
    && a <= |log|
    && (forall k :: 0 <= k < a ==> log[k].offset < start)
    && (forall k :: a <= k < |log| ==> log[k].offset >= start)
  }

  /** What has been returned: the messages from the start on, without gap, none above
      the watermark the reader has seen. */
  ghost predicate Returned(w: World, start: int, a: nat) {
    && IsStart(Flatten(w.segs), start, a)
    && a + |w.out| <= |Flatten(w.segs)|
    && w.out == Flatten(w.segs)[a..a + |w.out|]
    && (forall k :: 0 <= k < |w.out| ==> w.out[k].offset <= w.reader.hw)
  }

  ghost predicate Sane(w: World, start: int) {
    && Chain(w.segs) && !w.broken
    && -1 <= w.reader.hw <= w.hw && (w.hw == -1 || Present(w.segs, w.hw))
    && start <= NextOffset(w.segs)
  }

  ghost predicate Inv(w: World, start: int, a: nat) {
    && Sane(w, start) && Returned(w, start, a)
    && match w.reader.seg
       case None => w.out == [] && w.phase == Header && w.call == None && IsStart(Flatten(w.segs), w.reader.hw + 1, a)
       case Some(s) => AtHW(w.segs, w.reader) && Standing(w, s, a + |w.out|)
  }

  /** The next message to return is number `k` of the log, in segment `s`. */
  ghost predicate Standing(w: World, s: nat, k: nat)
    requires AtHW(w.segs, w.reader)
  {
    s < |w.segs| && FlatBase(w.segs, s) <= k && w.reader.seg == Some(s)
    && Placed(w.segs, w.reader, w.phase, w.call, k - FlatBase(w.segs, s))
  }

  lemma HWBelowEnd(segs: seq<Seg>, hw: int)
    requires Chain(segs) && (hw == -1 || Present(segs, hw))
    ensures hw < NextOffset(segs)
  {
    var n := |segs| - 1;
    if hw != -1 {
      var h, e :| 0 <= h < |segs| && 0 <= e < |segs[h].msgs| && segs[h].msgs[e].offset == hw;
      InSegment(segs, h, e);
      if h < n { NextAboveBase(segs[n]); }
    } else {
      NextAboveBase(segs[n]);
    }
  }

  /** The message about to be returned is committed. */
  lemma NextIsCommitted(w: World, i: nat)
    requires Chain(w.segs) && AtHW(w.segs, w.reader) && Placed(w.segs, w.reader, w.phase, w.call, i) && w.phase.Payload?
    ensures w.phase.m.offset <= w.reader.hw
  {
    hide EntryAt;
    hide Pos;
    var s, h := w.reader.seg.value, w.reader.hwSeg.value;
    var hi := EntryAt(w.segs[h].msgs, w.reader.hw);
    InSegment(w.segs, s, i);
    InSegment(w.segs, h, hi);
  }

  lemma PayloadKeeps(w: World, c: Call, start: int, a: nat)
    requires Inv(w, start, a) && w.reader.seg.Some? && w.call == Some(c) && w.phase.Payload?
    ensures Inv(Iterated(w, c), start, a)
  {
    hide Chain;
    hide EntryAt;
    hide Pos;
    hide Flatten;
    hide Present;
    hide Iterated;
    var s, k := w.reader.seg.value, a + |w.out|;
    var i := k - FlatBase(w.segs, s);
    FlatAt(w.segs, s);
    NextIsCommitted(w, i);
    ReadsPayload(w, c, i);
    assert Flatten(w.segs)[k] == w.segs[s].msgs[i];
    var v := Iterated(w, c);
    assert v.out == Flatten(v.segs)[a..k + 1];
  }

  lemma HeaderKeeps(w: World, c: Call, start: int, a: nat)
    requires Inv(w, start, a) && w.reader.seg.Some? && w.call == Some(c) && w.phase.Header?
    ensures Inv(Iterated(w, c), start, a)
  {
    hide Chain;
    hide EntryAt;
    hide Flatten;
    hide Present;
    hide Iterated;
    hide Synced;
    hide Bytes;
    var s, h, k := w.reader.seg.value, w.reader.hwSeg.value, a + |w.out|;
    var i := k - FlatBase(w.segs, s);
    if s == h && i == EntryAt(w.segs[h].msgs, w.reader.hw) + 1 {
      HitsHW(w, c, i);
      SyncKeeps(w, c, start, a);
    } else if i < |w.segs[s].msgs| {
      ReadsHeader(w, c, i);
    } else {
      FlatAt(w.segs, s);
      CrossesSegment(w, c, i);
      var msgs := w.segs[s + 1].msgs;
      assert msgs[..0] == [] && Pos(msgs, 0) == 0 by { BytesNone(); }
    }
  }

  lemma BytesNone()
    ensures Bytes([]) == 0
  {}

  lemma SyncKeeps(w: World, c: Call, start: int, a: nat)
    requires Inv(w, start, a) && w.reader.seg.Some? && w.call == Some(c) && w.phase.Header?
    requires w.reader.seg == w.reader.hwSeg
    requires a + |w.out| - FlatBase(w.segs, w.reader.seg.value) ==
             EntryAt(w.segs[w.reader.seg.value].msgs, w.reader.hw) + 1
    ensures Inv(Synced(w, c), start, a)
  {
    hide Chain;
    hide EntryAt;
    hide Flatten;
    hide FlatBase;
    hide Pos;
    hide HWPos;
    hide Present;
    hide IsStart;
    if w.hw != w.reader.hw {
      var s := w.reader.seg.value;
      var h, e := FindHW(w.segs, w.hw);
      var i := EntryAt(w.segs[s].msgs, w.reader.hw);
      InOrder(w.segs, s, i, h, e);
    }
  }

  lemma FindHW(segs: seq<Seg>, hw: int) returns (h: nat, e: nat)
    requires Chain(segs) && Present(segs, hw)
    ensures h < |segs| && e < |segs[h].msgs| && segs[h].msgs[e].offset == hw
    ensures HWPos(segs, hw) == Some((h, Pos(segs[h].msgs, e + 1))) && EntryAt(segs[h].msgs, hw) == e
  {
    h, e :| 0 <= h < |segs| && 0 <= e < |segs[h].msgs| && segs[h].msgs[e].offset == hw;
    HWPosIs(segs, h, e, hw);
  }

  lemma InOrder(segs: seq<Seg>, s: nat, i: nat, h: nat, e: nat)
    requires Chain(segs) && s < |segs| && i < |segs[s].msgs| && h < |segs| && e < |segs[h].msgs|
    requires segs[s].msgs[i].offset <= segs[h].msgs[e].offset
    ensures s <= h && (s == h ==> i <= e)
  {
    InSegment(segs, s, i);
    InSegment(segs, h, e);
  }

  // ----- starting to read -----

  lemma StartUnique(log: Log, start: int, a: nat, b: nat)
    requires IsStart(log, start, a) && IsStart(log, start, b)
    ensures a == b
  {
    assert a < |log| ==> (a < b <==> log[a].offset < start);
    assert b < |log| ==> (b < a <==> log[b].offset < start);
  }

  lemma StartsAt(log: Log, start: int, k: nat)
    requires Increasing(log) && k < |log| && log[k].offset >= start && (k > 0 ==> log[k - 1].offset < start)
    ensures IsStart(log, start, k)
  {}

  /** The segment and entry a search finds are where the messages from `offset` begin. */
  lemma SearchFinds(segs: seq<Seg>, offset: int, s: nat)
    requires Chain(segs) && s == FirstAbove(segs, offset) < |segs| && segs[s].msgs != []
    ensures var e := EntryAt(segs[s].msgs, offset);
            e < |segs[s].msgs| && IsStart(Flatten(segs), offset, FlatBase(segs, s) + e)
    ensures segs[s].base > offset ==> EntryAt(segs[s].msgs, offset) == 0
  {
    hide Chain;
    hide Flatten;
    hide FirstAbove;
    hide EntryAt;
    var last := |segs[s].msgs| - 1;
    InSegment(segs, s, last);
    EntryLaw(segs[s].msgs, offset);
    FlatAt(segs, s);
    FlattenIncreasing(segs);
    var e := EntryAt(segs[s].msgs, offset);
    if e == 0 && s > 0 {
      FlatAt(segs, s - 1);
      BeforeLast(segs, s - 1);
    } else if s == 0 {
      FlatZero(segs);
    }
    assert Flatten(segs)[FlatBase(segs, s) + e] == segs[s].msgs[e];
    if e > 0 { assert Flatten(segs)[FlatBase(segs, s) + (e - 1)] == segs[s].msgs[e - 1]; }
    StartsAt(Flatten(segs), offset, FlatBase(segs, s) + e);
    InSegment(segs, s, 0);
  }

  lemma BeforeLast(segs: seq<Seg>, s: nat)
    requires Chain(segs) && s + 1 < |segs|
    ensures segs[s].msgs != [] && segs[s].msgs[|segs[s].msgs| - 1].offset < segs[s].NextOffset()
  {}

  lemma FlatZero(segs: seq<Seg>)
    ensures FlatBase(segs, 0) == 0
  {}

  /** A segment found for an offset up to a present message is not empty. */
  lemma FoundBefore(segs: seq<Seg>, offset: int, h: nat, e: nat)
    requires Chain(segs) && h < |segs| && e < |segs[h].msgs| && offset <= segs[h].msgs[e].offset
    ensures FirstAbove(segs, offset) <= h && segs[FirstAbove(segs, offset)].msgs != []
    ensures FirstAbove(segs, offset) == h ==> EntryAt(segs[h].msgs, offset) <= e
  {
    hide FirstAbove;
    hide EntryAt;
    InSegment(segs, h, e);
    EntryLaw(segs[h].msgs, offset);
  }

  lemma LocateKeeps(w: World, start: int, a: nat)
    requires Inv(w, start, a) && w.reader.seg.None?
    ensures Inv(Located(w), start, a)
  {
    hide Chain;
    hide EntryAt;
    hide Flatten;
    hide Pos;
    hide FirstAbove;
    hide HWPos;
    hide Present;
    hide IsStart;
    if w.hw != w.reader.hw {
      var h, e := FindHW(w.segs, w.hw);
      var offset := w.reader.hw + 1;
      FoundBefore(w.segs, offset, h, e);
      var s := FirstAbove(w.segs, offset);
      SearchFinds(w.segs, offset, s);
      StartUnique(Flatten(w.segs), offset, a, FlatBase(w.segs, s) + EntryAt(w.segs[s].msgs, offset));
    }
  }

  // ----- the log growing -----

  /** Segments after appends and rolls: everything that was there is where it was. */
  ghost predicate Extends(a: seq<Seg>, b: seq<Seg>) {
    && 0 < |a| <= |b|
    && (forall j :: 0 <= j < |a| ==> a[j].msgs <= b[j].msgs)
    && a[..|a| - 1] == b[..|a| - 1]
  }

  lemma PosKept(a: Log, b: Log, i: nat)
    requires a <= b && i <= |a|
    ensures Pos(b, i) == Pos(a, i)
  {
    assert b[..i] == a[..i];
  }

  lemma HWKept(a: seq<Seg>, b: seq<Seg>, r: Reader)
    requires Extends(a, b) && Chain(b) && AtHW(a, r)
    ensures AtHW(b, r) && EntryAt(b[r.hwSeg.value].msgs, r.hw) == EntryAt(a[r.hwSeg.value].msgs, r.hw)
  {
    hide EntryAt;
    hide Pos;
    var h := r.hwSeg.value;
    var e := EntryAt(a[h].msgs, r.hw);
    InSegment(b, h, e);
    EntryIs(b[h].msgs, r.hw, e);
    PosKept(a[h].msgs, b[h].msgs, e + 1);
  }

  lemma PlaceKept(a: seq<Seg>, b: seq<Seg>, r: Reader, phase: Phase, call: Option<Call>, i: nat)
    requires Extends(a, b) && Chain(b) && AtHW(a, r) && Placed(a, r, phase, call, i)
    ensures AtHW(b, r) && Placed(b, r, phase, call, i)
  {
    hide EntryAt;
    hide Pos;
    hide Chain;
    HWKept(a, b, r);
    var s := r.seg.value;
    PosKept(a[s].msgs, b[s].msgs, i);
  }

  lemma FlatBaseKept(a: seq<Seg>, b: seq<Seg>, s: nat)
    requires Extends(a, b) && s < |a|
    ensures FlatBase(a, s) == FlatBase(b, s)
  {
    assert a[..s] == a[..|a| - 1][..s];
    assert b[..s] == b[..|a| - 1][..s];
  }

  lemma StartKept(a: Log, more: Log, start: int, k: nat)
    requires IsStart(a, start, k) && forall i :: 0 <= i < |more| ==> more[i].offset >= start
    ensures IsStart(a + more, start, k)
  {}

  lemma GrowthKeeps(w: World, segs: seq<Seg>, more: Log, start: int, a: nat)
    requires Inv(w, start, a) && Extends(w.segs, segs) && Chain(segs)
    requires Flatten(segs) == Flatten(w.segs) + more && NextOffset(w.segs) <= NextOffset(segs)
    requires forall i :: 0 <= i < |more| ==> more[i].offset >= NextOffset(w.segs)
    ensures Inv(w.(segs := segs), start, a)
  {
    hide Chain;
    hide EntryAt;
    hide Flatten;
    hide Pos;
    hide IsStart;
    HWBelowEnd(w.segs, w.hw);
    StartKept(Flatten(w.segs), more, start, a);
    if w.hw != -1 { PresentKept(w.segs, segs, w.hw); }
    if w.reader.seg.Some? {
      var s := w.reader.seg.value;
      FlatBaseKept(w.segs, segs, s);
      PlaceKept(w.segs, segs, w.reader, w.phase, w.call, a + |w.out| - FlatBase(w.segs, s));
    } else {
      StartKept(Flatten(w.segs), more, w.reader.hw + 1, a);
    }
  }

  lemma PresentKept(a: seq<Seg>, b: seq<Seg>, hw: int)
    requires Extends(a, b) && Present(a, hw)
    ensures Present(b, hw)
  {
    var h, e :| 0 <= h < |a| && 0 <= e < |a[h].msgs| && a[h].msgs[e].offset == hw;
    assert b[h].msgs[e].offset == hw;
  }

  lemma AppendGrows(segs: seq<Seg>, ms: Log)
    requires Chain(segs) && Increasing(ms) && Stamped(ms)
    requires forall i :: 0 <= i < |ms| ==> ms[i].offset >= NextOffset(segs)
    ensures Extends(segs, Grown(segs, ms)) && Chain(Grown(segs, ms)) && Flatten(Grown(segs, ms)) == Flatten(segs) + ms
    ensures NextOffset(segs) <= NextOffset(Grown(segs, ms))
  {
    hide Flatten;
    hide Chain;
    hide Increasing;
    hide Stamped;
    hide NextOffset;
    GrownValid(segs, ms);
    GrownFlattens(segs, ms);
    var n := |segs| - 1;
    assert Grown(segs, ms)[..n] == segs[..n];
  }

  lemma GrownFlattens(segs: seq<Seg>, ms: Log)
    requires segs != []
    ensures Flatten(Grown(segs, ms)) == Flatten(segs) + ms
  {
    hide Flatten;
    var n := |segs| - 1;
    var s, t := segs[n], Grown(segs, ms)[n];
    assert Grown(segs, ms) == segs[..n] + [t] && segs == segs[..n] + [s];
    FlattenConcat(segs[..n], [t]);
    FlattenConcat(segs[..n], [s]);
    FlattenOne(t);
    FlattenOne(s);
  }

  lemma GrownValid(segs: seq<Seg>, ms: Log)
    requires Chain(segs) && Increasing(ms) && Stamped(ms)
    requires forall i :: 0 <= i < |ms| ==> ms[i].offset >= NextOffset(segs)
    ensures segs != [] && Chain(Grown(segs, ms)) && NextOffset(segs) <= NextOffset(Grown(segs, ms))
  {
    var n := |segs| - 1;
    var s, t := segs[n], Grown(segs, ms)[n];
    forall i, j | 0 <= i < j < |t.msgs| ensures t.msgs[i].offset < t.msgs[j].offset {
      if i < |s.msgs| { SegmentBounds(s, s.msgs[i]); }
    }
    NextAboveBase(s);
    assert t.Valid();
    ReplaceLast(segs, n, t);
    assert Grown(segs, ms) == segs[..n] + [t];
  }

  lemma {:induction false} SplitGrows(segs: seq<Seg>)
    requires segs != [] && Chain(segs) && segs[|segs| - 1].msgs != []
    ensures var b := segs + [Seg(NextOffset(segs), [])];
            Extends(segs, b) && Chain(b) && Flatten(b) == Flatten(segs) && NextOffset(b) == NextOffset(segs)
  {
    hide Flatten;
    hide Chain;
    var last := Seg(NextOffset(segs), []);
    FlattenConcat(segs, [last]);
    FlattenOne(last);
    SplitChain(segs);
    assert (segs + [last])[..|segs| - 1] == segs[..|segs| - 1];
  }

  lemma SplitChain(segs: seq<Seg>)
    requires Chain(segs) && segs[|segs| - 1].msgs != []
    ensures Chain(segs + [Seg(NextOffset(segs), [])])
  {
    var last := Seg(NextOffset(segs), []);
    var n := |segs| - 1;
    NextAboveBase(segs[n]);
    forall i | 0 <= i < |segs| ensures segs[i].NextOffset() <= last.base { NextOffsetMonotone(segs, i, n); }
  }

  // ----- runs -----

  lemma StepKeeps(w: World, step: Step, start: int, a: nat)
    requires w.segs != [] && Inv(w, start, a) && Enabled(w, step)
    ensures Inv(Next(w, step), start, a)
  {
    hide Chain;
    hide Iterated;
    hide Located;
    hide Flatten;
    hide IsStart;
    hide Placed;
    hide AtHW;
    match step
    case Append(ms) =>
      AppendGrows(w.segs, ms);
      GrowthKeeps(w, Grown(w.segs, ms), ms, start, a);
    case Split =>
      SplitGrows(w.segs);
      GrowthKeeps(w, w.segs + [Seg(NextOffset(w.segs), [])], [], start, a);
    case Advance(hw) => AdvanceKeeps(w, hw, start, a);
    case Act => ActKeeps(w, start, a);
  }

  lemma AdvanceKeeps(w: World, hw: int, start: int, a: nat)
    requires Inv(w, start, a) && hw > w.hw && Present(w.segs, hw)
    ensures Inv(w.(hw := hw), start, a)
  {
    hide Chain;
    hide Flatten;
    hide Present;
    hide IsStart;
    hide Placed;
    hide AtHW;
  }

  lemma ActKeeps(w: World, start: int, a: nat)
    requires Inv(w, start, a)
    ensures Inv(Read(w), start, a)
  {
    hide Chain;
    hide Iterated;
    hide Located;
    hide Flatten;
    hide Present;
    hide EntryAt;
    hide Pos;
    if w.reader.seg.None? {
      LocateKeeps(w, start, a);
    } else if w.call.Some? {
      if w.phase.Header? { HeaderKeeps(w, w.call.value, start, a); } else { PayloadKeeps(w, w.call.value, start, a); }
    }
  }

  ghost predicate Possible(w: World, steps: seq<Step>)
    decreases |steps|
  {
    steps == [] || (w.segs != [] && Enabled(w, steps[0]) && Possible(Next(w, steps[0]), steps[1..]))
  }

  ghost function Run(w: World, steps: seq<Step>): World
    requires Possible(w, steps)
    decreases |steps|
  {
    if steps == [] then w else Run(Next(w, steps[0]), steps[1..])
  }

  lemma {:induction false} RunKeeps(w: World, steps: seq<Step>, start: int, a: nat)
    requires Inv(w, start, a) && Possible(w, steps)
    ensures Inv(Run(w, steps), start, a)
    decreases |steps|
  {
    if steps != [] {
      StepKeeps(w, steps[0], start, a);
      RunKeeps(Next(w, steps[0]), steps[1..], start, a);
    }
  }

  // ----- opening a reader -----

  ghost function Opened(segs: seq<Seg>, hw: int, r: Reader): World { World(segs, hw, r, None, Header, [], false) }

  function Least(a: int, b: int): int { if a < b then a else b }

  /** A log with something in it, nothing committed, and a negative offset. */
  ghost predicate Unguarded(segs: seq<Seg>, hw: int, offset: int)
    requires segs != []
  {
    hw == -1 && offset < 0 && segs[0].msgs != []
  }

  /** Opening at an offset above the watermark, or on an empty log. */
  lemma OpensWaiting(segs: seq<Seg>, hw: int, offset: int) returns (a: nat)
    requires Chain(segs) && hw >= -1 && (hw == -1 || Present(segs, hw))
    requires offset > hw || segs[0].msgs == []
    ensures Open(segs, hw, offset) == Some(Reader(None, 0, None, 0, hw))
    ensures Inv(Opened(segs, hw, Reader(None, 0, None, 0, hw)), Least(offset, hw + 1), a)
  {
    hide Chain;
    hide Flatten;
    HWBelowEnd(segs, hw);
    FlattenIncreasing(segs);
    a := CountBelow(Flatten(segs), hw + 1);
    if offset <= hw {
      EmptyHasNoHW(segs, hw);
    }
  }

  lemma EmptyHasNoHW(segs: seq<Seg>, hw: int)
    requires Chain(segs) && segs[0].msgs == [] && (hw == -1 || Present(segs, hw))
    ensures hw == -1 && Flatten(segs) == []
  {
    assert segs == [segs[0]];
    FlattenOne(segs[0]);
  }

  lemma CountBelow(log: Log, start: int) returns (a: nat)
    requires Increasing(log)
    ensures IsStart(log, start, a)
  {
    a := BeforeOfIncreasing(log, start);
  }

  /** Opening at a committed offset. */
  lemma OpensAt(segs: seq<Seg>, hw: int, offset: int) returns (a: nat)
    requires Chain(segs) && hw >= 0 && Present(segs, hw) && offset <= hw && segs[0].msgs != []
    ensures Open(segs, hw, offset).Some?
    ensures Inv(Opened(segs, hw, Open(segs, hw, offset).value), offset, a)
  {
    hide Chain;
    hide Flatten;
    hide FirstAbove;
    hide EntryAt;
    hide IsStart;
    hide HWPos;
    hide Present;
    hide Bytes;
    HWBelowEnd(segs, hw);
    var h, e := FindHW(segs, hw);
    FoundBefore(segs, offset, h, e);
    var s := FirstAbove(segs, offset);
    SearchFinds(segs, offset, s);
    FlatAt(segs, s);
    a := FlatBase(segs, s) + EntryAt(segs[s].msgs, offset);
    assert segs[s].msgs[..0] == [];
    BytesNone();
  }

  /** Nothing has broken (no slice out of range, no missing segment, no misread bytes),
      no read is half done, and what has been returned is the messages present from
      `start`, in order, without gap, none above the watermark. */
  ghost predicate Promised(w: World, start: int, a: nat) {
    && !w.broken
    && (w.call.Some? ==> w.call.value.n == 0)
    && IsStart(Flatten(w.segs), start, a)
    && a + |w.out| <= |Flatten(w.segs)| && w.out == Flatten(w.segs)[a..a + |w.out|]
    && Increasing(w.out)
    && (forall k :: 0 <= k < |w.out| ==> w.out[k].offset <= w.hw)
  }

  lemma InvMeans(w: World, start: int, a: nat)
    requires Inv(w, start, a)
    ensures Promised(w, start, a)
  {
    hide Chain;
    hide Flatten;
    hide Present;
    hide IsStart;
    FlattenIncreasing(w.segs);
  }

  /** Reading from any offset, in every interleaving with appends, rolls and watermark
      advances, keeps the promise from the smaller of the offset and the watermark at
      opening plus one. */
  lemma ReadsCommitted(segs: seq<Seg>, hw: int, offset: int, steps: seq<Step>) returns (a: nat)
    requires segs != [] && Chain(segs) && hw >= -1 && (hw == -1 || Present(segs, hw)) && !Unguarded(segs, hw, offset)
    requires Open(segs, hw, offset).Some? ==> Possible(Opened(segs, hw, Open(segs, hw, offset).value), steps)
    ensures Open(segs, hw, offset).Some?
    ensures var w := Run(Opened(segs, hw, Open(segs, hw, offset).value), steps);
            Promised(w, Least(offset, hw + 1), a)
  {
    hide Chain;
    hide Flatten;
    hide Open;
    hide Possible;
    hide Run;
    hide Inv;
    hide Promised;
    hide Present;
    if offset > hw || segs[0].msgs == [] {
      a := OpensWaiting(segs, hw, offset);
    } else {
      a := OpensAt(segs, hw, offset);
    }
    var w := Opened(segs, hw, Open(segs, hw, offset).value);
    RunKeeps(w, steps, Least(offset, hw + 1), a);
    InvMeans(Run(w, steps), Least(offset, hw + 1), a);
  }

  /** Nothing is skipped or forgotten: when the reader has nothing left to do, it has
      returned every message from its start up to the watermark. */
  lemma WaitsOnlyWhenCaughtUp(w: World, start: int, a: nat, k: nat)
    requires Inv(w, start, a) && Read(w) == w
    requires a <= k < |Flatten(w.segs)| && Flatten(w.segs)[k].offset <= w.hw
    ensures k < a + |w.out|
  {
    hide Chain;
    hide Flatten;
    hide Present;
    hide Bytes;
    hide EntryAt;
    hide Iterated;
    hide Synced;
    hide Located;
    if w.reader.seg.None? {
      WaitsUnlocated(w);
    } else {
      var s, h, c := w.reader.seg.value, w.reader.hwSeg.value, w.call.value;
      var i := a + |w.out| - FlatBase(w.segs, s);
      if w.phase.Payload? {
        ReadsPayload(w, c, i);
      } else if s == h && i == EntryAt(w.segs[h].msgs, w.reader.hw) + 1 {
        HitsHW(w, c, i);
        WaitsSynced(w, c);
        FlatAt(w.segs, s);
        FlattenIncreasing(w.segs);
        assert Flatten(w.segs)[FlatBase(w.segs, s) + (i - 1)] == w.segs[s].msgs[i - 1];
      } else if i < |w.segs[s].msgs| {
        ReadsHeader(w, c, i);
      } else {
        CrossesSegment(w, c, i);
      }
    }
  }

  lemma WaitsUnlocated(w: World)
    requires !w.broken && Located(w) == w && w.reader.seg.None?
    ensures w.hw == w.reader.hw
  {}

  lemma WaitsSynced(w: World, c: Call)
    requires !w.broken && Synced(w, c) == w
    ensures w.hw == w.reader.hw
  {}

  // ----- getting there -----

  /** `n` actions of the reader and nothing else. */
  ghost function Acts(w: World, n: nat): World
    decreases n
  {
    if n == 0 then w else Acts(Read(w), n - 1)
  }

  function SegmentOf(w: World): nat { if w.reader.seg.Some? then w.reader.seg.value else 0 }

  /** An action takes the reader on: it learns the watermark, returns a message, goes to the
      next segment, reads a header, or starts a read. */
  ghost predicate Onward(w: World, v: World) {
    && v.segs == w.segs && v.hw == w.hw
    && (|| w.reader.hw < v.reader.hw
        || (v.reader.hw == w.reader.hw && |v.out| > |w.out|)
        || (v.reader.hw == w.reader.hw && v.out == w.out && SegmentOf(v) > SegmentOf(w))
        || (v.reader == w.reader.(pos := v.reader.pos) && v.out == w.out && w.phase.Header? && v.phase.Payload?)
        || (v == w.(call := v.call) && w.call.None? && v.call.Some?))
  }

  lemma ReadGoesOn(w: World, start: int, a: nat)
    requires Inv(w, start, a)
    ensures Read(w) == w || Onward(w, Read(w))
  {
    hide Chain;
    hide Flatten;
    hide Present;
    hide Bytes;
    hide EntryAt;
    hide Iterated;
    hide Synced;
    hide Located;
    if w.reader.seg.None? {
      LocatesOn(w, start, a);
    } else if w.call.Some? {
      var s, h, c := w.reader.seg.value, w.reader.hwSeg.value, w.call.value;
      var i := a + |w.out| - FlatBase(w.segs, s);
      if w.phase.Payload? {
        ReadsPayload(w, c, i);
      } else if s == h && i == EntryAt(w.segs[h].msgs, w.reader.hw) + 1 {
        HitsHW(w, c, i);
        SyncsOn(w, c, start, a);
      } else if i < |w.segs[s].msgs| {
        ReadsHeader(w, c, i);
      } else {
        CrossesSegment(w, c, i);
      }
    }
  }

  lemma LocatesOn(w: World, start: int, a: nat)
    requires Inv(w, start, a) && w.reader.seg.None?
    ensures Located(w) == w || Onward(w, Located(w))
  {
    hide Locate;
    LocateKeeps(w, start, a);
    LocateHW(w.segs, w.hw, w.reader);
  }

  lemma LocateHW(segs: seq<Seg>, hw: int, r: Reader)
    ensures Locate(segs, hw, r).Some? ==> Locate(segs, hw, r).value.hw == hw
  {
    hide HWPos;
    hide EntryAt;
    hide FirstAbove;
  }

  lemma SyncsOn(w: World, c: Call, start: int, a: nat)
    requires Inv(w, start, a) && w.reader.seg.Some? && w.call == Some(c) && Iterated(w, c) == Synced(w, c)
    ensures Synced(w, c) == w || Onward(w, Synced(w, c))
  {
    hide HWPos;
    ActKeeps(w, start, a);
    assert Read(w) == Synced(w, c);
    assert w.hw == w.reader.hw ==> Synced(w, c) == w;
  }

  /** Left to itself a reader comes to a state in which it waits, and so has returned
      everything up to the watermark. */
  lemma {:induction false} CatchesUp(w: World, start: int, a: nat) returns (n: nat)
    requires Inv(w, start, a)
    ensures var v := Acts(w, n); v.segs == w.segs && v.hw == w.hw && Inv(v, start, a) && Read(v) == v
    decreases w.hw - w.reader.hw, |Flatten(w.segs)| - |w.out|, |w.segs| - SegmentOf(w),
              if w.phase.Header? then 1 else 0, if w.call.None? then 1 else 0
  {
    hide Flatten;
    hide Chain;
    hide Read;
    if Read(w) == w {
      n := 0;
    } else {
      ReadGoesOn(w, start, a);
      ActKeeps(w, start, a);
      Bounds(w, start, a);
      Bounds(Read(w), start, a);
      hide Inv;
      var m := CatchesUp(Read(w), start, a);
      n := m + 1;
    }
  }

  lemma Bounds(w: World, start: int, a: nat)
    requires Inv(w, start, a)
    ensures w.reader.hw <= w.hw && |w.out| <= |Flatten(w.segs)| && SegmentOf(w) < |w.segs|
  {}

  /** Whatever happens while the log is read, a reader left to itself then returns exactly
      the messages from its start up to the watermark. */
  lemma ReadsAll(segs: seq<Seg>, hw: int, offset: int, steps: seq<Step>) returns (n: nat, a: nat)
    requires segs != [] && Chain(segs) && hw >= -1 && (hw == -1 || Present(segs, hw)) && !Unguarded(segs, hw, offset)
    requires Open(segs, hw, offset).Some? ==> Possible(Opened(segs, hw, Open(segs, hw, offset).value), steps)
    ensures Open(segs, hw, offset).Some?
    ensures var w := Run(Opened(segs, hw, Open(segs, hw, offset).value), steps);
            ReadUpTo(Acts(w, n), Flatten(w.segs), Least(offset, hw + 1), w.hw, a)
  {
    hide Chain;
    hide Flatten;
    hide Open;
    hide Possible;
    hide Run;
    hide Inv;
    hide Acts;
    hide Present;
    hide Read;
    hide ReadUpTo;
    if offset > hw || segs[0].msgs == [] {
      a := OpensWaiting(segs, hw, offset);
    } else {
      a := OpensAt(segs, hw, offset);
    }
    var start := Least(offset, hw + 1);
    var o := Opened(segs, hw, Open(segs, hw, offset).value);
    RunKeeps(o, steps, start, a);
    var w := Run(o, steps);
    n := CatchesUp(w, start, a);
    WaitingHasRead(Acts(w, n), start, a);
  }

  /** The output is the messages of the log from the first at or above `start` up to the
      watermark. */
  ghost predicate ReadUpTo(v: World, log: Log, start: int, hw: int, a: nat) {
    && !v.broken && IsStart(log, start, a) && a + |v.out| <= |log| && v.out == log[a..a + |v.out|]
    && forall k :: a <= k < |log| ==> (log[k].offset <= hw <==> k < a + |v.out|)
  }

  lemma WaitingHasRead(v: World, start: int, a: nat)
    requires Inv(v, start, a) && Read(v) == v
    ensures ReadUpTo(v, Flatten(v.segs), start, v.hw, a)
  {
    hide Flatten;
    hide Inv;
    hide Read;
    hide IsStart;
    InvMeans(v, start, a);
    var log := Flatten(v.segs);
    assert forall k :: a <= k < a + |v.out| ==> log[k] == v.out[k - a];
    forall k | a <= k < |log| && log[k].offset <= v.hw ensures k < a + |v.out| {
      WaitsOnlyWhenCaughtUp(v, start, a, k);
    }
  }

  /** What happens to the log is what the steps say. */
  lemma StepDoes(w: World, step: Step)
    requires w.segs != [] && Chain(w.segs) && Enabled(w, step)
    ensures var v := Next(w, step);
            && Flatten(v.segs) == Flatten(w.segs) + (if step.Append? then step.ms else [])
            && |v.segs| == |w.segs| + (if step.Split? then 1 else 0)
            && (step.Advance? ==> v.hw == step.hw) && (!step.Act? ==> v.reader == w.reader && v.out == w.out)
  {
    hide Flatten;
    hide Chain;
    hide Read;
    match step
    case Append(ms) => AppendGrows(w.segs, ms);
    case Split => SplitGrows(w.segs);
    case Advance(hw) =>
    case Act => ReadLeavesLog(w);
  }

  lemma ReadLeavesLog(w: World)
    ensures Read(w).segs == w.segs && Read(w).hw == w.hw
  {
    hide Pass;
    hide Locate;
  }

  /** The one excluded case really fails: with a message in the log, nothing committed
      and a negative offset, the reader returns a message that is not committed. */
  lemma UnguardedReadsUncommitted(segs: seq<Seg>, offset: int)
    requires Chain(segs) && Unguarded(segs, -1, offset)
    ensures Open(segs, -1, offset) == Some(Reader(Some(0), 0, None, 0, -1))
    ensures var w := Read(Read(Read(Read(Opened(segs, -1, Reader(Some(0), 0, None, 0, -1))))));
            !w.broken && w.out == [segs[0].msgs[0]] && w.out[0].offset > w.hw
  {
    hide Flatten;
    hide FirstAbove;
    hide EntryAt;
    InSegment(segs, 0, 0);
    var msgs := segs[0].msgs;
    PosNext(msgs, 0);
    assert Begins(msgs, 0, 0);
    forall j: nat | Begins(msgs, 0, j) ensures j == 0 { PosUnique(msgs, 0, j); }
  }
}
