/** The commit log: segments updated in place, an active segment, a leader epoch
    cache. Every operation is tied to what it does to the plain log. */
module CommitLogs {
  import opened Wrappers
  import opened Messages
  import opened SegmentedLog
  import opened EpochCache

  datatype Error = ErrReadonly | ErrIncorrectOffset

  /** A message as a publisher hands it to the log; `expected` is the offset it
      should get under optimistic concurrency control, -1 for any. */
  datatype Input = Input(timestamp: int, leaderEpoch: Epoch, key: Option<string>, value: string,
                         size: nat, expected: int)

  /** The messages a batch becomes when its first one is given offset `base`. */
  function Stamp(batch: seq<Input>, base: int): (log: Log)
    ensures |log| == |batch|
    ensures forall i :: 0 <= i < |log| ==> log[i].offset == base + i && log[i].timestamp == batch[i].timestamp
  {
    seq(|batch|, i requires 0 <= i < |batch| =>
      Message(base + i, batch[i].timestamp, batch[i].leaderEpoch, batch[i].key, batch[i].value, batch[i].size))
  }

  /** A message of the log carries what the publisher handed in. */
  ghost predicate Carries(m: Message, input: Input, offset: int) {
    && m.offset == offset && m.timestamp == input.timestamp && m.leaderEpoch == input.leaderEpoch
    && m.key == input.key && m.value == input.value && m.size == input.size
  }

  /** A log behind which a batch was written, from offset `base` on. */
  ghost predicate Written(before: Log, after: Log, batch: seq<Input>, base: int) {
    && |after| == |before| + |batch| && before <= after
    && forall i :: 0 <= i < |batch| ==> Carries(after[|before| + i], batch[i], base + i)
  }

  lemma StampWrites(log: Log, batch: seq<Input>, base: int)
    ensures Written(log, log + Stamp(batch, base), batch, base)
  {}

  lemma StampIncreasing(batch: seq<Input>, base: int)
    requires forall i :: 0 <= i < |batch| ==> batch[i].timestamp > 0
    ensures Increasing(Stamp(batch, base)) && Stamped(Stamp(batch, base))
  {
  }

  /** The cache after messages are appended: one assignment for each that opens an
      epoch above the last one seen. */
  function Observed(es: Entries, last: Epoch, msgs: Log): Entries
    decreases |msgs|
  {
    if msgs == [] then es
    else if msgs[0].leaderEpoch > last
    then Observed(Assigned(es, msgs[0].leaderEpoch, msgs[0].offset), msgs[0].leaderEpoch, msgs[1..])
    else Observed(es, last, msgs[1..])
  }

  class Segment {
    const baseOffset: int
    const maxBytes: int
    var msgs: Log
    var firstOffset: int
    var lastOffset: int
    var firstWriteTime: int
    var lastWriteTime: int
    var position: nat

    function View(): Seg
      reads this
    {
      Seg(baseOffset, msgs)
    }

    /** The cached fields agree with what was written. */
    ghost predicate Valid()
      reads this
    {
      && View().Valid()
      && maxBytes > 0
      && position == Bytes(msgs)
      && (msgs == [] ==> firstOffset == lastOffset == -1 && firstWriteTime == lastWriteTime == 0)
      && (msgs != [] ==>
            && firstOffset == msgs[0].offset && lastOffset == msgs[|msgs| - 1].offset
            && firstWriteTime == msgs[0].timestamp && lastWriteTime == msgs[|msgs| - 1].timestamp)
    }

    constructor (base: int, maxBytes: int)
      requires base >= 0 && maxBytes > 0
      ensures Valid() && msgs == [] && baseOffset == base && this.maxBytes == maxBytes
    {
      baseOffset, this.maxBytes, msgs, position := base, maxBytes, [], 0;
      firstOffset, lastOffset, firstWriteTime, lastWriteTime := -1, -1, 0, 0;
    }

    function NextOffset(): (next: int)
      requires Valid()
      reads this
      ensures next == View().NextOffset()
    {
      if lastOffset == -1 then baseOffset else lastOffset + 1
    }

    predicate CheckSplit(age: int, now: int)
      reads this
    {
      position >= maxBytes || (age != 0 && firstWriteTime != 0 && now - firstWriteTime >= age)
    }

    lemma SplitIff(age: int, now: int)
      requires Valid()
      ensures CheckSplit(age, now) <==>
              Bytes(msgs) >= maxBytes || (age != 0 && msgs != [] && now - msgs[0].timestamp >= age)
      ensures CheckSplit(age, now) ==> msgs != []
    {}

    method WriteMessageSet(ms: Log)
      requires Valid() && ms != [] && Increasing(ms) && Stamped(ms) && ms[0].offset >= NextOffset()
      modifies this
      ensures Valid() && msgs == old(msgs) + ms
    {
      hide Bytes;
      hide Increasing;
      BytesConcat(msgs, ms);
      AppendIncreasing(View(), ms);
      msgs := msgs + ms;
      position := position + Bytes(ms);
      if firstWriteTime == 0 {
        firstOffset, firstWriteTime := ms[0].offset, ms[0].timestamp;
      }
      lastOffset, lastWriteTime := ms[|ms| - 1].offset, ms[|ms| - 1].timestamp;
    }
  }

  lemma Copied(seg: Seg, offset: int) returns (n: nat)
    requires seg.Valid()
    ensures n <= |seg.msgs| && Before(seg.msgs, offset) == seg.msgs[..n]
    ensures forall i :: 0 <= i < n ==> seg.msgs[i].offset < offset
    ensures forall i :: n <= i < |seg.msgs| ==> seg.msgs[i].offset >= offset
  {
    n := BeforeOfIncreasing(seg.msgs, offset);
  }

  lemma CopyNext(seg: Seg, i: nat)
    requires seg.Valid() && i < |seg.msgs|
    ensures Increasing([seg.msgs[i]]) && Stamped([seg.msgs[i]])
    ensures seg.msgs[i].offset >= Seg(seg.base, seg.msgs[..i]).NextOffset()
    ensures seg.msgs[..i] + [seg.msgs[i]] == seg.msgs[..i + 1]
  {}

  lemma AppendIncreasing(s: Seg, ms: Log)
    requires s.Valid() && Increasing(ms) && Stamped(ms) && (ms != [] ==> ms[0].offset >= s.NextOffset())
    ensures Seg(s.base, s.msgs + ms).Valid()
  {
    var r := s.msgs + ms;
    forall i, j | 0 <= i < j < |r| ensures r[i].offset < r[j].offset {
      if i < |s.msgs| <= j {
        SegmentBounds(s, s.msgs[i]);
        if j > |s.msgs| { assert ms[0].offset < ms[j - |s.msgs|].offset; }
      }
    }
    forall i | 0 <= i < |r| ensures s.base <= r[i].offset {
      if i >= |s.msgs| {
        if s.msgs != [] { SegmentBounds(s, s.msgs[0]); }
        if i > |s.msgs| { assert ms[0].offset < ms[i - |s.msgs|].offset; }
      }
    }
  }

  class CommitLog {
    var segments: seq<Segment>
    var activeSegment: Segment
    var readonly: bool
    const cache: LeaderEpochCache
    const maxSegmentBytes: int
    const maxSegmentAge: int
    const concurrencyControl: bool

    function Parts(): (parts: seq<Seg>)
      reads this, segments
      ensures |parts| == |segments| && forall i :: 0 <= i < |parts| ==> parts[i] == segments[i].View()
    {
      seq(|segments|, i requires 0 <= i < |segments| reads this, segments => segments[i].View())
    }

    ghost function Contents(): Log
      reads this, segments
    {
      Flatten(Parts())
    }

    ghost predicate Valid()
      reads this, segments, cache
    {
      Sound() && cache.Valid()
    }

    ghost predicate Sound()
      reads this, segments
    {
      && maxSegmentBytes > 0
      && |segments| > 0 && activeSegment == segments[|segments| - 1]
      && (forall i :: 0 <= i < |segments| ==> segments[i].Valid())
      && (forall i, j :: 0 <= i < j < |segments| ==> segments[i] != segments[j])
      && Chain(Parts())
    }

    constructor (maxBytes: int, age: int, cc: bool)
      requires maxBytes > 0
      ensures Valid() && Contents() == [] && !readonly && fresh(segments) && fresh(cache)
      ensures NextOffset() == 0 && cache.epochOffsets == []
    {
      hide Flatten;
      hide Bytes;
      maxSegmentBytes, maxSegmentAge, concurrencyControl, readonly := maxBytes, age, cc, false;
      cache := new LeaderEpochCache();
      var first := new Segment(0, maxBytes);
      segments, activeSegment := [first], first;
      new;
      FlattenOne(first.View());
      assert Parts() == [first.View()];
    }

    function NextOffset(): (next: int)
      requires Sound()
      reads this, segments
      ensures next == SegmentedLog.NextOffset(Parts())
    {
      activeSegment.NextOffset()
    }

    function NewestOffset(): int
      requires Sound()
      reads this, segments
    {
      NextOffset() - 1
    }

    /** Rolls a new segment when the active one is full or old enough; the log does
        not change and the next offset stays. */
    method CheckAndPerformSplit(now: int) returns (split: bool)
      requires Valid()
      modifies this
      ensures Valid()
      ensures var full := old(Bytes(activeSegment.msgs)) >= old(activeSegment.maxBytes);
              split <==> full || (maxSegmentAge != 0 && old(activeSegment.msgs) != []
                                  && now - old(activeSegment.msgs)[0].timestamp >= maxSegmentAge)
      ensures split ==> fresh(activeSegment) && segments == old(segments) + [activeSegment] && activeSegment.msgs == []
      ensures !split ==> segments == old(segments)
      ensures Grew(old(Parts()), Parts())
      ensures Contents() == old(Contents()) && NextOffset() == old(NextOffset()) && readonly == old(readonly)
      ensures GapFree(Parts()) == old(GapFree(Parts()))
    {
      hide Parts;
      hide Flatten;
      hide GapFree;
      hide Bytes;
      hide Chain;
      hide Grew;
      split := activeSegment.CheckSplit(maxSegmentAge, now);
      activeSegment.SplitIff(maxSegmentAge, now);
      GrewSelf(Parts());
      if split { Split(); }
    }

    method Split()
      requires Valid() && activeSegment.msgs != []
      modifies this
      ensures Valid() && readonly == old(readonly)
      ensures fresh(activeSegment) && segments == old(segments) + [activeSegment] && activeSegment.msgs == []
      ensures Grew(old(Parts()), Parts())
      ensures Contents() == old(Contents()) && NextOffset() == old(NextOffset())
      ensures GapFree(Parts()) == old(GapFree(Parts()))
    {
      hide Parts;
      hide Flatten;
      hide GapFree;
      hide Bytes;
      hide Chain;
      hide Grew;
      ghost var before := Parts();
      var base := NextOffset();
      RolledLaw(before);
      var segment := new Segment(base, maxSegmentBytes);
      assert forall i :: 0 <= i < |segments| ==> segments[i].View() == before[i];
      segments, activeSegment := segments + [segment], segment;
      assert Parts() == before + [Seg(base, [])];
    }

    /** What a write needs to know of it. */
    method Roll(now: int)
      requires Valid()
      modifies this
      ensures Valid() && (segments == old(segments) || segments == old(segments) + [activeSegment])
      ensures segments == old(segments) || fresh(activeSegment)
      ensures Grew(old(Parts()), Parts())
      ensures Contents() == old(Contents()) && NextOffset() == old(NextOffset()) && readonly == old(readonly)
      ensures GapFree(Parts()) == old(GapFree(Parts()))
    {
      hide Parts;
      hide Flatten;
      hide GapFree;
      hide Chain;
      hide Bytes;
      hide Grew;
      hide Segment.Valid;
      var _ := CheckAndPerformSplit(now);
    }

    /** Writes a batch to the active segment and records the epochs it opens. */
    method AppendTo(ms: Log) returns (offsets: seq<int>)
      requires Valid() && ms != [] && Increasing(ms) && Stamped(ms) && ms[0].offset >= NextOffset()
      modifies activeSegment, cache
      ensures Valid() && Contents() == old(Contents()) + ms && Grew(old(Parts()), Parts())
      ensures NextOffset() == ms[|ms| - 1].offset + 1
      ensures |offsets| == |ms| && forall i :: 0 <= i < |ms| ==> offsets[i] == ms[i].offset
      ensures cache.epochOffsets == Observed(old(cache.epochOffsets), LatestEpoch(old(cache.epochOffsets)), ms)
      ensures old(GapFree(Parts())) && (forall i :: 0 <= i < |ms| ==> ms[i].offset == old(NextOffset()) + i)
              ==> GapFree(Parts())
    {
      hide Parts;
      hide Flatten;
      hide GapFree;
      hide Increasing;
      hide Stamped;
      hide Bytes;
      hide Chain;
      hide Grew;
      hide Segment.Valid;
      ghost var before := Parts();
      ExtendedLaw(before, ms);
      WriteActive(ms);
      hide Extended;
      hide Sound;
      offsets := RecordEpochs(ms);
    }

    method WriteActive(ms: Log)
      requires Sound() && ms != [] && Increasing(ms) && Stamped(ms) && ms[0].offset >= NextOffset()
      modifies activeSegment
      ensures Sound() && Parts() == Extended(old(Parts()), ms)
    {
      hide Parts;
      hide Increasing;
      hide Stamped;
      hide Bytes;
      hide Chain;
      ghost var before := Parts();
      ExtendedLaw(before, ms);
      activeSegment.WriteMessageSet(ms);
      assert Parts() == Extended(before, ms);
    }

    /** Assigns the epochs a written batch opens and lists its offsets. */
    method RecordEpochs(ms: Log) returns (offsets: seq<int>)
      requires cache.Valid()
      modifies cache
      ensures cache.Valid()
      ensures |offsets| == |ms| && forall i :: 0 <= i < |ms| ==> offsets[i] == ms[i].offset
      ensures cache.epochOffsets == Observed(old(cache.epochOffsets), LatestEpoch(old(cache.epochOffsets)), ms)
    {
      ghost var result := Observed(cache.epochOffsets, LatestEpoch(cache.epochOffsets), ms);
      var last := LatestEpoch(cache.epochOffsets);
      offsets := [];
      for i := 0 to |ms|
        invariant cache.Valid()
        invariant |offsets| == i && forall k :: 0 <= k < i ==> offsets[k] == ms[k].offset
        invariant Observed(cache.epochOffsets, last, ms[i..]) == result
      {
        assert ms[i..][1..] == ms[i + 1..];
        if ms[i].leaderEpoch > last {
          cache.Assign(ms[i].leaderEpoch, ms[i].offset);
          last := ms[i].leaderEpoch;
        }
        offsets := offsets + [ms[i].offset];
      }
    }

    /** Writes a batch from the next offset on. */
    method Write(batch: seq<Input>) returns (offsets: seq<int>)
      requires Valid() && batch != [] && forall i :: 0 <= i < |batch| ==> batch[i].timestamp > 0
      modifies activeSegment, cache
      ensures Valid() && Grew(old(Parts()), Parts())
      ensures Contents() == old(Contents()) + Stamp(batch, old(NextOffset()))
      ensures Written(old(Contents()), Contents(), batch, old(NextOffset()))
      ensures NextOffset() == old(NextOffset()) + |batch|
      ensures |offsets| == |batch| && forall i :: 0 <= i < |batch| ==> offsets[i] == old(NextOffset()) + i
      ensures cache.epochOffsets == Observed(old(cache.epochOffsets), LatestEpoch(old(cache.epochOffsets)),
                                             Stamp(batch, old(NextOffset())))
      ensures old(GapFree(Parts())) ==> GapFree(Parts())
    {
      hide Parts;
      hide Flatten;
      hide GapFree;
      hide Chain;
      hide Increasing;
      hide Stamped;
      hide Grew;
      hide Written;
      hide Observed;
      hide Segment.Valid;
      var base := NextOffset();
      StampIncreasing(batch, base);
      StampWrites(Contents(), batch, base);
      offsets := AppendTo(Stamp(batch, base));
    }

    /** Publishing: a batch is concatenated at the next offset. With concurrency
        control it succeeds exactly when the expected offset, if any, is the next one. */
    method Append(batch: seq<Input>, now: int) returns (r: Result<seq<int>, Error>)
      requires Valid() && batch != [] && (concurrencyControl ==> |batch| == 1)
      requires forall i :: 0 <= i < |batch| ==> batch[i].timestamp > 0
      modifies this, segments, cache
      ensures Valid() && readonly == old(readonly)
      ensures forall s :: s in segments ==> s in old(segments) || fresh(s)
      ensures old(segments) <= segments && Grew(old(Parts()), Parts())
      ensures r.Ok? <==> !readonly && (concurrencyControl ==> batch[0].expected in {-1, old(NextOffset())})
      ensures r.Ok? ==> Contents() == old(Contents()) + Stamp(batch, old(NextOffset()))
      ensures r.Ok? ==> Written(old(Contents()), Contents(), batch, old(NextOffset()))
      ensures r.Ok? ==> NextOffset() == old(NextOffset()) + |batch|
      ensures r.Ok? ==> |r.value| == |batch| && forall i :: 0 <= i < |batch| ==> r.value[i] == old(NextOffset()) + i
      ensures r.Ok? ==> cache.epochOffsets == Observed(old(cache.epochOffsets), LatestEpoch(old(cache.epochOffsets)),
                                                       Stamp(batch, old(NextOffset())))
      ensures r.Err? ==> r.error == (if readonly then ErrReadonly else ErrIncorrectOffset)
      ensures r.Err? ==> Contents() == old(Contents()) && NextOffset() == old(NextOffset())
                         && cache.epochOffsets == old(cache.epochOffsets)
      ensures old(GapFree(Parts())) ==> GapFree(Parts())
    {
      hide Parts;
      hide Flatten;
      hide GapFree;
      hide Chain;
      hide Increasing;
      hide Stamped;
      hide Grew;
      hide Written;
      hide Observed;
      hide Segment.Valid;
      ghost var before := Parts();
      GrewSelf(before);
      if readonly { return Err(ErrReadonly); }
      Roll(now);
      ghost var rolled := Parts();
      var base := NextOffset();
      if concurrencyControl && batch[0].expected != -1 && batch[0].expected != base {
        return Err(ErrIncorrectOffset);
      }
      var offsets := Write(batch);
      GrewTransitive(before, rolled, Parts());
      r := Ok(offsets);
    }

    /** Replication: messages that extend the log are concatenated, readonly or not. */
    method AppendMessageSet(ms: Log, now: int) returns (offsets: seq<int>)
      requires Valid() && ms != [] && Increasing(ms) && Stamped(ms) && ms[0].offset >= NextOffset()
      modifies this, segments, cache
      ensures Valid() && readonly == old(readonly) && Contents() == old(Contents()) + ms
      ensures forall s :: s in segments ==> s in old(segments) || fresh(s)
      ensures old(segments) <= segments && Grew(old(Parts()), Parts())
      ensures NextOffset() == ms[|ms| - 1].offset + 1
      ensures |offsets| == |ms| && forall i :: 0 <= i < |ms| ==> offsets[i] == ms[i].offset
      ensures cache.epochOffsets == Observed(old(cache.epochOffsets), LatestEpoch(old(cache.epochOffsets)), ms)
      ensures old(GapFree(Parts())) && (forall i :: 0 <= i < |ms| ==> ms[i].offset == old(NextOffset()) + i)
              ==> GapFree(Parts())
    {
      hide Parts;
      hide Flatten;
      hide GapFree;
      hide Chain;
      hide Increasing;
      hide Bytes;
      hide Grew;
      hide Segment.Valid;
      ghost var before := Parts();
      Roll(now);
      ghost var rolled := Parts();
      offsets := AppendTo(ms);
      GrewTransitive(before, rolled, Parts());
    }

    /** Copies the messages of a segment that lie below `offset` into a new segment. */
    method TruncatedCopy(seg: Segment, offset: int) returns (copy: Segment)
      requires seg.Valid()
      ensures fresh(copy) && copy.Valid()
      ensures copy.View() == Seg(seg.baseOffset, Before(seg.msgs, offset))
    {
      hide Increasing;
      hide Stamped;
      hide Bytes;
      hide Before;
      ghost var n := Copied(seg.View(), offset);
      copy := new Segment(seg.baseOffset, seg.maxBytes);
      var i := 0;
      while i < |seg.msgs| && seg.msgs[i].offset < offset
        invariant 0 <= i <= n
        invariant fresh(copy) && copy.Valid() && copy.baseOffset == seg.baseOffset && copy.msgs == seg.msgs[..i]
      {
        CopyNext(seg.View(), i);
        copy.WriteMessageSet([seg.msgs[i]]);
        i := i + 1;
      }
    }

    /** The segments that stay after truncation, the one the offset falls into
        replaced by a truncated copy or dropped. */
    method Retained(idx: nat, offset: int) returns (kept: seq<Segment>)
      requires Sound() && idx < |segments|
      ensures |kept| == |Truncated(Parts(), offset, idx)|
      ensures forall i :: 0 <= i < |kept| ==> kept[i].Valid() && kept[i].View() == Truncated(Parts(), offset, idx)[i]
      ensures forall i, j :: 0 <= i < j < |kept| ==> kept[i] != kept[j]
      ensures forall i :: 0 <= i < |kept| ==> kept[i] in segments || fresh(kept[i])
    {
      hide Chain;
      hide Before;
      hide Bytes;
      hide Parts;
      hide Segment.Valid;
      var seg := segments[idx];
      kept := segments[..idx];
      if seg.baseOffset != offset || idx == 0 {
        var copy := TruncatedCopy(seg, offset);
        kept := kept + [copy];
      }
    }

    method Install(kept: seq<Segment>, ghost parts: seq<Seg>)
      requires maxSegmentBytes > 0 && Chain(parts) && |kept| == |parts| > 0
      requires forall i :: 0 <= i < |kept| ==> kept[i].Valid() && kept[i].View() == parts[i]
      requires forall i, j :: 0 <= i < j < |kept| ==> kept[i] != kept[j]
      modifies this`segments, this`activeSegment
      ensures Sound() && segments == kept && Parts() == parts
    {
      hide Parts;
      hide Segment.Valid;
      hide Chain;
      segments, activeSegment := kept, kept[|kept| - 1];
      assert Parts() == parts;
    }

    method TruncateSegments(offset: int) returns (found: bool)
      requires Sound()
      modifies this`segments, this`activeSegment
      ensures Sound() && (found <==> offset < old(NextOffset()))
      ensures forall s :: s in segments ==> s in old(segments) || fresh(s)
      ensures Contents() == Before(old(Contents()), offset)
      ensures old(GapFree(Parts())) && old(segments[0].baseOffset) <= offset <= old(NextOffset())
              ==> GapFree(Parts()) && NextOffset() == offset
    {
      hide Truncated;
      hide Segment.Valid;
      hide Parts;
      hide Flatten;
      hide GapFree;
      hide Chain;
      hide Before;
      hide Bytes;
      hide Splits;
      ghost var before := Parts();
      var idx := FindSegment(Parts(), offset);
      TruncationLaw(before, offset, idx);
      found := idx < |segments|;
      if found {
        var kept := Retained(idx, offset);
        Install(kept, Truncated(before, offset, idx));
      }
    }

    /** Truncation drops exactly the messages at or above the offset, on every
        reachable log; on a gap-free one the offset becomes the next one assigned. */
    method Truncate(offset: int)
      requires Valid()
      modifies this, cache
      ensures Valid() && readonly == old(readonly)
      ensures forall s :: s in segments ==> s in old(segments) || fresh(s)
      ensures Contents() == Before(old(Contents()), offset)
      ensures cache.epochOffsets == if offset < old(NextOffset()) then ClearedLatest(old(cache.epochOffsets), offset)
                                    else old(cache.epochOffsets)
      ensures old(GapFree(Parts())) && old(segments[0].baseOffset) <= offset <= old(NextOffset())
              ==> GapFree(Parts()) && NextOffset() == offset
    {
      hide Parts;
      hide Flatten;
      hide GapFree;
      hide Chain;
      hide Before;
      var found := TruncateSegments(offset);
      if found {
        cache.ClearLatest(offset);
      }
    }

    method NewLeaderEpoch(epoch: Epoch)
      requires Valid()
      modifies cache
      ensures Valid() && Contents() == old(Contents())
      ensures cache.epochOffsets == Assigned(old(cache.epochOffsets), epoch, NextOffset() - 1)
      ensures FromZero(Parts()) ==>
                cache.epochOffsets == Assigned(old(cache.epochOffsets), epoch, |Contents()| - 1)
    {
      hide Flatten;
      hide Parts;
      hide GapFree;
      hide Chain;
      hide Segment.Valid;
      if FromZero(Parts()) { FromZeroLength(Parts()); }
      cache.Assign(epoch, NewestOffset());
    }

    method LastOffsetForLeaderEpoch(epoch: Epoch) returns (offset: int)
      requires Valid()
      ensures offset == AnswerFor(cache.epochOffsets, NextOffset() - 1, epoch)
      ensures FromZero(Parts()) ==> offset == AnswerFor(cache.epochOffsets, |Contents()| - 1, epoch)
    {
      hide Flatten;
      hide Parts;
      hide GapFree;
      hide Chain;
      hide Segment.Valid;
      if FromZero(Parts()) { FromZeroLength(Parts()); }
      offset := cache.LastOffsetForLeaderEpoch(epoch);
      if offset == -1 {
        offset := NewestOffset();
      }
    }
  }

  /** The answer to a leader offset request: the cache's, or the log end for "none". */
  function AnswerFor(es: Entries, newest: int, epoch: Epoch): int {
    var s := LastOffsetFor(es, epoch);
    if s == -1 then newest else s
  }

  lemma {:induction false} RolledLaw(segs: seq<Seg>)
    requires Chain(segs) && segs[|segs| - 1].msgs != []
    ensures var base := SegmentedLog.NextOffset(segs);
            var r := segs + [Seg(base, [])];
            && base >= 0 && Chain(r) && GapFree(r) == GapFree(segs) && Grew(segs, r)
            && Flatten(r) == Flatten(segs) && SegmentedLog.NextOffset(r) == base
  {
    hide Flatten;
    hide GapFree;
    var base := SegmentedLog.NextOffset(segs);
    FlattenOne(Seg(base, []));
    FlattenConcat(segs, [Seg(base, [])]);
    ExtendChain(segs, base);
    NextAboveBase(segs[|segs| - 1]);
  }

  lemma ExtendChain(segs: seq<Seg>, base: int)
    requires Chain(segs) && segs[|segs| - 1].msgs != [] && base == SegmentedLog.NextOffset(segs)
    ensures Chain(segs + [Seg(base, [])])
    ensures GapFree(segs + [Seg(base, [])]) == GapFree(segs)
  {
    hide GapFree;
    ExtendGapFree(segs, base);
    var n := |segs|;
    var r := segs + [Seg(base, [])];
    forall i | 0 <= i < n ensures segs[i].Valid() && segs[i].NextOffset() <= base {
      NextOffsetMonotone(segs, i, n - 1);
    }
    NextAboveBase(segs[n - 1]);
    hide Seg.Valid;
    EmptyIsValid(base);
    forall i, j | 0 <= i < j < |r| ensures r[i].NextOffset() <= r[j].base {}
  }

  lemma EmptyIsValid(base: int)
    requires base >= 0
    ensures Seg(base, []).Valid()
  {}

  lemma ExtendGapFree(segs: seq<Seg>, base: int)
    requires segs != [] && base == SegmentedLog.NextOffset(segs)
    ensures GapFree(segs + [Seg(base, [])]) == GapFree(segs)
  {
    var n := |segs|;
    var r := segs + [Seg(base, [])];
    forall i | 0 <= i < n ensures segs[i] == r[i] {}
    if GapFree(r) {
      forall i | 0 <= i < n - 1 ensures segs[i].NextOffset() == segs[i + 1].base {
        assert r[i].NextOffset() == r[i + 1].base;
      }
    }
  }

  lemma TruncatedNothing(segs: seq<Seg>, offset: int, idx: nat)
    requires Chain(segs) && idx <= |segs|
    ensures Truncated(segs, offset, idx) != [] && (idx == |segs| ==> Truncated(segs, offset, idx) == segs)
  {}

  lemma TruncationLaw(segs: seq<Seg>, offset: int, idx: nat)
    requires Chain(segs) && Splits(segs, offset, idx)
    ensures Chain(Truncated(segs, offset, idx))
    ensures Flatten(Truncated(segs, offset, idx)) == Before(Flatten(segs), offset)
    ensures GapFree(segs) && segs[0].base <= offset <= SegmentedLog.NextOffset(segs)
            ==> GapFree(Truncated(segs, offset, idx)) && SegmentedLog.NextOffset(Truncated(segs, offset, idx)) == offset
    ensures idx < |segs| <==> offset < SegmentedLog.NextOffset(segs)
    ensures Truncated(segs, offset, idx) != [] && (idx == |segs| ==> Truncated(segs, offset, idx) == segs)
  {
    TruncatedNothing(segs, offset, idx);
    hide Truncated;
    hide Flatten;
    hide Before;
    hide GapFree;
    TruncatedChain(segs, offset, idx);
    TruncatedFlatten(segs, offset, idx);
    if GapFree(segs) && segs[0].base <= offset <= SegmentedLog.NextOffset(segs) {
      TruncatedNextOffset(segs, offset, idx);
    }
  }

  /** The segments after a batch is written to the last one. */
  ghost function Extended(segs: seq<Seg>, ms: Log): seq<Seg>
    requires segs != []
  {
    var n := |segs| - 1;
    segs[..n] + [Seg(segs[n].base, segs[n].msgs + ms)]
  }

  lemma ExtendedLaw(segs: seq<Seg>, ms: Log)
    requires Chain(segs) && Increasing(ms) && Stamped(ms) && ms != [] && ms[0].offset >= SegmentedLog.NextOffset(segs)
    ensures Chain(Extended(segs, ms)) && Flatten(Extended(segs, ms)) == Flatten(segs) + ms
    ensures Grew(segs, Extended(segs, ms))
    ensures SegmentedLog.NextOffset(Extended(segs, ms)) == ms[|ms| - 1].offset + 1
    ensures GapFree(segs) && (forall i :: 0 <= i < |ms| ==> ms[i].offset == SegmentedLog.NextOffset(segs) + i)
            ==> GapFree(Extended(segs, ms))
  {
    hide Flatten;
    hide GapFree;
    hide Increasing;
    var n := |segs| - 1;
    AppendIncreasing(segs[n], ms);
    ReplaceLast(segs, n, Seg(segs[n].base, segs[n].msgs + ms));
    AppendFlatten(segs, ms);
    if GapFree(segs) && forall i :: 0 <= i < |ms| ==> ms[i].offset == SegmentedLog.NextOffset(segs) + i {
      AppendGapFree(segs, ms);
    }
  }

  lemma AppendFlatten(segs: seq<Seg>, ms: Log)
    requires segs != []
    ensures Flatten(Extended(segs, ms)) == Flatten(segs) + ms
  {
    var n := |segs| - 1;
    assert Extended(segs, ms)[..n] == segs[..n];
  }

  lemma AppendGapFree(segs: seq<Seg>, ms: Log)
    requires Chain(segs) && GapFree(segs)
    requires forall i :: 0 <= i < |ms| ==> ms[i].offset == SegmentedLog.NextOffset(segs) + i
    ensures GapFree(Extended(segs, ms))
  {
    var n := |segs| - 1;
    var s, r := segs[n], Extended(segs, ms);
    var k := |s.msgs|;
    if k > 0 { assert s.msgs[k - 1].offset == s.base + k - 1; }
    forall i | 0 <= i < |s.msgs + ms| ensures (s.msgs + ms)[i].offset == s.base + i {
      if i < k { assert s.msgs[i].offset == s.base + i; }
    }
    assert r[n].Dense();
    forall i | 0 <= i < n ensures r[i].NextOffset() == r[i + 1].base {
      assert segs[i].NextOffset() == segs[i + 1].base;
    }
  }
}
