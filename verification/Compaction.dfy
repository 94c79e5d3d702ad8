/** Log compaction: every segment but the last is rewritten with the messages that have
    no key, are the latest of their key, or are not yet below the high watermark. */
module Compaction {
  import opened Wrappers
  import opened EpochCache
  import opened Messages
  import opened SegmentedLog
  import opened CommitLogs
  import opened KeyScan

  predicate Keep(m: Message, offsets: map<string, int>, hw: int) {
    var latest := if KeyOf(m) in offsets then offsets[KeyOf(m)] else 0;
    m.key.None? || m.offset == latest || m.offset >= hw
  }

  function Cleaned(msgs: Log, offsets: map<string, int>, hw: int): Log {
    if msgs == [] then []
    else
      var n := |msgs| - 1;
      Cleaned(msgs[..n], offsets, hw) + if Keep(msgs[n], offsets, hw) then [msgs[n]] else []
  }

  /** Rewritten segments; one left with nothing is dropped. */
  function CleanedAll(segs: seq<Seg>, offsets: map<string, int>, hw: int): seq<Seg> {
    if segs == [] then []
    else
      var n := |segs| - 1;
      var msgs := Cleaned(segs[n].msgs, offsets, hw);
      CleanedAll(segs[..n], offsets, hw) + if msgs == [] then [] else [Seg(segs[n].base, msgs)]
  }

  function Compacted(segs: seq<Seg>, offsets: map<string, int>, hw: int): seq<Seg> {
    if |segs| <= 1 then segs
    else CleanedAll(segs[..|segs| - 1], offsets, hw) + [segs[|segs| - 1]]
  }

  // ----- shape -----

  lemma CleanedStep(msgs: Log, m: Message, offsets: map<string, int>, hw: int)
    ensures Cleaned(msgs + [m], offsets, hw) == Cleaned(msgs, offsets, hw) + if Keep(m, offsets, hw) then [m] else []
  {
    assert (msgs + [m])[..|msgs|] == msgs;
  }

  lemma CleanedAllStep(segs: seq<Seg>, s: Seg, offsets: map<string, int>, hw: int)
    ensures var msgs := Cleaned(s.msgs, offsets, hw);
            CleanedAll(segs + [s], offsets, hw) ==
            CleanedAll(segs, offsets, hw) + if msgs == [] then [] else [Seg(s.base, msgs)]
  {
    assert (segs + [s])[..|segs|] == segs;
  }

  lemma {:induction false} CleanedLaw(msgs: Log, offsets: map<string, int>, hw: int, m: Message)
    ensures m in Cleaned(msgs, offsets, hw) <==> m in msgs && Keep(m, offsets, hw)
  {
    if msgs != [] {
      var n := |msgs| - 1;
      CleanedLaw(msgs[..n], offsets, hw, m);
      assert msgs == msgs[..n] + [msgs[n]];
    }
  }

  lemma {:induction false} CleanedIncreasing(msgs: Log, offsets: map<string, int>, hw: int)
    requires Increasing(msgs)
    ensures Increasing(Cleaned(msgs, offsets, hw))
  {
    if msgs != [] {
      var n := |msgs| - 1;
      CleanedIncreasing(msgs[..n], offsets, hw);
      var c := Cleaned(msgs[..n], offsets, hw);
      forall i | 0 <= i < |c| ensures c[i].offset < msgs[n].offset {
        CleanedLaw(msgs[..n], offsets, hw, c[i]);
      }
    }
  }

  lemma CleanedValid(s: Seg, offsets: map<string, int>, hw: int)
    requires s.Valid()
    ensures var c := Seg(s.base, Cleaned(s.msgs, offsets, hw));
            c.Valid() && c.NextOffset() <= s.NextOffset()
  {
    hide Keep;
    CleanedIncreasing(s.msgs, offsets, hw);
    var c := Cleaned(s.msgs, offsets, hw);
    forall i | 0 <= i < |c| ensures s.base <= c[i].offset < s.NextOffset() && c[i].timestamp > 0 {
      CleanedLaw(s.msgs, offsets, hw, c[i]);
      SegmentBounds(s, c[i]);
    }
    if s.msgs != [] { SegmentBounds(s, s.msgs[0]); }
  }

  /** Non-empty segments that follow each other up to `end`. */
  ghost predicate Linked(segs: seq<Seg>, end: int) {
    && (forall i :: 0 <= i < |segs| ==> segs[i].Valid() && segs[i].msgs != [] && segs[i].NextOffset() <= end)
    && (forall i, j :: 0 <= i < j < |segs| ==> segs[i].NextOffset() <= segs[j].base)
  }

  /** The rewritten segments follow each other, each within the range it had. */
  lemma {:induction false} CleanedAllChain(segs: seq<Seg>, offsets: map<string, int>, hw: int, end: int)
    requires Linked(segs, end)
    ensures Linked(CleanedAll(segs, offsets, hw), end)
  {
    hide Cleaned;
    hide CleanedAll;
    hide Linked;
    CleanedNone(offsets, hw);
    if segs != [] {
      var n := |segs| - 1;
      LinkedParts(segs, end);
      CleanedAllChain(segs[..n], offsets, hw, segs[n].base);
      CleanedValid(segs[n], offsets, hw);
      assert segs == segs[..n] + [segs[n]];
      CleanedAllStep(segs[..n], segs[n], offsets, hw);
      var r, c := CleanedAll(segs[..n], offsets, hw), Seg(segs[n].base, Cleaned(segs[n].msgs, offsets, hw));
      NextAboveBase(segs[n]);
      LinkedPush(r, c, end);
    }
  }

  lemma LinkedParts(segs: seq<Seg>, end: int)
    requires Linked(segs, end) && segs != []
    ensures var n := |segs| - 1;
            Linked(segs[..n], segs[n].base) && segs[n].Valid() && segs[n].NextOffset() <= end
  {}

  lemma LinkedPush(r: seq<Seg>, s: Seg, end: int)
    requires Linked(r, s.base) && s.Valid() && s.base <= end && s.NextOffset() <= end
    ensures Linked(r, end) && Linked(r + [], end) && (s.msgs != [] ==> Linked(r + [s], end))
  {
    assert r + [] == r;
  }

  lemma ChainEnd(r: seq<Seg>, s: Seg)
    requires s.Valid() && Linked(r, s.base)
    ensures Chain(r + [s])
  {
  }

  /** Compaction leaves a well-formed log that ends where it did. */
  lemma CompactedChain(segs: seq<Seg>, offsets: map<string, int>, hw: int)
    requires Chain(segs)
    ensures Chain(Compacted(segs, offsets, hw))
    ensures NextOffset(Compacted(segs, offsets, hw)) == NextOffset(segs)
  {
    hide CleanedAll;
    if |segs| > 1 {
      var n := |segs| - 1;
      CleanedAllChain(segs[..n], offsets, hw, segs[n].base);
      ChainEnd(CleanedAll(segs[..n], offsets, hw), segs[n]);
    }
  }

  // ----- which messages survive -----

  lemma {:induction false} CleanedAllMembers(segs: seq<Seg>, offsets: map<string, int>, hw: int, m: Message)
    ensures m in Flatten(CleanedAll(segs, offsets, hw)) <==> m in Flatten(segs) && Keep(m, offsets, hw)
  {
    hide Keep;
    hide Cleaned;
    hide CleanedAll;
    hide Flatten;
    CleanedNone(offsets, hw);
    if segs == [] {
      FlattenNone();
    } else {
      var n := |segs| - 1;
      assert segs[..n + 1] == segs;
      CleanedAllMembers(segs[..n], offsets, hw, m);
      CleanedLaw(segs[n].msgs, offsets, hw, m);
      FlattenPush(segs, n, offsets, hw);
      FlattenLast(segs);
    }
  }

  lemma FlattenNone()
    ensures Flatten([]) == []
  {}

  lemma FlattenLast(segs: seq<Seg>)
    requires segs != []
    ensures Flatten(segs) == Flatten(segs[..|segs| - 1]) + segs[|segs| - 1].msgs
  {}

  lemma CompactedMembers(segs: seq<Seg>, offsets: map<string, int>, hw: int, m: Message)
    requires |segs| > 1
    ensures m in Flatten(Compacted(segs, offsets, hw)) <==>
            m in Flatten(segs) && (m in segs[|segs| - 1].msgs || Keep(m, offsets, hw))
  {
    hide Keep;
    var n := |segs| - 1;
    CleanedAllMembers(segs[..n], offsets, hw, m);
    FlattenConcat(CleanedAll(segs[..n], offsets, hw), [segs[n]]);
    FlattenOne(segs[n]);
  }

  /** A later message of the same key, also at or below the watermark. */
  ghost predicate Superseded(log: Log, hw: int, m: Message) {
    exists n :: n in log && KeyOf(n) == KeyOf(m) && m.offset < n.offset <= hw
  }

  lemma KeepIff(log: Log, offsets: map<string, int>, hw: int, m: Message)
    requires LatestOffsets(log, hw, offsets) && m in log
    ensures Keep(m, offsets, hw) <==> m.key.None? || m.offset >= hw || !Superseded(log, hw, m)
  {
    if m.offset < hw {
      assert Covers(offsets, m);
      var k := KeyOf(m);
      assert Attains(log, hw, k, offsets[k]);
      if m.offset < offsets[k] {
        var n :| n in log && KeyOf(n) == k && n.offset == offsets[k];
        assert Superseded(log, hw, m);
      } else {
        forall n | n in log && KeyOf(n) == k && n.offset <= hw ensures n.offset <= m.offset {
          assert Covers(offsets, n);
        }
      }
    }
  }

  /** Exactly the keyed, superseded messages below the watermark and outside the last
      segment are removed; the rest stay in order. */
  lemma {:induction false} CompactionRemoves(segs: seq<Seg>, offsets: map<string, int>, hw: int, m: Message)
    requires Chain(segs) && LatestOffsets(Flatten(segs), hw, offsets)
    ensures Increasing(Flatten(Compacted(segs, offsets, hw)))
    ensures m in Flatten(Compacted(segs, offsets, hw)) ==> m in Flatten(segs)
    ensures m in Flatten(segs) && m !in Flatten(Compacted(segs, offsets, hw)) <==>
            && m in Flatten(segs[..|segs| - 1])
            && m.key.Some?
            && m.offset < hw
            && Superseded(Flatten(segs), hw, m)
  {
    hide Keep;
    CompactedChain(segs, offsets, hw);
    FlattenIncreasing(Compacted(segs, offsets, hw));
    var n := |segs| - 1;
    if m in Flatten(segs) { KeepIff(Flatten(segs), offsets, hw, m); }
    LastApart(segs, m);
    if |segs| > 1 {
      CompactedMembers(segs, offsets, hw, m);
    } else {
      assert segs[..n] == [];
    }
  }

  lemma LastApart(segs: seq<Seg>, m: Message)
    requires Chain(segs)
    ensures var n := |segs| - 1;
            && (m in Flatten(segs) <==> m in Flatten(segs[..n]) || m in segs[n].msgs)
            && !(m in Flatten(segs[..n]) && m in segs[n].msgs)
  {
    var n := |segs| - 1;
    if m in Flatten(segs[..n]) {
      FlattenMember(segs[..n], m);
      var i :| 0 <= i < n && m in segs[..n][i].msgs;
      SegmentBounds(segs[i], m);
      forall x | x in segs[n].msgs ensures x != m { SegmentBounds(segs[n], x); }
    }
  }

  // ----- meaning -----

  /** What a reader of the key sees as its value at an offset. */
  ghost predicate IsLatest(log: Log, k: string, o: int, m: Message) {
    && m in log && m.key == Some(k) && m.offset <= o
    && (forall n :: n in log && n.key == Some(k) && n.offset <= o ==> n.offset <= m.offset)
  }

  ghost predicate SameLatest(a: Log, b: Log, k: string, o: int) {
    forall m :: IsLatest(a, k, o, m) <==> IsLatest(b, k, o, m)
  }

  /** The message holding a key's recorded offset always survives. */
  lemma WinnerStays(segs: seq<Seg>, offsets: map<string, int>, hw: int, k: string) returns (w: Message)
    requires Chain(segs) && LatestOffsets(Flatten(segs), hw, offsets) && k in offsets
    ensures w in Flatten(segs) && w in Flatten(Compacted(segs, offsets, hw))
    ensures KeyOf(w) == k && w.offset == offsets[k] <= hw
  {
    assert Attains(Flatten(segs), hw, k, offsets[k]);
    w :| w in Flatten(segs) && KeyOf(w) == k && w.offset == offsets[k] && w.offset <= hw;
    if |segs| > 1 { CompactedMembers(segs, offsets, hw, w); }
  }

  /** Compaction preserves meaning: from the watermark on, every non-empty key has the
      latest message it had. */
  lemma CompactionPreservesLatest(segs: seq<Seg>, offsets: map<string, int>, hw: int, k: string, o: int)
    requires Chain(segs) && LatestOffsets(Flatten(segs), hw, offsets)
    requires k != "" && o >= hw
    ensures SameLatest(Flatten(segs), Flatten(Compacted(segs, offsets, hw)), k, o)
  {
    hide Compacted;
    hide Flatten;
    hide Chain;
    var a, b := Flatten(segs), Flatten(Compacted(segs, offsets, hw));
    forall n | n in a && n.key == Some(k) && n !in b
      ensures exists w :: w in b && w.key == Some(k) && n.offset < w.offset <= hw
    {
      CompactionRemoves(segs, offsets, hw, n);
      assert Covers(offsets, n);
      var w := WinnerStays(segs, offsets, hw, k);
      var later :| later in a && KeyOf(later) == k && n.offset < later.offset <= hw;
      assert Covers(offsets, later);
    }
    forall m | m in b ensures m in a { CompactionRemoves(segs, offsets, hw, m); }
  }

  function EmptyKeyed(): Message { Message(0, 1, 0, Some(""), "v", 10) }
  function Keyless(): Message { Message(1, 1, 0, None, "w", 10) }
  function TwoSegments(): seq<Seg> { [Seg(0, [EmptyKeyed(), Keyless()]), Seg(2, [])] }

  lemma TwoSegmentsLog()
    ensures Chain(TwoSegments()) && Flatten(TwoSegments()) == [EmptyKeyed(), Keyless()]
    ensures Flatten(TwoSegments()[..1]) == [EmptyKeyed(), Keyless()]
  {
    hide Flatten;
    FlattenTwo(TwoSegments()[0], TwoSegments()[1]);
    assert TwoSegments()[..1] == [TwoSegments()[0]];
    ChainEnd([TwoSegments()[0]], TwoSegments()[1]);
    assert TwoSegments() == [TwoSegments()[0]] + [TwoSegments()[1]];
  }

  lemma FlattenTwo(a: Seg, b: Seg)
    ensures Flatten([a, b]) == a.msgs + b.msgs && Flatten([a]) == a.msgs
  {
    assert [a, b] == [a] + [b];
    FlattenConcat([a], [b]);
    FlattenOne(a);
    FlattenOne(b);
  }

  /** The empty key is not safe: a message without a key supersedes it. */
  lemma EmptyKeyLosesValue()
    ensures Chain(TwoSegments()) && LatestOffsets(Flatten(TwoSegments()), 1, map["" := 1])
    ensures IsLatest(Flatten(TwoSegments()), "", 1, EmptyKeyed())
    ensures !SameLatest(Flatten(TwoSegments()), Flatten(Compacted(TwoSegments(), map["" := 1], 1)), "", 1)
  {
    hide Chain;
    hide Flatten;
    hide Compacted;
    TwoSegmentsLog();
    var log := Flatten(TwoSegments());
    assert log[0] == EmptyKeyed() && log[1] == Keyless();
    assert Attains(log, 1, "", 1);
    CompactionRemoves(TwoSegments(), map["" := 1], 1, EmptyKeyed());
    assert Superseded(log, 1, EmptyKeyed());
  }

  /** For the empty key it holds exactly when its latest message is not itself
      removed, that is unless a keyless message up to the watermark comes after it. */
  lemma {:induction false} EmptyKeyIff(segs: seq<Seg>, offsets: map<string, int>, hw: int, o: int, m: Message)
    requires Chain(segs) && LatestOffsets(Flatten(segs), hw, offsets) && o >= hw
    requires IsLatest(Flatten(segs), "", o, m)
    ensures SameLatest(Flatten(segs), Flatten(Compacted(segs, offsets, hw)), "", o) <==>
            (m.offset >= hw || m in segs[|segs| - 1].msgs
             || forall n :: n in Flatten(segs) && n.key.None? && n.offset <= hw ==> n.offset < m.offset)
  {
    hide Compacted;
    hide Flatten;
    hide Chain;
    var a, b := Flatten(segs), Flatten(Compacted(segs, offsets, hw));
    CompactionRemoves(segs, offsets, hw, m);
    FlattenIncreasing(segs);
    LastApart(segs, m);
    if m in b {
      forall n | n in b ensures n in a { CompactionRemoves(segs, offsets, hw, n); }
      forall n | IsLatest(b, "", o, n) ensures n == m { SameOffset(a, m, n); }
      forall n | IsLatest(a, "", o, n) ensures n == m { SameOffset(a, m, n); }
    }
    forall n | n in a && n.key.None? && n.offset == m.offset ensures false { SameOffset(a, m, n); }
  }

  lemma SameOffset(log: Log, m: Message, n: Message)
    requires Increasing(log) && m in log && n in log && m.offset == n.offset
    ensures m == n
  {
    var i :| 0 <= i < |log| && log[i] == m;
    var j :| 0 <= j < |log| && log[j] == n;
  }

  // ----- compacting again -----

  lemma {:induction false} CleanedTwice(msgs: Log, offsets: map<string, int>, hw: int)
    ensures Cleaned(Cleaned(msgs, offsets, hw), offsets, hw) == Cleaned(msgs, offsets, hw)
  {
    if msgs != [] {
      var n := |msgs| - 1;
      CleanedTwice(msgs[..n], offsets, hw);
      var c := Cleaned(msgs[..n], offsets, hw);
      assert c + [] == c;
      CleanedStep(c, msgs[n], offsets, hw);
    }
  }

  lemma {:induction false} CleanedAllTwice(segs: seq<Seg>, offsets: map<string, int>, hw: int)
    ensures CleanedAll(CleanedAll(segs, offsets, hw), offsets, hw) == CleanedAll(segs, offsets, hw)
  {
    if segs != [] {
      var n := |segs| - 1;
      CleanedAllTwice(segs[..n], offsets, hw);
      CleanedTwice(segs[n].msgs, offsets, hw);
      var r, c := CleanedAll(segs[..n], offsets, hw), Cleaned(segs[n].msgs, offsets, hw);
      assert r + [] == r;
      CleanedAllStep(r, Seg(segs[n].base, c), offsets, hw);
    }
  }

  lemma RescanSame(segs: seq<Seg>, offsets: map<string, int>, again: map<string, int>, hw: int)
    requires Chain(segs) && LatestOffsets(Flatten(segs), hw, offsets)
    requires LatestOffsets(Flatten(Compacted(segs, offsets, hw)), hw, again)
    ensures again == offsets
  {
    hide Compacted;
    hide Flatten;
    hide Chain;
    var a, b := Flatten(segs), Flatten(Compacted(segs, offsets, hw));
    forall m | m in b ensures m in a { CompactionRemoves(segs, offsets, hw, m); }
    forall k | k in again ensures k in offsets && again[k] <= offsets[k] {
      assert Attains(b, hw, k, again[k]);
      var m :| m in b && KeyOf(m) == k && m.offset == again[k] && m.offset <= hw;
      assert Covers(offsets, m);
    }
    forall k | k in offsets ensures k in again && offsets[k] <= again[k] {
      var w := WinnerStays(segs, offsets, hw, k);
      assert Covers(again, w);
    }
  }

  /** Compacting again at the same watermark, after any scan, changes nothing. */
  lemma CompactionIdempotent(segs: seq<Seg>, offsets: map<string, int>, again: map<string, int>, hw: int)
    requires Chain(segs) && LatestOffsets(Flatten(segs), hw, offsets)
    requires LatestOffsets(Flatten(Compacted(segs, offsets, hw)), hw, again)
    ensures Compacted(Compacted(segs, offsets, hw), again, hw) == Compacted(segs, offsets, hw)
  {
    RescanSame(segs, offsets, again, hw);
    if |segs| > 1 {
      var n := |segs| - 1;
      CleanedAllTwice(segs[..n], offsets, hw);
      var r := CleanedAll(segs[..n], offsets, hw);
      assert (r + [segs[n]])[..|r|] == r;
    }
  }

  // ----- the loops -----

  /** The cache after one more message. */
  lemma {:induction false} ObservedPush(es: Entries, last: Epoch, msgs: Log, m: Message)
    ensures Observed(es, last, msgs + [m]) ==
            var before := Observed(es, last, msgs);
            if m.leaderEpoch > Highest(last, msgs) then Assigned(before, m.leaderEpoch, m.offset) else before
    decreases |msgs|
  {
    if msgs == [] {
      assert [m][1..] == [] && msgs + [m] == [m];
    } else {
      assert (msgs + [m])[1..] == msgs[1..] + [m];
      if msgs[0].leaderEpoch > last {
        ObservedPush(Assigned(es, msgs[0].leaderEpoch, msgs[0].offset), msgs[0].leaderEpoch, msgs[1..], m);
      } else {
        ObservedPush(es, last, msgs[1..], m);
      }
    }
  }

  function Highest(last: Epoch, msgs: Log): Epoch
    decreases |msgs|
  {
    if msgs == [] then last else Highest(if msgs[0].leaderEpoch > last then msgs[0].leaderEpoch else last, msgs[1..])
  }

  lemma {:induction false} HighestPush(last: Epoch, msgs: Log, m: Message)
    ensures Highest(last, msgs + [m]) ==
            if m.leaderEpoch > Highest(last, msgs) then m.leaderEpoch else Highest(last, msgs)
    decreases |msgs|
  {
    if msgs == [] {
      assert [m][1..] == [] && msgs + [m] == [m];
    } else {
      assert (msgs + [m])[1..] == msgs[1..] + [m];
      HighestPush(if msgs[0].leaderEpoch > last then msgs[0].leaderEpoch else last, msgs[1..], m);
    }
  }

  /** The cache holds what was observed of the messages and nothing past `end`. */
  ghost predicate Tracks(es: Entries, msgs: Log, end: int) {
    es == Observed([], 0, msgs) && LatestEpoch(es) == Highest(0, msgs) && LatestOffset(es) < end
  }

  /** Records the epoch a retained message opens, if any. */
  method Track(cache: LeaderEpochCache, m: Message, ghost msgs: Log)
    requires cache.Valid() && m.offset >= 0 && Tracks(cache.epochOffsets, msgs, m.offset)
    modifies cache
    ensures cache.Valid() && Tracks(cache.epochOffsets, msgs + [m], m.offset + 1)
  {
    ObservedPush([], 0, msgs, m);
    HighestPush(0, msgs, m);
    if m.leaderEpoch > LatestEpoch(cache.epochOffsets) { cache.Assign(m.leaderEpoch, m.offset); }
  }

  /** Rewrites one segment message by message; an emptied segment is gone. */
  method CleanSegment(seg: Seg, offsets: map<string, int>, hw: int, cache: LeaderEpochCache, ghost before: Log)
    returns (r: Option<Seg>, removed: nat)
    requires seg.Valid() && cache.Valid() && Tracks(cache.epochOffsets, before, seg.base)
    modifies cache
    ensures cache.Valid() && Tracks(cache.epochOffsets, before + Cleaned(seg.msgs, offsets, hw), seg.NextOffset())
    ensures r ==
            if Cleaned(seg.msgs, offsets, hw) == [] then None else Some(Seg(seg.base, Cleaned(seg.msgs, offsets, hw)))
    ensures removed + |Cleaned(seg.msgs, offsets, hw)| == |seg.msgs|
  {
    hide Cleaned;
    hide Keep;
    hide Tracks;
    hide Seg.Valid;
    var cleaned: Log := [];
    removed := 0;
    CleanedNone(offsets, hw);
    assert before + [] == before;
    for i := 0 to |seg.msgs|
      invariant cache.Valid() && cleaned == Cleaned(seg.msgs[..i], offsets, hw) && removed + |cleaned| == i
      invariant Tracks(cache.epochOffsets, before + cleaned, EndAt(seg, i))
    {
      var m := seg.msgs[i];
      EndsInOrder(seg, i);
      assert seg.msgs[..i + 1] == seg.msgs[..i] + [m];
      CleanedStep(seg.msgs[..i], m, offsets, hw);
      TracksLater(cache.epochOffsets, before + cleaned, EndAt(seg, i), m.offset);
      if Keep(m, offsets, hw) {
        Track(cache, m, before + cleaned);
        assert before + cleaned + [m] == before + (cleaned + [m]);
        cleaned := cleaned + [m];
      } else {
        TracksLater(cache.epochOffsets, before + cleaned, m.offset, m.offset + 1);
        removed := removed + 1;
      }
    }
    assert seg.msgs[..|seg.msgs|] == seg.msgs;
    r := if cleaned == [] then None else Some(Seg(seg.base, cleaned));
  }

  /** Where the first `i` messages of a segment end. */
  function EndAt(seg: Seg, i: nat): int
    requires i <= |seg.msgs|
  {
    if i == 0 then seg.base else seg.msgs[i - 1].offset + 1
  }

  lemma EndsInOrder(seg: Seg, i: nat)
    requires seg.Valid() && i < |seg.msgs|
    ensures 0 <= EndAt(seg, i) <= seg.msgs[i].offset && EndAt(seg, |seg.msgs|) == seg.NextOffset()
  {}

  lemma TracksLater(es: Entries, msgs: Log, end: int, later: int)
    requires Tracks(es, msgs, end) && end <= later
    ensures Tracks(es, msgs, later)
  {}

  lemma CleanedNone(offsets: map<string, int>, hw: int)
    ensures Cleaned([], offsets, hw) == [] && CleanedAll([], offsets, hw) == []
  {}

  /** Compacts a log from the offsets of any complete key scan. One segment is left as
      it is; otherwise the new epoch cache is what the compacted log shows. */
  method Compact(hw: int, segs: seq<Seg>, offsets: map<string, int>)
    returns (compacted: seq<Seg>, cache: Option<LeaderEpochCache>)
    requires Chain(segs) && LatestOffsets(Flatten(segs), hw, offsets)
    ensures compacted == Compacted(segs, offsets, hw)
    ensures cache.None? <==> |segs| <= 1
    ensures cache.Some? ==>
              && fresh(cache.value) && cache.value.Valid()
              && cache.value.epochOffsets == Observed([], 0, Flatten(compacted))
              && LatestOffset(cache.value.epochOffsets) < NextOffset(segs)
  {
    hide Cleaned;
    hide CleanedAll;
    hide Flatten;
    hide Chain;
    hide Tracks;
    if |segs| <= 1 { return segs, None; }
    var n := |segs| - 1;
    var c := new LeaderEpochCache();
    compacted := [];
    Start(segs, offsets, hw);
    for i := 0 to n
      invariant c.Valid() && fresh(c) && compacted == CleanedAll(segs[..i], offsets, hw)
      invariant Tracks(c.epochOffsets, Flatten(compacted), segs[i].base)
    {
      SegmentFollows(segs, i);
      var r, removed := CleanSegment(segs[i], offsets, hw, c, Flatten(compacted));
      FlattenPush(segs, i, offsets, hw);
      if r.Some? { compacted := compacted + [r.value]; }
      TracksLater(c.epochOffsets, Flatten(compacted), segs[i].NextOffset(), segs[i + 1].base);
    }
    SegmentFollows(segs, n);
    TrackAll(c, segs[n], Flatten(compacted));
    FlattenConcat(compacted, [segs[n]]);
    FlattenOne(segs[n]);
    TracksMeans(c.epochOffsets, Flatten(compacted) + segs[n].msgs, segs[n].NextOffset());
    compacted := compacted + [segs[n]];
    cache := Some(c);
  }

  /** The last segment's messages are all kept; the epochs they open are recorded. */
  method TrackAll(cache: LeaderEpochCache, seg: Seg, ghost before: Log)
    requires cache.Valid() && seg.Valid() && Tracks(cache.epochOffsets, before, seg.base)
    modifies cache
    ensures cache.Valid() && Tracks(cache.epochOffsets, before + seg.msgs, seg.NextOffset())
  {
    hide Tracks;
    hide Seg.Valid;
    assert before + seg.msgs[..0] == before;
    for i := 0 to |seg.msgs|
      invariant cache.Valid() && Tracks(cache.epochOffsets, before + seg.msgs[..i], EndAt(seg, i))
    {
      EndsInOrder(seg, i);
      TracksLater(cache.epochOffsets, before + seg.msgs[..i], EndAt(seg, i), seg.msgs[i].offset);
      Track(cache, seg.msgs[i], before + seg.msgs[..i]);
      assert before + seg.msgs[..i] + [seg.msgs[i]] == before + seg.msgs[..i + 1];
    }
    assert seg.msgs[..|seg.msgs|] == seg.msgs;
  }

  lemma SegmentFollows(segs: seq<Seg>, i: nat)
    requires Chain(segs) && i < |segs|
    ensures segs[i].Valid() && (i + 1 < |segs| ==> segs[i].NextOffset() <= segs[i + 1].base)
  {}

  lemma TracksMeans(es: Entries, msgs: Log, end: int)
    requires Tracks(es, msgs, end)
    ensures es == Observed([], 0, msgs) && LatestOffset(es) < end
  {}

  lemma Start(segs: seq<Seg>, offsets: map<string, int>, hw: int)
    requires Chain(segs)
    ensures CleanedAll(segs[..0], offsets, hw) == [] && Tracks([], Flatten([]), segs[0].base)
  {}

  lemma FlattenPush(segs: seq<Seg>, i: nat, offsets: map<string, int>, hw: int)
    requires i < |segs|
    ensures var c := Cleaned(segs[i].msgs, offsets, hw);
            var r := CleanedAll(segs[..i], offsets, hw);
            && CleanedAll(segs[..i + 1], offsets, hw) == (if c == [] then r else r + [Seg(segs[i].base, c)])
            && Flatten(CleanedAll(segs[..i + 1], offsets, hw)) == Flatten(r) + c
  {
    hide Cleaned;
    hide CleanedAll;
    assert segs[..i + 1] == segs[..i] + [segs[i]];
    CleanedAllStep(segs[..i], segs[i], offsets, hw);
    var r, s := CleanedAll(segs[..i], offsets, hw), Seg(segs[i].base, Cleaned(segs[i].msgs, offsets, hw));
    FlattenConcat(r, [s]);
    FlattenOne(s);
  }
}
