/** Cleaning a commit log while it is written to. The segments are read under the lock,
    cleaned without it, and put back under it; in between the log goes on being appended
    to and rolled. Segments are shared objects, so one that is kept has what was written
    to it meanwhile. */
module Cleaning {
  import opened Wrappers
  import opened Messages
  import opened SegmentedLog
  import opened EpochCache
  import opened CommitLogs
  import opened KeyScan
  import Retention
  import Compaction

  // ----- what happens meanwhile -----

  datatype Action =
    | Publish(batch: seq<Input>, now: int)
    | Replicate(ms: Log, now: int)
    | Roll(now: int)
    | NewEpoch(epoch: Epoch)

  /** What actions add to a log, its next offset and its epoch cache. */
  datatype Tail = Tail(added: Log, next: int, epochs: Entries)

  function Written(t: Tail, ms: Log): Tail
    requires ms != []
  {
    Tail(t.added + ms, ms[|ms| - 1].offset + 1, Observed(t.epochs, LatestEpoch(t.epochs), ms))
  }

  function Acted(t: Tail, a: Action, readonly: bool, cc: bool): Tail {
    match a
    case Publish(batch, _) =>
      if readonly || batch == [] || (cc && batch[0].expected != -1 && batch[0].expected != t.next) then t
      else Written(t, Stamp(batch, t.next))
    case Replicate(ms, _) => if ms == [] then t else Written(t, ms)
    case Roll(_) => t
    case NewEpoch(epoch) => t.(epochs := Assigned(t.epochs, epoch, t.next - 1))
  }

  function After(t: Tail, actions: seq<Action>, readonly: bool, cc: bool): Tail {
    if actions == [] then t
    else Acted(After(t, actions[..|actions| - 1], readonly, cc), actions[|actions| - 1], readonly, cc)
  }

  /** What the log asks of those who append to it. */
  ghost predicate Legal(a: Action, next: int, cc: bool) {
    match a
    case Publish(batch, _) =>
      batch != [] && (cc ==> |batch| == 1) && forall i :: 0 <= i < |batch| ==> batch[i].timestamp > 0
    case Replicate(ms, _) => ms != [] && Increasing(ms) && Stamped(ms) && ms[0].offset >= next
    case _ => true
  }

  ghost predicate AllLegal(t: Tail, actions: seq<Action>, readonly: bool, cc: bool) {
    forall i :: 0 <= i < |actions| ==> Legal(actions[i], After(t, actions[..i], readonly, cc).next, cc)
  }

  ghost function TailOf(l: CommitLog): Tail
    requires l.Valid()
    reads l, l.segments, l.cache
  {
    Tail([], l.NextOffset(), l.cache.epochOffsets)
  }

  method Act(l: CommitLog, a: Action)
    requires l.Valid() && Legal(a, l.NextOffset(), l.concurrencyControl)
    modifies l, l.segments, l.cache
    ensures l.Valid() && l.readonly == old(l.readonly)
    ensures forall i :: 0 <= i < |l.segments| ==> l.segments[i] in old(l.segments) || fresh(l.segments[i])
    ensures old(l.segments) <= l.segments && Grew(old(l.Parts()), l.Parts())
    ensures var t := Acted(old(TailOf(l)), a, l.readonly, l.concurrencyControl);
            l.Contents() == old(l.Contents()) + t.added && l.NextOffset() == t.next && l.cache.epochOffsets == t.epochs
  {
    hide CommitLog.Parts;
    hide CommitLog.Sound;
    hide CommitLog.Contents;
    hide CommitLog.NextOffset;
    hide Grew;
    NonEmpty(l);
    GrewSelf(l.Parts());
    assert l.Contents() + [] == l.Contents();
    match a {
      case Publish(batch, now) => DoPublish(l, batch, now);
      case Replicate(ms, now) => DoReplicate(l, ms, now);
      case Roll(now) => DoRoll(l, now);
      case NewEpoch(epoch) => DoNewEpoch(l, epoch);
    }
  }

  method DoPublish(l: CommitLog, batch: seq<Input>, now: int)
    requires l.Valid() && Legal(Publish(batch, now), l.NextOffset(), l.concurrencyControl)
    modifies l, l.segments, l.cache
    ensures l.Valid() && l.readonly == old(l.readonly)
    ensures forall i :: 0 <= i < |l.segments| ==> l.segments[i] in old(l.segments) || fresh(l.segments[i])
    ensures old(l.segments) <= l.segments && Grew(old(l.Parts()), l.Parts())
    ensures var t := Acted(old(TailOf(l)), Publish(batch, now), l.readonly, l.concurrencyControl);
            l.Contents() == old(l.Contents()) + t.added && l.NextOffset() == t.next && l.cache.epochOffsets == t.epochs
  {
    hide CommitLog.Parts;
    hide CommitLog.Sound;
    hide CommitLog.Contents;
    hide CommitLog.NextOffset;
    hide Grew;
    hide GapFree;
    hide Observed;
    hide Acted;
    hide Stamp;
    assert l.Contents() + [] == l.Contents();
    PublishActed(TailOf(l), batch, now, l.readonly, l.concurrencyControl);
    var _ := l.Append(batch, now);
  }

  lemma PublishActed(t: Tail, batch: seq<Input>, now: int, readonly: bool, cc: bool)
    requires t.added == [] && batch != []
    ensures Acted(t, Publish(batch, now), readonly, cc) ==
            if !readonly && (cc ==> batch[0].expected in {-1, t.next})
            then Tail(Stamp(batch, t.next), t.next + |batch|,
                      Observed(t.epochs, LatestEpoch(t.epochs), Stamp(batch, t.next)))
            else t
  {
    hide Observed;
    hide Stamp;
    assert [] + Stamp(batch, t.next) == Stamp(batch, t.next);
  }

  method DoReplicate(l: CommitLog, ms: Log, now: int)
    requires l.Valid() && Legal(Replicate(ms, now), l.NextOffset(), l.concurrencyControl)
    modifies l, l.segments, l.cache
    ensures l.Valid() && l.readonly == old(l.readonly)
    ensures forall i :: 0 <= i < |l.segments| ==> l.segments[i] in old(l.segments) || fresh(l.segments[i])
    ensures old(l.segments) <= l.segments && Grew(old(l.Parts()), l.Parts())
    ensures var t := Acted(old(TailOf(l)), Replicate(ms, now), l.readonly, l.concurrencyControl);
            l.Contents() == old(l.Contents()) + t.added && l.NextOffset() == t.next && l.cache.epochOffsets == t.epochs
  {
    hide CommitLog.Parts;
    hide CommitLog.Sound;
    hide CommitLog.Contents;
    hide CommitLog.NextOffset;
    hide Grew;
    hide GapFree;
    hide Observed;
    hide Increasing;
    hide Stamped;
    assert [] + ms == ms;
    var _ := l.AppendMessageSet(ms, now);
  }

  method DoRoll(l: CommitLog, now: int)
    requires l.Valid()
    modifies l, l.segments, l.cache
    ensures l.Valid() && l.readonly == old(l.readonly)
    ensures forall i :: 0 <= i < |l.segments| ==> l.segments[i] in old(l.segments) || fresh(l.segments[i])
    ensures old(l.segments) <= l.segments && Grew(old(l.Parts()), l.Parts())
    ensures l.Contents() == old(l.Contents()) && l.NextOffset() == old(l.NextOffset())
    ensures l.cache.epochOffsets == old(l.cache.epochOffsets)
  {
    hide CommitLog.Parts;
    hide CommitLog.Sound;
    hide CommitLog.Contents;
    hide CommitLog.NextOffset;
    hide Grew;
    hide GapFree;
    var _ := l.CheckAndPerformSplit(now);
  }

  method DoNewEpoch(l: CommitLog, epoch: Epoch)
    requires l.Valid()
    modifies l, l.segments, l.cache
    ensures l.Valid() && l.readonly == old(l.readonly)
    ensures l.segments == old(l.segments) && Grew(old(l.Parts()), l.Parts())
    ensures l.Contents() == old(l.Contents()) && l.NextOffset() == old(l.NextOffset())
    ensures l.cache.epochOffsets == Assigned(old(l.cache.epochOffsets), epoch, l.NextOffset() - 1)
  {
    hide CommitLog.Parts;
    hide CommitLog.Sound;
    hide CommitLog.Contents;
    hide CommitLog.NextOffset;
    hide Grew;
    hide Assigned;
    NonEmpty(l);
    GrewSelf(l.Parts());
    l.NewLeaderEpoch(epoch);
  }

  lemma ActedShift(t: Tail, a: Action, readonly: bool, cc: bool)
    ensures var u := Acted(t.(added := []), a, readonly, cc);
            Acted(t, a, readonly, cc) == u.(added := t.added + u.added)
  {
    assert t.added + [] == t.added;
    if a.Publish? {
      assert t.added + ([] + Stamp(a.batch, t.next)) == t.added + Stamp(a.batch, t.next);
    } else if a.Replicate? {
      assert t.added + ([] + a.ms) == t.added + a.ms;
    }
  }

  /** Any actions, in any order: the log has what it had and what they add. */
  method Meanwhile(l: CommitLog, actions: seq<Action>)
    requires l.Valid() && AllLegal(TailOf(l), actions, l.readonly, l.concurrencyControl)
    modifies l, l.segments, l.cache
    ensures l.Valid() && l.readonly == old(l.readonly)
    ensures forall i :: 0 <= i < |l.segments| ==> l.segments[i] in old(l.segments) || fresh(l.segments[i])
    ensures old(l.segments) <= l.segments && Grew(old(l.Parts()), l.Parts())
    ensures var t := After(old(TailOf(l)), actions, l.readonly, l.concurrencyControl);
            l.Contents() == old(l.Contents()) + t.added && l.NextOffset() == t.next && l.cache.epochOffsets == t.epochs
  {
    hide CommitLog.Parts;
    hide CommitLog.Sound;
    hide CommitLog.Contents;
    hide CommitLog.NextOffset;
    hide Grew;
    hide Acted;
    hide Legal;
    if actions == [] {
      NonEmpty(l);
      GrewSelf(l.Parts());
      assert l.Contents() + [] == l.Contents();
    } else {
      var n := |actions| - 1;
      ghost var t0 := TailOf(l);
      LegalSoFar(t0, actions, l.readonly, l.concurrencyControl);
      Meanwhile(l, actions[..n]);
      ghost var t := After(t0, actions[..n], l.readonly, l.concurrencyControl);
      ghost var mid := l.Parts();
      ActedShift(t, actions[n], l.readonly, l.concurrencyControl);
      ghost var u := Acted(t.(added := []), actions[n], l.readonly, l.concurrencyControl);
      Act(l, actions[n]);
      GrewTransitive(old(l.Parts()), mid, l.Parts());
      Regroup(old(l.Contents()), t.added, u.added);
    }
  }

  lemma Regroup(a: Log, b: Log, c: Log)
    ensures (a + b) + c == a + (b + c)
  {}

  lemma LegalSoFar(t: Tail, actions: seq<Action>, readonly: bool, cc: bool)
    requires actions != [] && AllLegal(t, actions, readonly, cc)
    ensures var n := |actions| - 1;
            AllLegal(t, actions[..n], readonly, cc) && Legal(actions[n], After(t, actions[..n], readonly, cc).next, cc)
  {
    hide Legal;
    hide After;
    var n := |actions| - 1;
    forall i | 0 <= i < n ensures Legal(actions[..n][i], After(t, actions[..n][..i], readonly, cc).next, cc) {
      assert actions[..n][..i] == actions[..i];
    }
  }

  lemma NonEmpty(l: CommitLog)
    requires l.Valid()
    ensures |l.Parts()| == |l.segments| > 0
  {}

  // ----- retention -----

  /** The first phase: the segments as they are now, and how many of them go. */
  method Select(l: CommitLog, limits: Retention.Limits, ttl: int) returns (seen: seq<Segment>, k: nat)
    requires l.Valid()
    ensures seen == l.segments && k < |seen| && k == Retention.CleanCut(l.Parts(), limits, ttl)
  {
    hide Retention.CleanCut;
    hide Retention.WithinLimits;
    hide Retention.UnexpiredSeen;
    hide Retention.Overdue;
    hide Chain;
    hide Segment.Valid;
    hide CommitLog.Parts;
    IsChain(l);
    seen := l.segments;
    var kept := Retention.Clean(l.Parts(), limits, ttl);
    k := |seen| - |kept|;
  }

  /** The second phase: what was kept, and behind it what was rolled since. */
  method PutBack(l: CommitLog, seen: seq<Segment>, k: nat)
    requires l.Valid() && seen <= l.segments && k < |seen|
    modifies l`segments, l`activeSegment, l.cache
    ensures l.Valid() && l.segments == old(l.segments)[k..] && l.Parts() == old(l.Parts())[k..]
    ensures l.NextOffset() == old(l.NextOffset())
    ensures l.cache.epochOffsets == ClearedEarliest(old(l.cache.epochOffsets), old(l.segments)[k].baseOffset)
  {
    hide Chain;
    hide CommitLog.Parts;
    hide Segment.Valid;
    hide ClearedEarliest;
    ghost var parts := l.Parts();
    assert Chain(parts);
    ChainSuffix(parts, k);
    var cleaned := seen[k..];
    if |l.segments| > |seen| { cleaned := cleaned + l.segments[|seen|..]; }
    assert cleaned == l.segments[k..];
    l.Install(cleaned, parts[k..]);
    hide CommitLog.Sound;
    l.cache.ClearEarliest(l.segments[0].baseOffset);
  }

  /** The second phase, for a log that has grown since `parts` by `added`. */
  method FinishRetention(l: CommitLog, seen: seq<Segment>, k: nat, ghost parts: seq<Seg>, ghost added: Log)
    requires l.Valid() && seen <= l.segments && k < |seen| == |parts|
    requires Grew(parts, l.Parts()) && l.Contents() == Flatten(parts) + added
    modifies l`segments, l`activeSegment, l.cache
    ensures l.Valid() && l.NextOffset() == old(l.NextOffset())
    ensures old(l.Contents()) == Flatten(parts[..k]) + l.Contents() && l.Contents() == Flatten(parts[k..]) + added
    ensures l.cache.epochOffsets == ClearedEarliest(old(l.cache.epochOffsets), parts[k].base)
  {
    hide CommitLog.Parts;
    hide CommitLog.Sound;
    hide CommitLog.NextOffset;
    hide Flatten;
    hide Grew;
    hide ClearedEarliest;
    ghost var now := l.Parts();
    GrewKeeps(parts, now, k);
    PutBack(l, seen, k);
    Dropped(parts, now, k);
    Cancel(Flatten(parts[..k]), Flatten(parts[k..]), added, l.Contents());
  }

  /** Retention against a log in use: of what was there and what was added meanwhile,
      exactly the messages of the segments that the limits cut from the log as it was
      at the start are gone. Nothing is lost of what was added, the next offset is what
      it would have been, and the epoch cache is cut back to the first segment left. */
  method Clean(l: CommitLog, limits: Retention.Limits, ttl: int, actions: seq<Action>)
    requires l.Valid() && AllLegal(TailOf(l), actions, l.readonly, l.concurrencyControl)
    modifies l, l.segments, l.cache
    ensures l.Valid() && l.readonly == old(l.readonly)
    ensures var t := After(old(TailOf(l)), actions, l.readonly, l.concurrencyControl);
            var k := Retention.CleanCut(old(l.Parts()), limits, ttl);
            && old(l.Contents()) + t.added == Flatten(old(l.Parts())[..k]) + l.Contents()
            && l.Contents() == Flatten(old(l.Parts())[k..]) + t.added
            && l.NextOffset() == t.next
            && l.cache.epochOffsets == ClearedEarliest(t.epochs, old(l.Parts())[k].base)
  {
    hide CommitLog.Parts;
    hide CommitLog.Sound;
    hide CommitLog.NextOffset;
    hide Flatten;
    hide Grew;
    hide AllLegal;
    hide After;
    hide Retention.CleanCut;
    hide ClearedEarliest;
    ghost var parts := l.Parts();
    NonEmpty(l);
    var seen, k := Select(l, limits, ttl);
    Meanwhile(l, actions);
    FinishRetention(l, seen, k, parts, After(old(TailOf(l)), actions, l.readonly, l.concurrencyControl).added);
  }

  lemma Dropped(parts: seq<Seg>, now: seq<Seg>, k: nat)
    requires k <= |parts| && k <= |now| && parts[..k] == now[..k]
    ensures Flatten(parts) == Flatten(parts[..k]) + Flatten(parts[k..])
    ensures Flatten(now) == Flatten(parts[..k]) + Flatten(now[k..])
  {
    hide Flatten;
    FlattenConcat(parts[..k], parts[k..]);
    FlattenConcat(now[..k], now[k..]);
    assert parts == parts[..k] + parts[k..] && now == now[..k] + now[k..];
  }

  lemma Cancel(a: Log, b: Log, c: Log, d: Log)
    requires (a + b) + c == a + d
    ensures d == b + c
  {
    assert (a + d)[|a|..] == d && ((a + b) + c)[|a|..] == b + c;
  }

  // ----- compaction -----

  /** The cache put in place of the log's: what compaction scanned, and from the log's own
      cache the newer entries that start in segments rolled since, if any were. */
  function Replacement(scanned: Entries, es: Entries, rolled: Option<int>): Entries {
    if rolled.None? then scanned
    else scanned + Newer(es[|Below(es, rolled.value)|..], LatestEpoch(scanned))
  }

  /** Exactly which epochs the log learned since the scan come through: those that start
      at or behind the first segment rolled since. An epoch that starts before it, or
      any at all if no segment was rolled, is forgotten. */
  lemma EpochsForgotten(scanned: Entries, es: Entries, rolled: Option<int>, e: EpochOffset)
    requires Sorted(scanned) && Sorted(es) && e in es && e.leaderEpoch > LatestEpoch(scanned)
    ensures e in Replacement(scanned, es, rolled) <==> rolled.Some? && e.startOffset >= rolled.value
  {
    hide Below;
    forall i | 0 <= i < |scanned| ensures scanned[i].leaderEpoch <= LatestEpoch(scanned) {
      assert i < |scanned| - 1 ==> Ordered(scanned[i], scanned[|scanned| - 1]);
    }
    if rolled.Some? {
      BelowIsPrefix(es, rolled.value);
      var n := |Below(es, rolled.value)|;
      SortedSuffix(es, n);
      NewerAre(es[n..], LatestEpoch(scanned), e);
      var i :| 0 <= i < |es| && es[i] == e;
      if i >= n { assert es[n..][i - n] == e; }
    }
  }

  lemma SortedSuffix(es: Entries, n: nat)
    requires Sorted(es) && n <= |es|
    ensures Sorted(es[n..])
  {
    forall i, j | 0 <= i < j < |es| - n ensures Ordered(es[n..][i], es[n..][j]) {
      assert Ordered(es[n + i], es[n + j]);
    }
  }

  /** So nothing is forgotten if and only if every epoch the log has learned since the
      scan starts in a segment rolled since. */
  lemma NothingForgottenIff(scanned: Entries, es: Entries, rolled: Option<int>)
    requires Sorted(scanned) && Sorted(es)
    ensures (forall e :: e in es && e.leaderEpoch > LatestEpoch(scanned) ==> e in Replacement(scanned, es, rolled)) <==>
            (forall e :: e in es && e.leaderEpoch > LatestEpoch(scanned) ==>
             rolled.Some? && e.startOffset >= rolled.value)
  {
    hide Replacement;
    forall e | e in es && e.leaderEpoch > LatestEpoch(scanned)
      ensures e in Replacement(scanned, es, rolled) <==> rolled.Some? && e.startOffset >= rolled.value
    {
      EpochsForgotten(scanned, es, rolled, e);
    }
  }

  /** A leader opens an epoch at the offset of the last message before it. So also an
      epoch whose first message is the first one of a rolled segment is forgotten. */
  lemma OpenedEpochForgotten(scanned: Entries, next: nat, epoch: Epoch)
    requires Sorted(scanned) && LatestOffset(scanned) < next && epoch > LatestEpoch(scanned)
    ensures var es := Assigned(scanned, epoch, next - 1);
            && es == scanned + [EpochOffset(epoch, next - 1)]
            && EpochOffset(epoch, next - 1) !in Replacement(scanned, es, Some(next))
  {
    var e := EpochOffset(epoch, next - 1);
    var es := Assigned(scanned, epoch, next - 1);
    AssignKeepsSorted(scanned, epoch, next - 1);
    assert es[|scanned|] == e;
    EpochsForgotten(scanned, es, Some(next), e);
  }

  lemma ChainJoin(r: seq<Seg>, segs: seq<Seg>)
    requires Chain(segs) && Compaction.Linked(r, segs[0].base)
    ensures Chain(r + segs) && SegmentedLog.NextOffset(r + segs) == SegmentedLog.NextOffset(segs)
  {
    var q := r + segs;
    forall i, j | 0 <= i < j < |q| ensures q[i].NextOffset() <= q[j].base {
      if i < |r| <= j {
        assert q[i].NextOffset() <= segs[0].base;
        if j > |r| {
          NextAboveBase(segs[0]);
          assert segs[0].NextOffset() <= segs[j - |r|].base;
        }
      } else if i >= |r| {
        assert segs[i - |r|].NextOffset() <= segs[j - |r|].base;
      }
    }
    forall i | 0 <= i < |q| - 1 ensures q[i].msgs != [] {
      if i >= |r| { assert segs[i - |r|].msgs != []; }
    }
  }

  /** Writes rewritten segments out. */
  method Materialize(parts: seq<Seg>, maxBytes: int) returns (objs: seq<Segment>)
    requires maxBytes > 0 && forall i :: 0 <= i < |parts| ==> parts[i].Valid() && parts[i].msgs != []
    ensures |objs| == |parts|
    ensures forall i :: 0 <= i < |objs| ==> fresh(objs[i]) && objs[i].Valid() && objs[i].View() == parts[i]
    ensures forall i, j :: 0 <= i < j < |objs| ==> objs[i] != objs[j]
  {
    hide Bytes;
    hide Segment.Valid;
    objs := [];
    for n := 0 to |parts|
      invariant |objs| == n
      invariant forall i :: 0 <= i < n ==> fresh(objs[i]) && objs[i].Valid() && objs[i].View() == parts[i]
      invariant forall i, j :: 0 <= i < j < n ==> objs[i] != objs[j]
    {
      var seg := NewSegment(parts[n], maxBytes);
      objs := objs + [seg];
    }
  }

  method NewSegment(part: Seg, maxBytes: int) returns (seg: Segment)
    requires maxBytes > 0 && part.Valid() && part.msgs != []
    ensures fresh(seg) && seg.Valid() && seg.View() == part
  {
    seg := new Segment(part.base, maxBytes);
    seg.WriteMessageSet(part.msgs);
  }

  /** The second phase after compaction. The last segment seen was not rewritten, and the
      segments rolled since come behind it. */
  method PutBackCompacted(l: CommitLog, seen: seq<Segment>, rewritten: seq<Seg>, cache: LeaderEpochCache)
    requires l.Valid() && seen != [] && seen <= l.segments && cache.Valid() && cache != l.cache
    requires Compaction.Linked(rewritten, l.Parts()[|seen| - 1].base)
    requires |seen| < |l.segments| ==> LatestOffset(cache.epochOffsets) <= l.segments[|seen|].baseOffset
    modifies l`segments, l`activeSegment, l.cache, cache
    ensures l.Valid() && l.Parts() == rewritten + old(l.Parts())[|seen| - 1..]
    ensures l.NextOffset() == old(l.NextOffset())
    ensures l.cache.epochOffsets ==
            Replacement(old(cache.epochOffsets), old(l.cache.epochOffsets),
                        if |seen| == old(|l.segments|) then None else Some(old(l.segments)[|seen|].baseOffset))
  {
    hide CommitLog.Parts;
    hide CommitLog.Sound;
    hide CommitLog.NextOffset;
    hide Compaction.Linked;
    if |l.segments| > |seen| { RebaseOnto(cache, l.cache, l.segments[|seen|].baseOffset); }
    InstallBehind(l, rewritten, |seen| - 1);
    l.cache.Replace(cache);
  }

  /** Rewritten segments in front of those from `n` on. */
  method InstallBehind(l: CommitLog, rewritten: seq<Seg>, n: nat)
    requires l.Sound() && n < |l.segments| && Compaction.Linked(rewritten, l.Parts()[n].base)
    modifies l`segments, l`activeSegment
    ensures l.Sound() && l.Parts() == rewritten + old(l.Parts())[n..] && l.NextOffset() == old(l.NextOffset())
  {
    hide Chain;
    hide CommitLog.Parts;
    hide Segment.Valid;
    hide Compaction.Linked;
    ghost var parts := l.Parts();
    assert Chain(parts);
    ChainSuffix(parts, n);
    ChainJoin(rewritten, parts[n..]);
    LinkedAre(rewritten, parts[n].base);
    var objs := Materialize(rewritten, l.maxSegmentBytes);
    Joined(l, objs, rewritten, n);
    l.Install(objs + l.segments[n..], rewritten + parts[n..]);
  }

  lemma Joined(l: CommitLog, objs: seq<Segment>, rewritten: seq<Seg>, n: nat)
    requires l.Sound() && n < |l.segments| && |objs| == |rewritten|
    requires forall i :: 0 <= i < |objs| ==> objs[i] !in l.segments && objs[i].Valid() && objs[i].View() == rewritten[i]
    requires forall i, j :: 0 <= i < j < |objs| ==> objs[i] != objs[j]
    ensures var q, parts := objs + l.segments[n..], rewritten + l.Parts()[n..];
            && |q| == |parts| && (forall i :: 0 <= i < |q| ==> q[i].Valid() && q[i].View() == parts[i])
            && (forall i, j :: 0 <= i < j < |q| ==> q[i] != q[j])
  {
    hide Chain;
    hide CommitLog.Parts;
    hide Segment.Valid;
    hide Segment.View;
    var q, k := objs + l.segments[n..], |objs|;
    assert forall i :: k <= i < |q| ==> q[i] == l.segments[n + (i - k)];
    forall i, j | 0 <= i < j < |q| ensures q[i] != q[j] {
      if i < k <= j { assert q[j] in l.segments; }
    }
  }

  lemma LinkedAre(segs: seq<Seg>, end: int)
    requires Compaction.Linked(segs, end)
    ensures forall i :: 0 <= i < |segs| ==> segs[i].Valid() && segs[i].msgs != []
  {}

  method RebaseOnto(cache: LeaderEpochCache, from: LeaderEpochCache, base: int)
    requires cache.Valid() && from.Valid() && cache != from && LatestOffset(cache.epochOffsets) <= base
    modifies cache
    ensures cache.Valid() && cache.epochOffsets == Replacement(old(cache.epochOffsets), from.epochOffsets, Some(base))
  {
    hide Below;
    hide Rebased;
    ghost var scanned, es := cache.epochOffsets, from.epochOffsets;
    cache.Rebase(from, base);
    BelowIsPrefix(es, base);
    SortedSuffix(es, |Below(es, base)|);
    RebasedAdds(scanned, es[|Below(es, base)|..]);
  }

  /** What compaction leaves of the segments selected, without the last one. */
  ghost function Rewritten(kept: seq<Seg>, offsets: map<string, int>, hw: int): seq<Seg>
    requires kept != []
  {
    Compaction.CleanedAll(kept[..|kept| - 1], offsets, hw)
  }

  /** Retention and compaction against a log in use: the log ends up with the compacted
      form of what retention left of it at the start, followed by everything that was
      added meanwhile. The epoch cache is replaced by what compaction scanned and what
      the replacement takes over; `now` are the segments at the second phase. */
  method CleanAndCompact(l: CommitLog, limits: Retention.Limits, ttl: int, hw: int, offsets: map<string, int>,
                         actions: seq<Action>)
    returns (ghost now: seq<Seg>)
    requires l.Valid() && AllLegal(TailOf(l), actions, l.readonly, l.concurrencyControl)
    requires LatestOffsets(Flatten(l.Parts()[Retention.CleanCut(l.Parts(), limits, ttl)..]), hw, offsets)
    modifies l, l.segments, l.cache
    ensures l.Valid() && l.readonly == old(l.readonly) && Grew(old(l.Parts()), now)
    ensures l.NextOffset() == After(old(TailOf(l)), actions, l.readonly, l.concurrencyControl).next
    ensures EndsAs(old(l.Parts()), Retention.CleanCut(old(l.Parts()), limits, ttl), offsets, hw,
                   After(old(TailOf(l)), actions, l.readonly, l.concurrencyControl),
                   now, l.Contents(), l.cache.epochOffsets)
  {
    hide CommitLog.Parts;
    hide CommitLog.Sound;
    hide CommitLog.NextOffset;
    hide Flatten;
    hide Grew;
    hide AllLegal;
    hide After;
    hide Observed;
    hide Retention.CleanCut;
    hide ClearedEarliest;
    hide Compaction.Compacted;
    hide Replacement;
    hide LatestOffsets;
    hide Chain;
    hide Compacts;
    hide EndsAs;
    hide Segment.Valid;
    hide Segment.View;
    hide TailOf;
    ghost var parts := l.Parts();
    IsChain(l);
    var seen, k, compacted, cache := Prepare(l, limits, ttl, hw, offsets);
    CompactsMeans(parts[k..], offsets, hw, compacted, cache);
    assert cache.Some? ==> cache.value != l.cache;
    ghost var scanned := if cache.Some? then cache.value.epochOffsets else [];
    Meanwhile(l, actions);
    assert cache.Some? ==> cache.value.epochOffsets == scanned && cache.value.Valid();
    now := l.Parts();
    ghost var t := After(old(TailOf(l)), actions, l.readonly, l.concurrencyControl);
    Finish(l, seen, k, offsets, hw, compacted, cache, parts, t);
  }

  /** What is left of segments `parts` from `k` on when `t` happened meanwhile. */
  ghost predicate EndsAs(parts: seq<Seg>, k: nat, offsets: map<string, int>, hw: int, t: Tail, now: seq<Seg>,
                         contents: Log, epochs: Entries)
    requires k < |parts|
  {
    var left := Flatten(Compaction.Compacted(parts[k..], offsets, hw));
    && contents == left + t.added
    && epochs == if k == |parts| - 1 then ClearedEarliest(t.epochs, parts[k].base)
                 else Replacement(Observed([], 0, left), t.epochs, RolledAt(parts, now))
  }

  /** What compaction makes of the segments kept. */
  ghost predicate Compacts(kept: seq<Seg>, offsets: map<string, int>, hw: int, compacted: seq<Seg>,
                           cache: Option<LeaderEpochCache>)
    requires kept != []
    reads if cache.Some? then {cache.value} else {}
  {
    && compacted == Compaction.Compacted(kept, offsets, hw) && (cache.None? <==> |kept| <= 1)
    && (cache.Some? ==>
          && cache.value.Valid() && cache.value.epochOffsets == Observed([], 0, Flatten(compacted))
          && LatestOffset(cache.value.epochOffsets) < SegmentedLog.NextOffset(kept))
  }

  lemma CompactsMeans(kept: seq<Seg>, offsets: map<string, int>, hw: int, compacted: seq<Seg>,
                      cache: Option<LeaderEpochCache>)
    requires kept != [] && Compacts(kept, offsets, hw, compacted, cache)
    ensures compacted == Compaction.Compacted(kept, offsets, hw) && (cache.None? <==> |kept| <= 1)
    ensures cache.Some? ==>
              && cache.value.Valid() && cache.value.epochOffsets == Observed([], 0, Flatten(compacted))
              && LatestOffset(cache.value.epochOffsets) < SegmentedLog.NextOffset(kept)
  {}

  /** The first phase. */
  method Prepare(l: CommitLog, limits: Retention.Limits, ttl: int, hw: int, offsets: map<string, int>)
    returns (seen: seq<Segment>, k: nat, compacted: seq<Seg>, cache: Option<LeaderEpochCache>)
    requires l.Valid()
    requires LatestOffsets(Flatten(l.Parts()[Retention.CleanCut(l.Parts(), limits, ttl)..]), hw, offsets)
    ensures seen == l.segments && k < |seen| && k == Retention.CleanCut(l.Parts(), limits, ttl)
    ensures Compacts(l.Parts()[k..], offsets, hw, compacted, cache) && (cache.Some? ==> fresh(cache.value))
    ensures SegmentedLog.NextOffset(l.Parts()[k..]) == SegmentedLog.NextOffset(l.Parts())
  {
    hide Flatten;
    hide Observed;
    hide Retention.CleanCut;
    hide Compaction.Compacted;
    hide LatestOffsets;
    hide CommitLog.Parts;
    hide CommitLog.Sound;
    IsChain(l);
    seen, k := Select(l, limits, ttl);
    ChainSuffix(l.Parts(), k);
    hide Chain;
    compacted, cache := Compaction.Compact(hw, l.Parts()[k..], offsets);
  }

  /** The second phase, for a log to which `t` has happened since it was `parts`. */
  method Finish(l: CommitLog, seen: seq<Segment>, k: nat, ghost offsets: map<string, int>, ghost hw: int,
                compacted: seq<Seg>, cache: Option<LeaderEpochCache>, ghost parts: seq<Seg>, ghost t: Tail)
    requires l.Valid() && seen <= l.segments && k < |seen| == |parts| && Chain(parts)
    requires Grew(parts, l.Parts()) && l.Contents() == Flatten(parts) + t.added && l.cache.epochOffsets == t.epochs
    requires compacted == Compaction.Compacted(parts[k..], offsets, hw) && (cache.None? <==> |parts[k..]| <= 1)
    requires cache.Some? ==>
               && cache.value != l.cache && cache.value.Valid()
               && cache.value.epochOffsets == Observed([], 0, Flatten(compacted))
               && LatestOffset(cache.value.epochOffsets) < SegmentedLog.NextOffset(parts)
    modifies l`segments, l`activeSegment, l.cache, if cache.Some? then {cache.value} else {}
    ensures l.Valid() && l.NextOffset() == old(l.NextOffset())
    ensures EndsAs(parts, k, offsets, hw, t, old(l.Parts()), l.Contents(), l.cache.epochOffsets)
  {
    hide CommitLog.Parts;
    hide CommitLog.Sound;
    hide CommitLog.NextOffset;
    hide Flatten;
    hide Grew;
    hide Chain;
    hide ClearedEarliest;
    hide Compaction.Compacted;
    hide Replacement;
    hide Observed;
    if cache.None? {
      CompactedOne(parts[k..], offsets, hw);
      FinishRetention(l, seen, k, parts, t.added);
    } else {
      FinishCompaction(l, seen, k, offsets, hw, compacted, cache.value, parts, t.added);
    }
  }

  lemma IsChain(l: CommitLog)
    requires l.Valid()
    ensures Chain(l.Parts()) && |l.Parts()| == |l.segments| > 0
  {}

  method FinishCompaction(l: CommitLog, seen: seq<Segment>, ghost k: nat, ghost offsets: map<string, int>,
                          ghost hw: int, compacted: seq<Seg>, cache: LeaderEpochCache,
                          ghost parts: seq<Seg>, ghost added: Log)
    requires l.Valid() && seen <= l.segments && k < |seen| - 1 && |seen| == |parts| && Chain(parts)
    requires Grew(parts, l.Parts()) && l.Contents() == Flatten(parts) + added
    requires compacted == Compaction.Compacted(parts[k..], offsets, hw)
    requires cache != l.cache && cache.Valid() && LatestOffset(cache.epochOffsets) < SegmentedLog.NextOffset(parts)
    modifies l`segments, l`activeSegment, l.cache, cache
    ensures l.Valid() && l.NextOffset() == old(l.NextOffset()) && l.Contents() == Flatten(compacted) + added
    ensures l.cache.epochOffsets ==
            Replacement(old(cache.epochOffsets), old(l.cache.epochOffsets), RolledAt(parts, old(l.Parts())))
  {
    hide CommitLog.Parts;
    hide CommitLog.Sound;
    hide CommitLog.NextOffset;
    hide Flatten;
    hide Grew;
    hide Chain;
    hide Compaction.Compacted;
    hide Compaction.Linked;
    hide Rewritten;
    hide Replacement;
    ghost var now := l.Parts();
    IsChain(l);
    GrewKeeps(parts, now, |parts| - 1);
    CompactedMany(parts, k, offsets, hw);
    RolledBehind(parts, now);
    PutBackCompacted(l, seen, compacted[..|compacted| - 1], cache);
    CompactedContents(parts, now, k, offsets, hw, added);
  }

  /** Where the first segment rolled since starts. */
  function RolledAt(seen: seq<Seg>, now: seq<Seg>): Option<int> {
    if |seen| >= |now| then None else Some(now[|seen|].base)
  }

  lemma CompactedOne(kept: seq<Seg>, offsets: map<string, int>, hw: int)
    requires |kept| == 1
    ensures Compaction.Compacted(kept, offsets, hw) == kept
  {}

  lemma ChainLinked(segs: seq<Seg>)
    requires Chain(segs)
    ensures Compaction.Linked(segs[..|segs| - 1], segs[|segs| - 1].base)
  {}

  lemma CompactedMany(parts: seq<Seg>, k: nat, offsets: map<string, int>, hw: int)
    requires Chain(parts) && k < |parts| - 1
    ensures var c := Compaction.Compacted(parts[k..], offsets, hw);
            && c != [] && c[..|c| - 1] == Rewritten(parts[k..], offsets, hw)
            && Compaction.Linked(c[..|c| - 1], parts[|parts| - 1].base)
  {
    hide Compaction.CleanedAll;
    hide Compaction.Linked;
    hide Chain;
    var kept := parts[k..];
    var n := |kept| - 1;
    ChainSuffix(parts, k);
    ChainLinked(kept);
    Compaction.CleanedAllChain(kept[..n], offsets, hw, kept[n].base);
    var r := Compaction.CleanedAll(kept[..n], offsets, hw);
    assert (r + [kept[n]])[..|r|] == r;
  }

  lemma RolledBehind(parts: seq<Seg>, now: seq<Seg>)
    requires Grew(parts, now) && Chain(parts) && Chain(now)
    ensures |parts| < |now| ==> SegmentedLog.NextOffset(parts) <= now[|parts|].base
  {
    var n := |parts| - 1;
    if |parts| < |now| {
      assert now[n].NextOffset() <= now[n + 1].base;
      assert parts[n].Valid() && now[n].Valid();
      if parts[n].msgs != [] {
        var m := parts[n].msgs[|parts[n].msgs| - 1];
        assert m in now[n].msgs;
        SegmentBounds(now[n], m);
      } else {
        NextAboveBase(now[n]);
      }
    }
  }

  lemma CompactedContents(parts: seq<Seg>, now: seq<Seg>, k: nat, offsets: map<string, int>, hw: int, added: Log)
    requires Grew(parts, now) && k < |parts| - 1 && Flatten(now) == Flatten(parts) + added
    ensures Flatten(Rewritten(parts[k..], offsets, hw) + now[|parts| - 1..]) ==
            Flatten(Compaction.Compacted(parts[k..], offsets, hw)) + added
  {
    hide Flatten;
    hide Compaction.CleanedAll;
    var n := |parts| - 1;
    GrewKeeps(parts, now, n);
    Dropped(parts, now, n);
    Cancel(Flatten(parts[..n]), Flatten(parts[n..]), added, Flatten(now[n..]));
    var r := Rewritten(parts[k..], offsets, hw);
    assert parts[n..] == [parts[n]] && parts[k..][|parts[k..]| - 1] == parts[n];
    FlattenConcat(r, now[n..]);
    FlattenConcat(r, [parts[n]]);
    Regroup(Flatten(r), Flatten([parts[n]]), added);
  }
}
