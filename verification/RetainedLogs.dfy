/** Leader change on logs whose beginning retention has deleted. A retained log is compared
    with the one it would be had nothing been deleted, from offset 0 on. */
module RetainedLogs {
  import opened Wrappers
  import opened Messages
  import opened EpochCache
  import opened CommitLogs
  import opened EpochTruncation

  function Raised(start: Option<int>, from: int): Option<int> {
    match start
    case None => None
    case Some(s) => Some(if s < from then from else s)
  }

  /** A cache that answers what the full cache does, raised to where the log begins. */
  ghost predicate Trimmed(es: Entries, full: Entries, from: int) {
    forall epoch: nat :: StartOf(es, epoch) == Raised(StartOf(full, epoch), from)
  }

  // ----- every operation on the log keeps its cache a trimmed one -----

  lemma NothingDeleted(es: Entries)
    requires forall k :: 0 <= k < |es| ==> es[k].startOffset >= -1
    ensures Trimmed(es, es, -1)
  {
    hide StartOf;
    forall x: nat ensures StartOf(es, x) == Raised(StartOf(es, x), -1) {
      if StartOf(es, x).Some? { var i := StartOfWitness(es, x); }
    }
  }

  lemma LatestAnswers(es: Entries, epoch: nat)
    requires Sorted(es)
    ensures es != [] ==> StartOf(es, LatestEpoch(es)) == Some(LatestOffset(es))
    ensures StartOf(es, epoch).Some? <==> es != [] && epoch <= LatestEpoch(es)
  {
    hide StartOf;
    if es == [] {
      StartOfNone(es, epoch);
    } else {
      var n := |es| - 1;
      assert forall j :: 0 <= j < n ==> Ordered(es[j], es[n]);
      StartOfIsFirst(es, es[n].leaderEpoch, n);
      if StartOf(es, epoch).None? {
        StartOfNoneMeans(es, epoch);
      } else {
        var i := StartOfWitness(es, epoch);
      }
    }
  }

  lemma TrimmedLatest(es: Entries, full: Entries, from: int)
    requires Sorted(es) && Sorted(full) && Trimmed(es, full, from)
    ensures es == [] <==> full == []
    ensures LatestEpoch(es) == LatestEpoch(full)
    ensures es != [] ==> LatestOffset(es) == if LatestOffset(full) < from then from else LatestOffset(full)
  {
    hide StartOf;
    hide Sorted;
    LatestAnswers(es, 0);
    LatestAnswers(full, 0);
    LatestAnswers(es, LatestEpoch(full));
    LatestAnswers(full, LatestEpoch(es));
  }

  lemma {:induction false} StartOfPush(es: Entries, e: EpochOffset, epoch: nat)
    ensures StartOf(es + [e], epoch) ==
            if StartOf(es, epoch).Some? then StartOf(es, epoch)
            else if e.leaderEpoch >= epoch then Some(e.startOffset) else None
  {
    if es != [] {
      assert (es + [e])[1..] == es[1..] + [e];
      StartOfPush(es[1..], e, epoch);
    }
  }

  /** A new epoch, opened or learned from a message, is recorded as in the full cache if and
      only if it starts where the log has begun. A leader taking over a log that retention
      has emptied opens its epoch one offset before that. */
  lemma AssignKeepsTrimmedIff(es: Entries, full: Entries, from: int, epoch: Epoch, offset: int)
    requires Sorted(es) && Sorted(full) && Trimmed(es, full, from)
    ensures Trimmed(Assigned(es, epoch, offset), Assigned(full, epoch, offset), from) <==>
            offset >= from || epoch <= LatestEpoch(full) || offset < LatestOffset(full)
  {
    hide StartOf;
    hide Sorted;
    TrimmedLatest(es, full, from);
    var es', full' := Assigned(es, epoch, offset), Assigned(full, epoch, offset);
    StartOfPush(es, EpochOffset(epoch, offset), epoch);
    StartOfPush(full, EpochOffset(epoch, offset), epoch);
    LatestAnswers(es, epoch);
    LatestAnswers(full, epoch);
    if offset >= from {
      forall x: nat ensures StartOf(es', x) == Raised(StartOf(full', x), from) {
        StartOfPush(es, EpochOffset(epoch, offset), x);
        StartOfPush(full, EpochOffset(epoch, offset), x);
      }
    } else if full' != full {
      assert StartOf(es', epoch) != Raised(StartOf(full', epoch), from);
    }
  }

  lemma ClearLatestAnswers(es: Entries, offset: int, epoch: nat)
    requires Sorted(es)
    ensures StartOf(ClearedLatest(es, offset), epoch) ==
            match StartOf(es, epoch)
            case None => None
            case Some(s) => if s < offset then Some(s) else None
  {
    hide StartOf;
    hide ClearedLatest;
    ClearLatestShape(es, offset);
    var r := ClearedLatest(es, offset);
    if StartOf(es, epoch).None? {
      StartOfNoneMeans(es, epoch);
      StartOfNone(r, epoch);
    } else {
      var i := StartOfWitness(es, epoch);
      if i < |r| { StartOfIsFirst(r, epoch, i); } else { StartOfNone(r, epoch); }
    }
  }

  /** Truncation that leaves the log something. */
  lemma TruncateKeepsTrimmed(es: Entries, full: Entries, from: int, offset: int)
    requires Sorted(es) && Sorted(full) && Trimmed(es, full, from) && from < offset
    ensures Trimmed(ClearedLatest(es, offset), ClearedLatest(full, offset), from)
  {
    hide StartOf;
    hide ClearedLatest;
    hide Sorted;
    var es', full' := ClearedLatest(es, offset), ClearedLatest(full, offset);
    forall x: nat ensures StartOf(es', x) == Raised(StartOf(full', x), from) {
      ClearLatestAnswers(es, offset, x);
      ClearLatestAnswers(full, offset, x);
    }
  }

  lemma ClearEarliestAnswers(es: Entries, offset: int, epoch: nat)
    requires Sorted(es)
    ensures StartOf(ClearedEarliest(es, offset), epoch) == Raised(StartOf(es, epoch), offset)
  {
    hide StartOf;
    hide ClearedEarliest;
    if es == [] || EarliestOffset(es) >= offset {
      ClearEarliestNothing(es, offset);
      if StartOf(es, epoch).Some? {
        var i := StartOfWitness(es, epoch);
        assert i > 0 ==> Ordered(es[0], es[i]);
      }
    } else if StartOf(es, epoch).Some? {
      ClearEarliestRaisesAnswers(es, offset, epoch);
    } else {
      StartOfNoneMeans(es, epoch);
      var k := ClearEarliestShape(es, offset);
      StartOfNone(ClearedEarliest(es, offset), epoch);
    }
  }

  /** Retention, any number of times. */
  lemma RetentionKeepsTrimmed(es: Entries, full: Entries, from: int, offset: int)
    requires Sorted(es) && Trimmed(es, full, from) && from <= offset
    ensures Trimmed(ClearedEarliest(es, offset), full, offset)
  {
    hide StartOf;
    hide ClearedEarliest;
    hide Sorted;
    forall x: nat ensures StartOf(ClearedEarliest(es, offset), x) == Raised(StartOf(full, x), offset) {
      ClearEarliestAnswers(es, offset, x);
    }
  }

  // ----- the truncation theorem -----

  /** A leader that still has messages of the epoch asked for answers as if nothing had
      been deleted. */
  lemma TrimmedAnswer(leader: Log, full: Entries, from: nat, es: Entries, epoch: Epoch)
    requires CacheMatches(leader, full) && epoch + 1 < UINT64 && Trimmed(es, full, from)
    requires from <= |leader| && Holds(leader[from..], epoch)
    ensures AnswerFor(es, |leader| - 1, epoch) == Answer(leader, full, epoch)
  {
    hide StartOf;
    hide Boundary;
    var i :| 0 <= i < |leader[from..]| && leader[from..][i].leaderEpoch == epoch;
    assert leader[from + i].leaderEpoch == epoch;
    AnswerShape(leader, full, epoch);
    if StartOf(full, epoch + 1).Some? {
      var k := StartOfWitness(full, epoch + 1);
      BoundarySplits(leader, full[k].leaderEpoch);
      assert Opened(leader, full[k]) || Recorded(leader, full[k]);
    }
  }

  /** What of a log from `from` on lies before `n`. */
  function Part(log: Log, from: nat, n: int): Log
    requires from <= |log|
  {
    if n <= from then [] else if n < |log| then log[from..n] else log[from..]
  }

  lemma BeforePart(log: Log, from: nat, answer: int)
    requires FromZero(log) && from <= |log|
    ensures Before(log[from..], answer + 1) == Part(log, from, answer + 1)
  {
    var kept := Part(log, from, answer + 1);
    forall i | 0 <= i < |log[from..]| ensures log[from..][i].offset == from + i {}
    BeforeIsPrefix(log[from..], answer + 1, |kept|);
    assert kept == log[from..][..|kept|];
  }

  lemma PartsEqual(log: Log, from: nat, answer: int, n: nat)
    requires from <= |log| && n <= |log| && -1 <= answer
    ensures var m := |Truncation(log, answer)|;
            Part(log, from, answer + 1) == Part(log, from, n) <==> m == n || (m <= from && n <= from)
  {
    var m := |Truncation(log, answer)|;
    assert |Part(log, from, answer + 1)| == if m <= from then 0 else m - from;
    assert |Part(log, from, n)| == if n <= from then 0 else n - from;
  }

  /** The truncation theorem with the leader's log retained from one offset and the
      follower's from another, both still holding the follower's latest epoch: the
      follower ends with exactly what it has of the common prefix if and only if the leader
      has no later epoch, or opened the first later one itself, or its start for it lies
      outside the follower's log. */
  lemma {:induction false} RetainedTruncation(history: Epoch -> Log, leader: Log, full: Entries, from: nat, es: Entries,
                           follower: Log, after: nat, epoch: Epoch, k: nat)
    requires CacheMatches(leader, full) && epoch + 1 < UINT64 && EpochsOrdered(follower) && FirstAbove(full, epoch, k)
    requires FromLeaders(history, leader) && FromLeaders(history, follower) && FromZero(follower)
    requires from <= |leader| && after <= |follower| && Trimmed(es, full, from)
    requires Holds(leader[from..], epoch) && Holds(follower[after..], epoch)
    requires forall i :: 0 <= i < |follower| ==> follower[i].leaderEpoch <= epoch
    ensures Before(follower[after..], AnswerFor(es, |leader| - 1, epoch) + 1)
              == Part(follower, after, CommonPrefix(follower, leader)) <==>
            || k == |full| || Opened(leader, full[k])
            || |follower| <= full[k].startOffset || full[k].startOffset < after
  {
    hide CommonPrefix;
    hide Answer;
    hide AnswerFor;
    hide CacheMatches;
    hide FromLeaders;
    hide Opened;
    hide Trimmed;
    hide FirstAbove;
    hide Holds;
    hide Part;
    hide Before;
    hide FromZero;
    hide EpochsOrdered;
    AboveMeans(full, epoch, k);
    HoldsBefore(leader, from, epoch);
    HoldsBefore(follower, after, epoch);
    TrimmedAnswer(leader, full, from, es, epoch);
    BeforePart(follower, after, Answer(leader, full, epoch));
    SharedEpochTruncation(history, leader, full, follower, epoch, k);
    AnswerIsMessage(leader, full, epoch, k);
    AnswerAllows(leader, full, epoch, k);
    CommonPrefixAgrees(follower, leader);
    PartsEqual(follower, after, Answer(leader, full, epoch), CommonPrefix(follower, leader));
  }

  lemma HoldsBefore(log: Log, from: nat, epoch: Epoch)
    requires from <= |log| && Holds(log[from..], epoch)
    ensures Holds(log, epoch)
  {
    var i :| 0 <= i < |log[from..]| && log[from..][i].leaderEpoch == epoch;
    assert log[from + i].leaderEpoch == epoch;
  }
}
