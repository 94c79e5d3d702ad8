/** How a follower finds the point up to which its log agrees with a new leader's:
    it asks the leader for the last offset of its own latest epoch and truncates
    behind the answer. Logs here are gap-free and start at offset 0. */
module EpochTruncation {
  import opened Wrappers
  import opened Messages
  import opened EpochCache
  import opened CommitLogs

  ghost predicate FromZero(log: Log) {
    forall i :: 0 <= i < |log| ==> log[i].offset == i
  }

  /** The number of leading messages of epochs below `epoch`. */
  function Boundary(log: Log, epoch: nat): nat {
    if log == [] then 0
    else if log[|log| - 1].leaderEpoch < epoch then |log|
    else Boundary(log[..|log| - 1], epoch)
  }

  /** The two ways a start offset gets recorded. A leader opening an epoch records
      the last offset before it, a follower the first message of the epoch. */
  ghost predicate Opened(log: Log, e: EpochOffset) {
    e.startOffset == Boundary(log, e.leaderEpoch) - 1
  }

  ghost predicate Recorded(log: Log, e: EpochOffset) {
    var b := Boundary(log, e.leaderEpoch);
    e.startOffset == b < |log| && log[b].leaderEpoch == e.leaderEpoch
  }

  ghost predicate HasEntry(es: Entries, epoch: Epoch) {
    exists k :: 0 <= k < |es| && es[k].leaderEpoch == epoch
  }

  /** What a log and its epoch cache keep: every entry was recorded in one of the two
      ways and every epoch with a message has an entry. */
  ghost predicate CacheMatches(log: Log, es: Entries) {
    && Sorted(es)
    && EpochsOrdered(log)
    && (forall k :: 0 <= k < |es| ==> Opened(log, es[k]) || Recorded(log, es[k]))
    && (forall i :: 0 <= i < |log| ==> HasEntry(es, log[i].leaderEpoch))
  }

  // ----- the boundary -----

  lemma {:induction false} BoundaryIs(log: Log, epoch: nat, b: nat)
    requires EpochsOrdered(log) && b <= |log|
    requires b > 0 ==> log[b - 1].leaderEpoch < epoch
    requires b < |log| ==> log[b].leaderEpoch >= epoch
    ensures Boundary(log, epoch) == b
  {
    if b < |log| { BoundaryIs(log[..|log| - 1], epoch, b); }
  }

  lemma {:induction false} BoundarySplits(log: Log, epoch: nat)
    requires EpochsOrdered(log)
    ensures Boundary(log, epoch) <= |log|
    ensures forall i :: 0 <= i < |log| ==> (log[i].leaderEpoch < epoch <==> i < Boundary(log, epoch))
  {
    if log != [] {
      var n := |log| - 1;
      BoundarySplits(log[..n], epoch);
      forall i | 0 <= i < |log| ensures log[i].leaderEpoch < epoch <==> i < Boundary(log, epoch) {
        if i < n { assert log[..n][i] == log[i]; assert log[i].leaderEpoch <= log[n].leaderEpoch; }
      }
    }
  }

  lemma EntryAtMostLatest(log: Log, es: Entries, i: int)
    requires CacheMatches(log, es) && 0 <= i < |log|
    ensures log[i].leaderEpoch <= LatestEpoch(es)
  {
    assert HasEntry(es, log[i].leaderEpoch);
    var k :| 0 <= k < |es| && es[k].leaderEpoch == log[i].leaderEpoch;
    if k < |es| - 1 { assert Ordered(es[k], es[|es| - 1]); }
  }

  /** Every start lies inside the log. */
  lemma StartsInside(log: Log, es: Entries, k: int)
    requires CacheMatches(log, es) && 0 <= k < |es|
    ensures -1 <= es[k].startOffset < |log|
  {
    BoundarySplits(log, es[k].leaderEpoch);
    assert Opened(log, es[k]) || Recorded(log, es[k]);
  }

  // ----- every operation on the log keeps log and cache matching -----

  lemma ObservedOne(es: Entries, last: Epoch, m: Message)
    ensures Observed(es, last, [m]) == if m.leaderEpoch > last then Assigned(es, m.leaderEpoch, m.offset) else es
  {
    assert [m][1..] == [];
  }

  lemma HasEntryStays(es: Entries, es': Entries, epoch: Epoch)
    requires es <= es' && HasEntry(es, epoch)
    ensures HasEntry(es', epoch)
  {
    var k :| 0 <= k < |es| && es[k].leaderEpoch == epoch;
    assert es'[k].leaderEpoch == epoch;
  }

  /** A message of no earlier epoch behind the log leaves every start what it is. */
  lemma EntryStays(log: Log, m: Message, e: EpochOffset)
    requires EpochsOrdered(log) && EpochsOrdered(log + [m]) && (Opened(log, e) || Recorded(log, e))
    requires e.leaderEpoch <= m.leaderEpoch
    ensures Opened(log + [m], e) || Recorded(log + [m], e)
  {
    hide Boundary;
    BoundarySplits(log, e.leaderEpoch);
    var b := Boundary(log, e.leaderEpoch);
    if b < |log| { assert (log + [m])[b] == log[b]; }
    BoundaryIs(log + [m], e.leaderEpoch, b);
  }

  lemma OrderedPush(log: Log, es: Entries, m: Message)
    requires CacheMatches(log, es) && m.leaderEpoch >= LatestEpoch(es)
    ensures EpochsOrdered(log + [m])
  {
    hide CacheMatches;
    forall i | 0 <= i < |log| ensures log[i].leaderEpoch <= m.leaderEpoch { EntryAtMostLatest(log, es, i); }
    assert EpochsOrdered(log) by { Matching(log, es); }
  }

  lemma Matching(log: Log, es: Entries)
    requires CacheMatches(log, es)
    ensures Sorted(es) && EpochsOrdered(log)
    ensures forall k :: 0 <= k < |es| ==> Opened(log, es[k]) || Recorded(log, es[k])
    ensures forall i :: 0 <= i < |log| ==> HasEntry(es, log[i].leaderEpoch)
  {}

  lemma LatestIsLast(es: Entries, k: nat)
    requires Sorted(es) && k < |es|
    ensures es[k].leaderEpoch <= LatestEpoch(es) && es[k].startOffset <= LatestOffset(es)
  {
    if k < |es| - 1 { assert Ordered(es[k], es[|es| - 1]); }
  }

  /** The first message of an epoch above all before it. */
  lemma FirstOfEpoch(log: Log, es: Entries, m: Message)
    requires CacheMatches(log, es) && EpochsOrdered(log + [m]) && m.leaderEpoch > LatestEpoch(es)
    ensures Recorded(log + [m], EpochOffset(m.leaderEpoch, |log|))
    ensures Assigned(es, m.leaderEpoch, |log|) == es + [EpochOffset(m.leaderEpoch, |log|)]
  {
    hide Boundary;
    hide CacheMatches;
    if log != [] { EntryAtMostLatest(log, es, |log| - 1); }
    BoundaryIs(log + [m], m.leaderEpoch, |log|);
    if es != [] { StartsInside(log, es, |es| - 1); }
  }

  lemma AppendOneMatches(log: Log, es: Entries, m: Message)
    requires CacheMatches(log, es) && m.leaderEpoch >= LatestEpoch(es) && m.leaderEpoch > 0 && m.offset == |log|
    ensures CacheMatches(log + [m], Observed(es, LatestEpoch(es), [m]))
    ensures LatestEpoch(Observed(es, LatestEpoch(es), [m])) == m.leaderEpoch
  {
    hide Opened;
    hide Recorded;
    hide HasEntry;
    hide EpochsOrdered;
    hide Observed;
    hide Sorted;
    var log', es' := log + [m], Observed(es, LatestEpoch(es), [m]);
    ObservedOne(es, LatestEpoch(es), m);
    OrderedPush(log, es, m);
    AssignKeepsSorted(es, m.leaderEpoch, |log|);
    if m.leaderEpoch > LatestEpoch(es) { FirstOfEpoch(log, es, m); }
    assert es <= es';
    forall k | 0 <= k < |es'| ensures Opened(log', es'[k]) || Recorded(log', es'[k]) {
      if k < |es| {
        LatestIsLast(es, k);
        EntryStays(log, m, es[k]);
      }
    }
    forall i | 0 <= i < |log'| ensures HasEntry(es', log'[i].leaderEpoch) {
      if i < |log| { HasEntryStays(es, es', log[i].leaderEpoch); } else { LastHasEntry(es'); }
    }
  }

  lemma LastHasEntry(es: Entries)
    requires es != []
    ensures HasEntry(es, LatestEpoch(es))
  {
    assert es[|es| - 1].leaderEpoch == LatestEpoch(es);
  }

  /** Appending a batch, published or replicated. */
  lemma {:induction false} AppendMatches(log: Log, es: Entries, ms: Log)
    requires CacheMatches(log, es) && EpochsOrdered(ms)
    requires forall i :: 0 <= i < |ms| ==> ms[i].offset == |log| + i && ms[i].leaderEpoch > 0
    requires ms != [] ==> ms[0].leaderEpoch >= LatestEpoch(es)
    ensures CacheMatches(log + ms, Observed(es, LatestEpoch(es), ms))
    decreases |ms|
  {
    hide CacheMatches;
    hide Observed;
    hide Assigned;
    ObservedStep(es, LatestEpoch(es), ms);
    if ms == [] {
      assert log + ms == log;
    } else {
      AppendOneMatches(log, es, ms[0]);
      var es1 := Observed(es, LatestEpoch(es), [ms[0]]);
      AppendMatches(log + [ms[0]], es1, ms[1..]);
      assert log + [ms[0]] + ms[1..] == log + ms;
      ObservedOne(es, LatestEpoch(es), ms[0]);
    }
  }

  lemma ObservedStep(es: Entries, last: Epoch, ms: Log)
    ensures ms == [] ==> Observed(es, last, ms) == es
    ensures ms != [] ==> Observed(es, last, ms) ==
                         if ms[0].leaderEpoch > last
                         then Observed(Assigned(es, ms[0].leaderEpoch, ms[0].offset), ms[0].leaderEpoch, ms[1..])
                         else Observed(es, last, ms[1..])
  {}

  /** Becoming leader. */
  lemma NewLeaderEpochMatches(log: Log, es: Entries, epoch: Epoch)
    requires CacheMatches(log, es) && epoch > LatestEpoch(es)
    ensures Assigned(es, epoch, |log| - 1) == es + [EpochOffset(epoch, |log| - 1)]
    ensures CacheMatches(log, Assigned(es, epoch, |log| - 1))
  {
    hide Boundary;
    hide Recorded;
    hide HasEntry;
    hide Sorted;
    if es != [] { StartsInside(log, es, |es| - 1); }
    AssignKeepsSorted(es, epoch, |log| - 1);
    var es' := es + [EpochOffset(epoch, |log| - 1)];
    if log != [] { EntryAtMostLatest(log, es, |log| - 1); }
    BoundaryIs(log, epoch, |log|);
    forall k | 0 <= k < |es'| ensures Opened(log, es'[k]) || Recorded(log, es'[k]) {}
    forall i | 0 <= i < |log| ensures HasEntry(es', log[i].leaderEpoch) { HasEntryStays(es, es', log[i].leaderEpoch); }
  }

  /** Truncating the log and clearing the cache behind the cut. */
  lemma TruncateMatches(log: Log, es: Entries, offset: nat)
    requires CacheMatches(log, es) && offset < |log|
    ensures CacheMatches(log[..offset], ClearedLatest(es, offset))
  {
    hide Opened;
    hide Recorded;
    hide ClearedLatest;
    var log', es' := log[..offset], ClearedLatest(es, offset);
    ClearLatestLaw(es, offset, 0);
    forall k | 0 <= k < |es'| ensures Opened(log', es'[k]) || Recorded(log', es'[k]) {
      assert es'[k] in es';
      assert es'[k] == es[k];
      EntryKept(log, es[k], offset);
    }
    forall i | 0 <= i < |log'| ensures HasEntry(es', log'[i].leaderEpoch) {
      assert HasEntry(es, log[i].leaderEpoch);
      var k :| 0 <= k < |es| && es[k].leaderEpoch == log[i].leaderEpoch;
      EntryStart(log, es[k], i);
      assert es[k] in es';
      var k' :| 0 <= k' < |es'| && es'[k'] == es[k];
    }
  }

  lemma EntryKept(log: Log, e: EpochOffset, offset: nat)
    requires EpochsOrdered(log) && (Opened(log, e) || Recorded(log, e)) && e.startOffset < offset < |log|
    ensures Opened(log[..offset], e) || Recorded(log[..offset], e)
  {
    hide Boundary;
    BoundarySplits(log, e.leaderEpoch);
    BoundaryIs(log[..offset], e.leaderEpoch, Boundary(log, e.leaderEpoch));
  }

  lemma EntryStart(log: Log, e: EpochOffset, i: nat)
    requires EpochsOrdered(log) && (Opened(log, e) || Recorded(log, e)) && i < |log|
    requires log[i].leaderEpoch == e.leaderEpoch
    ensures e.startOffset <= i
  {
    hide Boundary;
    BoundarySplits(log, e.leaderEpoch);
  }

  // ----- one leader per epoch -----

  /** Each message was first written by the leader of its epoch: up to any message,
      the log is a prefix of what that leader wrote. */
  ghost predicate FromLeaders(history: Epoch -> Log, log: Log) {
    forall i :: 0 <= i < |log| ==>
      i < |history(log[i].leaderEpoch)| && log[..i + 1] == history(log[i].leaderEpoch)[..i + 1]
  }

  lemma FromLeader(history: Epoch -> Log, log: Log, i: int, j: int)
    requires FromLeaders(history, log) && 0 <= j <= i < |log|
    ensures j < |history(log[i].leaderEpoch)| && history(log[i].leaderEpoch)[j] == log[j]
  {
    var h := history(log[i].leaderEpoch);
    assert log[..i + 1][j] == h[..i + 1][j];
  }

  /** Two logs that agree on the epoch at an offset agree up to that offset. */
  lemma LogMatching(history: Epoch -> Log, a: Log, b: Log, i: int)
    requires FromLeaders(history, a) && FromLeaders(history, b)
    requires 0 <= i < |a| && i < |b| && a[i].leaderEpoch == b[i].leaderEpoch
    ensures a[..i + 1] == b[..i + 1]
  {
  }

  ghost predicate Holds(log: Log, epoch: Epoch) {
    exists i :: 0 <= i < |log| && log[i].leaderEpoch == epoch
  }

  /** An epoch two logs hold starts at the same offset in both. */
  lemma {:induction false} SameBoundary(history: Epoch -> Log, a: Log, b: Log, epoch: Epoch)
    requires FromLeaders(history, a) && FromLeaders(history, b) && EpochsOrdered(a) && EpochsOrdered(b)
    requires Holds(a, epoch) && Holds(b, epoch)
    ensures Boundary(a, epoch) == Boundary(b, epoch) < |a|
    ensures Boundary(b, epoch) < |b|
    ensures a[Boundary(a, epoch)].leaderEpoch == epoch == b[Boundary(b, epoch)].leaderEpoch
  {
    hide Boundary;
    hide FromLeaders;
    BoundarySplits(a, epoch);
    BoundarySplits(b, epoch);
    var x, y := Boundary(a, epoch), Boundary(b, epoch);
    var i :| 0 <= i < |a| && a[i].leaderEpoch == epoch;
    var j :| 0 <= j < |b| && b[j].leaderEpoch == epoch;
    assert a[x].leaderEpoch <= a[i].leaderEpoch && b[y].leaderEpoch <= b[j].leaderEpoch;
    FromLeader(history, a, x, if x < y then x else y);
    FromLeader(history, b, y, if x < y then x else y);
  }

  // ----- the truncation theorem -----

  /** The length of the longest common prefix. */
  function CommonPrefix(a: Log, b: Log): nat {
    if a == [] || b == [] || a[0] != b[0] then 0 else 1 + CommonPrefix(a[1..], b[1..])
  }

  lemma {:induction false} CommonPrefixIs(a: Log, b: Log, n: nat)
    requires n <= |a| && n <= |b| && a[..n] == b[..n]
    requires n < |a| && n < |b| ==> a[n] != b[n]
    ensures CommonPrefix(a, b) == n
  {
    if n > 0 {
      assert a[..n][0] == a[0] && b[..n][0] == b[0];
      assert a[1..][..n - 1] == a[..n][1..] && b[1..][..n - 1] == b[..n][1..];
      CommonPrefixIs(a[1..], b[1..], n - 1);
    }
  }

  lemma {:induction false} CommonPrefixAgrees(a: Log, b: Log)
    ensures var n := CommonPrefix(a, b); n <= |a| && n <= |b| && a[..n] == b[..n]
  {
    if a != [] && b != [] && a[0] == b[0] {
      CommonPrefixAgrees(a[1..], b[1..]);
      var n := CommonPrefix(a[1..], b[1..]);
      assert a[..n + 1] == [a[0]] + a[1..][..n] && b[..n + 1] == [b[0]] + b[1..][..n];
    }
  }

  lemma {:induction false} HeldInCommon(p: Log, a: Log, b: Log)
    requires p <= a && p <= b
    ensures |p| <= CommonPrefix(a, b)
  {
    if p != [] { HeldInCommon(p[1..], a[1..], b[1..]); }
  }

  /** The leader's answer about the follower's latest epoch. */
  function Answer(leader: Log, cache: Entries, epoch: Epoch): int {
    AnswerFor(cache, |leader| - 1, epoch)
  }

  /** The follower's log after truncateUncommitted. */
  function Truncation(follower: Log, answer: int): Log {
    if answer + 1 < 0 then [] else if answer + 1 < |follower| then follower[..answer + 1] else follower
  }

  /** It is what the log's own truncation computes. */
  lemma TruncationIsBefore(follower: Log, answer: int)
    requires FromZero(follower)
    ensures Before(follower, answer + 1) == Truncation(follower, answer)
  {
    BeforeIsPrefix(follower, answer + 1, |Truncation(follower, answer)|);
  }

  /** What the answer is. Behind it the leader holds only later epochs; before it, if
      its log starts at or below the epoch asked for, only epochs up to that one. */
  lemma AnswerShape(leader: Log, cache: Entries, epoch: Epoch)
    requires CacheMatches(leader, cache) && epoch + 1 < UINT64
    ensures -1 <= Answer(leader, cache, epoch) < |leader|
    ensures forall i :: Answer(leader, cache, epoch) < i < |leader| ==> leader[i].leaderEpoch > epoch
    ensures leader != [] && leader[0].leaderEpoch <= epoch ==>
              forall i :: 0 <= i < Answer(leader, cache, epoch) ==> leader[i].leaderEpoch <= epoch
  {
    hide StartOf;
    hide Boundary;
    if StartOf(cache, epoch + 1).None? {
      StartOfNoneMeans(cache, epoch + 1);
      forall i | 0 <= i < |leader| ensures leader[i].leaderEpoch <= epoch {
        assert HasEntry(cache, leader[i].leaderEpoch);
      }
    } else {
      var k := StartOfWitness(cache, epoch + 1);
      var e := cache[k];
      BoundarySplits(leader, e.leaderEpoch);
      assert Opened(leader, e) || Recorded(leader, e);
      assert forall j :: k < j < |cache| ==> Ordered(e, cache[j]);
      forall i | 0 <= i < |leader| && leader[i].leaderEpoch < e.leaderEpoch ensures leader[i].leaderEpoch <= epoch {
        assert HasEntry(cache, leader[i].leaderEpoch);
        var j :| 0 <= j < |cache| && cache[j].leaderEpoch == leader[i].leaderEpoch;
      }
    }
  }

  /** Truncation never drops a message the two logs agree on up to: whatever the new
      leader's log held at its election, and so every message at or below a high
      watermark it holds, stays. No hypothesis about how starts were recorded. */
  lemma TruncationKeepsAgreement(leader: Log, cache: Entries, follower: Log, epoch: Epoch, n: nat)
    requires CacheMatches(leader, cache) && epoch + 1 < UINT64
    requires forall i :: 0 <= i < |follower| ==> follower[i].leaderEpoch <= epoch
    requires n <= |follower| && n <= |leader| && follower[..n] == leader[..n]
    ensures n <= |Truncation(follower, Answer(leader, cache, epoch))|
  {
    hide StartOf;
    AnswerShape(leader, cache, epoch);
    forall i | 0 <= i < n ensures follower[i] == leader[i] {
      assert follower[..n][i] == leader[..n][i];
    }
    var s := Answer(leader, cache, epoch);
    assert s + 1 < n ==> follower[s + 1] == leader[s + 1];
  }

  /** `k` is the first entry of the leader's cache above `epoch`, or behind the last. */
  ghost predicate FirstAbove(cache: Entries, epoch: Epoch, k: nat) {
    && k <= |cache| && (forall j :: 0 <= j < k ==> cache[j].leaderEpoch <= epoch)
    && (k < |cache| ==> cache[k].leaderEpoch > epoch)
  }

  /** How many messages the leader lets a follower keep. An entry starting at -1 reads
      as none. */
  function Allowed(leader: Log, cache: Entries, k: nat): int
    requires k <= |cache|
  {
    if k == |cache| || cache[k].startOffset == -1 then |leader| else cache[k].startOffset + 1
  }

  lemma AnswerAllows(leader: Log, cache: Entries, epoch: Epoch, k: nat)
    requires epoch + 1 < UINT64 && FirstAbove(cache, epoch, k)
    ensures Answer(leader, cache, epoch) == Allowed(leader, cache, k) - 1
  {
    hide StartOf;
    if k == |cache| { StartOfNone(cache, epoch + 1); } else { StartOfIsFirst(cache, epoch + 1, k); }
  }

  /** The exact condition, for every pair of logs: with `n` what the follower has of what
      the leader allows, it ends with the longest common prefix if and only if `n` is 0
      or both logs have the same epoch at the last of these messages. */
  lemma TruncationIsCommonPrefix(history: Epoch -> Log, leader: Log, cache: Entries, follower: Log, epoch: Epoch,
                                 k: nat, n: nat)
    requires CacheMatches(leader, cache) && epoch + 1 < UINT64 && FirstAbove(cache, epoch, k)
    requires FromLeaders(history, leader) && FromLeaders(history, follower)
    requires forall i :: 0 <= i < |follower| ==> follower[i].leaderEpoch <= epoch
    requires n == if |follower| <= Allowed(leader, cache, k) then |follower| else Allowed(leader, cache, k)
    ensures |Truncation(follower, Answer(leader, cache, epoch))| == CommonPrefix(follower, leader) <==>
            n == 0 || (n <= |leader| && follower[n - 1].leaderEpoch == leader[n - 1].leaderEpoch)
  {
    hide StartOf;
    hide CommonPrefix;
    hide Answer;
    hide CacheMatches;
    AnswerShape(leader, cache, epoch);
    AnswerAllows(leader, cache, epoch, k);
    CommonPrefixAgrees(follower, leader);
    var c := CommonPrefix(follower, leader);
    forall i | 0 <= i < c ensures follower[i] == leader[i] {
      assert follower[..c][i] == leader[..c][i];
    }
    var kept := Truncation(follower, Answer(leader, cache, epoch));
    assert |kept| == n;
    if n == 0 {
      TruncationKeepsAgreement(leader, cache, follower, epoch, c);
    } else if n <= |leader| && follower[n - 1].leaderEpoch == leader[n - 1].leaderEpoch {
      LogMatching(history, follower, leader, n - 1);
      assert follower[..n] == leader[..n];
      CommonPrefixIs(follower, leader, n);
    }
  }

  /** The case the protocol is made for: leader and follower both hold messages of the
      follower's latest epoch. The follower ends with the longest common prefix if and
      only if the leader has no later epoch, or opened the first later one itself, or
      recorded a start for it that the follower's log does not reach. Otherwise the
      start was recorded from the epoch's first message and the follower keeps exactly
      one message too many. */
  lemma SharedEpochTruncation(history: Epoch -> Log, leader: Log, cache: Entries, follower: Log, epoch: Epoch, k: nat)
    requires CacheMatches(leader, cache) && epoch + 1 < UINT64 && EpochsOrdered(follower) && FirstAbove(cache, epoch, k)
    requires FromLeaders(history, leader) && FromLeaders(history, follower)
    requires Holds(leader, epoch) && Holds(follower, epoch)
    requires forall i :: 0 <= i < |follower| ==> follower[i].leaderEpoch <= epoch
    ensures var kept := Truncation(follower, Answer(leader, cache, epoch));
            && (|kept| == CommonPrefix(follower, leader) <==>
                k == |cache| || Opened(leader, cache[k]) || |follower| <= cache[k].startOffset)
            && (|kept| != CommonPrefix(follower, leader) ==> |kept| == CommonPrefix(follower, leader) + 1)
  {
    hide StartOf;
    hide CommonPrefix;
    hide Boundary;
    hide Answer;
    AnswerIsMessage(leader, cache, epoch, k);
    SharedEpochAnswer(history, leader, cache, follower, epoch);
  }

  /** Where the leader holds the epoch asked for, its answer is a message of that epoch
      exactly if it has no later epoch or opened the first one itself. */
  lemma AnswerIsMessage(leader: Log, cache: Entries, epoch: Epoch, k: nat)
    requires CacheMatches(leader, cache) && epoch + 1 < UINT64 && FirstAbove(cache, epoch, k) && Holds(leader, epoch)
    ensures var s := Answer(leader, cache, epoch);
            && 0 <= s < |leader|
            && (leader[s].leaderEpoch <= epoch <==> k == |cache| || Opened(leader, cache[k]))
            && (leader[s].leaderEpoch > epoch ==> s == cache[k].startOffset)
  {
    hide Boundary;
    hide Answer;
    hide CacheMatches;
    AnswerAllows(leader, cache, epoch, k);
    EntriesSplit(leader, cache, epoch, k);
    if k < |cache| { EntryOf(leader, cache, k); }
  }

  lemma EntryOf(leader: Log, cache: Entries, k: nat)
    requires CacheMatches(leader, cache) && k < |cache|
    ensures Opened(leader, cache[k]) || Recorded(leader, cache[k])
  {}

  /** The messages up to `epoch` are those before the first entry above it, and there is
      one. */
  lemma {:induction false} EntriesSplit(leader: Log, cache: Entries, epoch: Epoch, k: nat)
    requires CacheMatches(leader, cache) && FirstAbove(cache, epoch, k) && Holds(leader, epoch)
    ensures leader != [] && (k == |cache| ==> leader[|leader| - 1].leaderEpoch <= epoch)
    ensures k < |cache| ==>
              var b := Boundary(leader, cache[k].leaderEpoch);
              0 < b <= |leader| && leader[b - 1].leaderEpoch <= epoch
  {
    hide Boundary;
    hide CacheMatches;
    hide FirstAbove;
    var i :| 0 <= i < |leader| && leader[i].leaderEpoch == epoch;
    var above := if k < |cache| then cache[k].leaderEpoch else UINT64;
    AboveMeans(cache, epoch, k);
    Matching(leader, cache);
    BoundarySplits(leader, above);
    var j := Boundary(leader, above) - 1;
    NoneBetween(leader, cache, epoch, k, j);
  }

  lemma AboveMeans(cache: Entries, epoch: Epoch, k: nat)
    requires FirstAbove(cache, epoch, k)
    ensures k <= |cache| && (k < |cache| ==> cache[k].leaderEpoch > epoch)
  {}

  /** No message lies between an epoch and the first entry above it. */
  lemma NoneBetween(leader: Log, cache: Entries, epoch: Epoch, k: nat, j: nat)
    requires CacheMatches(leader, cache) && FirstAbove(cache, epoch, k) && j < |leader|
    requires k < |cache| ==> leader[j].leaderEpoch < cache[k].leaderEpoch
    ensures leader[j].leaderEpoch <= epoch
  {
    hide Opened;
    hide Recorded;
    assert HasEntry(cache, leader[j].leaderEpoch);
    var m :| 0 <= m < |cache| && cache[m].leaderEpoch == leader[j].leaderEpoch;
    assert forall i :: k < i < |cache| ==> Ordered(cache[k], cache[i]);
  }

  lemma SharedEpochAnswer(history: Epoch -> Log, leader: Log, cache: Entries, follower: Log, epoch: Epoch)
    requires CacheMatches(leader, cache) && epoch + 1 < UINT64 && EpochsOrdered(follower)
    requires FromLeaders(history, leader) && FromLeaders(history, follower)
    requires Holds(leader, epoch) && Holds(follower, epoch)
    requires forall i :: 0 <= i < |follower| ==> follower[i].leaderEpoch <= epoch
    ensures var s := Answer(leader, cache, epoch);
            var kept := Truncation(follower, s);
            && 0 <= s < |leader|
            && (|kept| == CommonPrefix(follower, leader) <==> |follower| <= s || leader[s].leaderEpoch <= epoch)
            && (|kept| != CommonPrefix(follower, leader) ==> |kept| == CommonPrefix(follower, leader) + 1)
  {
    hide CommonPrefix;
    hide Boundary;
    hide Answer;
    hide CacheMatches;
    hide FromLeaders;
    hide Holds;
    var s := Answer(leader, cache, epoch);
    AnswerShape(leader, cache, epoch);
    Matching(leader, cache);
    var b := SharedRange(history, leader, follower, epoch, s);
    if |follower| <= s {
      LogMatching(history, follower, leader, |follower| - 1);
      CommonPrefixIs(follower, leader, |follower|);
    } else if leader[s].leaderEpoch <= epoch {
      LogMatching(history, follower, leader, s);
      CommonPrefixIs(follower, leader, s + 1);
    } else {
      LogMatching(history, follower, leader, s - 1);
      CommonPrefixIs(follower, leader, s);
    }
  }

  /** Up to an answer that leaves no message of `epoch` behind it, both logs hold that
      epoch from the same offset on. */
  lemma SharedRange(history: Epoch -> Log, leader: Log, follower: Log, epoch: Epoch, s: int) returns (b: nat)
    requires EpochsOrdered(leader) && EpochsOrdered(follower) && -1 <= s < |leader|
    requires FromLeaders(history, leader) && FromLeaders(history, follower)
    requires Holds(leader, epoch) && Holds(follower, epoch)
    requires forall i :: 0 <= i < |follower| ==> follower[i].leaderEpoch <= epoch
    requires forall i :: s < i < |leader| ==> leader[i].leaderEpoch > epoch
    requires leader != [] && leader[0].leaderEpoch <= epoch ==>
               forall i :: 0 <= i < s ==> leader[i].leaderEpoch <= epoch
    ensures b <= s && b < |follower|
    ensures forall i :: b <= i < |follower| ==> follower[i].leaderEpoch == epoch
    ensures forall i :: b <= i < s ==> leader[i].leaderEpoch == epoch
    ensures leader[s].leaderEpoch >= epoch && (leader[s].leaderEpoch > epoch ==> b < s)
  {
    hide Boundary;
    hide FromLeaders;
    SameBoundary(history, leader, follower, epoch);
    BoundarySplits(leader, epoch);
    BoundarySplits(follower, epoch);
    b := Boundary(leader, epoch);
    assert leader[0].leaderEpoch <= leader[b].leaderEpoch;
  }

  /** Two logs that come from the same one, as all replicas of an epoch do: whatever the
      caches say, the follower ends with exactly the common part. */
  lemma SameOriginTruncation(origin: Log, leader: Log, cache: Entries, follower: Log, epoch: Epoch)
    requires leader <= origin && follower <= origin
    requires CacheMatches(leader, cache) && epoch + 1 < UINT64
    requires forall i :: 0 <= i < |follower| ==> follower[i].leaderEpoch <= epoch
    ensures var kept := Truncation(follower, Answer(leader, cache, epoch));
            kept <= leader && |kept| == CommonPrefix(follower, leader)
  {
    hide StartOf;
    hide CommonPrefix;
    hide CacheMatches;
    AnswerShape(leader, cache, epoch);
    var k := if |follower| < |leader| then |follower| else |leader|;
    assert follower[..k] == origin[..k] == leader[..k];
    TruncationKeepsAgreement(leader, cache, follower, epoch, k);
    CommonPrefixIs(follower, leader, k);
  }

  // ----- where the protocol does not do what it is for -----

  function M(offset: nat, epoch: Epoch): Message {
    Message(offset, 1, epoch, None, "", 0)
  }

  /** A leader that learned epoch 2 as a follower answers with the first message of
      epoch 2, and a follower of epoch 1 keeps a message the leader does not have. */
  lemma RecordedStartDiverges()
    ensures var leader, follower := [M(0, 1), M(1, 1), M(2, 2)], [M(0, 1), M(1, 1), M(2, 1)];
            var cache := [EpochOffset(1, 0), EpochOffset(2, 2)];
            && CacheMatches(leader, cache)
            && Truncation(follower, Answer(leader, cache, 1)) == follower
            && CommonPrefix(follower, leader) == 2
  {
    hide CommonPrefix;
    hide Boundary;
    hide StartOf;
    var leader, follower := [M(0, 1), M(1, 1), M(2, 2)], [M(0, 1), M(1, 1), M(2, 1)];
    var cache := [EpochOffset(1, 0), EpochOffset(2, 2)];
    BoundaryIs(leader, 1, 0);
    BoundaryIs(leader, 2, 2);
    assert cache[0].leaderEpoch == 1 && cache[1].leaderEpoch == 2;
    StartOfIsFirst(cache, 2, 1);
    CommonPrefixIs(follower, leader, 2);
  }

  lemma EmptyMatches()
    ensures CacheMatches([], [])
  {
  }

  /** A leader that opened its epoch on an empty log records -1, which reads as "no
      later epoch": a follower with messages of an earlier epoch keeps them. */
  lemma EpochOpenedOnEmptyLogDiverges()
    ensures var leader, follower := [M(0, 2)], [M(0, 1)];
            var cache := Observed(Assigned([], 2, -1), 2, leader);
            && CacheMatches(leader, cache)
            && Truncation(follower, Answer(leader, cache, 1)) == follower
            && CommonPrefix(follower, leader) == 0
  {
    hide CacheMatches;
    hide CommonPrefix;
    hide Boundary;
    EmptyMatches();
    NewLeaderEpochMatches([], [], 2);
    assert [] + [EpochOffset(2, -1)] == [EpochOffset(2, -1)];
    AppendMatches([], [EpochOffset(2, -1)], [M(0, 2)]);
    assert [] + [M(0, 2)] == [M(0, 2)];
    ObservedOne([EpochOffset(2, -1)], 2, M(0, 2));
    CommonPrefixIs([M(0, 1)], [M(0, 2)], 0);
  }
}
