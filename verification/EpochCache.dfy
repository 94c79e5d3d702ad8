/** The leader epoch cache of a log: for each leader epoch the log has seen, the
    offset recorded for its start. */
module EpochCache {
  import BinarySearch
  import opened Wrappers

  const UINT64 := 0x1_0000_0000_0000_0000

  type Epoch = e: nat | e < 0x1_0000_0000_0000_0000

  datatype EpochOffset = EpochOffset(leaderEpoch: Epoch, startOffset: int)

  type Entries = seq<EpochOffset>

  ghost predicate Ordered(a: EpochOffset, b: EpochOffset) {
    a.leaderEpoch < b.leaderEpoch && a.startOffset <= b.startOffset
  }

  /** The invariant of every cache: epochs strictly increase, starts never decrease. */
  ghost predicate Sorted(es: Entries) {
    forall i, j :: 0 <= i < j < |es| ==> Ordered(es[i], es[j])
  }

  function LatestEpoch(es: Entries): Epoch {
    if es == [] then 0 else es[|es| - 1].leaderEpoch
  }

  function LatestOffset(es: Entries): int {
    if es == [] then -1 else es[|es| - 1].startOffset
  }

  function EarliestOffset(es: Entries): int {
    if es == [] then -1 else es[0].startOffset
  }

  /** The entries whose start lies below `offset`. */
  function Below(es: Entries, offset: int): (r: Entries)
    ensures |r| <= |es|
  {
    if es == [] then []
    else
      var last := es[|es| - 1];
      Below(es[..|es| - 1], offset) + (if last.startOffset < offset then [last] else [])
  }

  function Assigned(es: Entries, epoch: Epoch, offset: int): Entries {
    if epoch > LatestEpoch(es) && offset >= LatestOffset(es)
    then es + [EpochOffset(epoch, offset)]
    else es
  }

  function ClearedLatest(es: Entries, offset: int): Entries {
    if offset > LatestOffset(es) then es else Below(es, offset)
  }

  function ClearedEarliest(es: Entries, offset: int): Entries {
    var earliest := Below(es, offset);
    if EarliestOffset(es) >= offset || earliest == [] then es
    else
      var rest := es[|earliest|..];
      if offset < EarliestOffset(rest) || rest == []
      then [EpochOffset(earliest[|earliest| - 1].leaderEpoch, offset)] + rest
      else rest
  }

  function Rebased(es: Entries, from: Entries): Entries
    decreases |from|
  {
    if from == [] then es
    else
      var e := from[0];
      Rebased(if e.leaderEpoch > LatestEpoch(es) then Assigned(es, e.leaderEpoch, e.startOffset) else es, from[1..])
  }

  /** The epoch of an offset: that of the last entry starting at or before it. */
  function EpochAt(es: Entries, offset: int): Option<Epoch> {
    if es == [] then None
    else if es[|es| - 1].startOffset <= offset then Some(es[|es| - 1].leaderEpoch)
    else EpochAt(es[..|es| - 1], offset)
  }

  /** The start of the first epoch at or above `epoch`, as findEpoch looks it up. */
  function StartOf(es: Entries, epoch: nat): Option<int> {
    if es == [] then None
    else if es[0].leaderEpoch >= epoch then Some(es[0].startOffset)
    else StartOf(es[1..], epoch)
  }

  /** The lookup behind every leader offset request; `epoch + 1` is a 64-bit sum. */
  function LastOffsetFor(es: Entries, epoch: Epoch): int {
    match StartOf(es, (epoch + 1) % UINT64)
    case None => -1
    case Some(s) => s
  }

  // ----- what the specification functions mean -----

  lemma BelowStep(es: Entries, offset: int)
    ensures Below([], offset) == []
    ensures es != [] ==> var n := |es| - 1;
            Below(es, offset) == Below(es[..n], offset) + (if es[n].startOffset < offset then [es[n]] else [])
  {}

  lemma SortedPrefix(es: Entries, n: nat)
    requires Sorted(es) && n <= |es|
    ensures Sorted(es[..n])
  {}

  /** On a sorted cache the entries below an offset are a prefix. */
  lemma {:induction false} BelowIsPrefix(es: Entries, offset: int)
    requires Sorted(es)
    ensures |Below(es, offset)| <= |es|
    ensures Below(es, offset) == es[..|Below(es, offset)|]
    ensures forall i :: 0 <= i < |es| ==> (es[i].startOffset < offset <==> i < |Below(es, offset)|)
  {
    hide Below;
    BelowStep(es, offset);
    if es != [] {
      var n := |es| - 1;
      SortedPrefix(es, n);
      BelowIsPrefix(es[..n], offset);
      var r := |Below(es[..n], offset)|;
      forall i | 0 <= i < n ensures es[i].startOffset < offset <==> i < r { assert es[..n][i] == es[i]; }
      if es[n].startOffset < offset {
        if n > 0 { assert Ordered(es[n - 1], es[n]); }
        assert es[..n] + [es[n]] == es;
      } else {
        assert es[..n][..r] == es[..r];
      }
    }
  }

  lemma {:induction false} EpochAtIsLast(es: Entries, offset: int, i: int)
    requires 0 <= i < |es| && es[i].startOffset <= offset
    requires forall j :: i < j < |es| ==> es[j].startOffset > offset
    ensures EpochAt(es, offset) == Some(es[i].leaderEpoch)
  {
    if i < |es| - 1 { EpochAtIsLast(es[..|es| - 1], offset, i); }
  }

  lemma {:induction false} EpochAtNone(es: Entries, offset: int)
    requires forall j :: 0 <= j < |es| ==> es[j].startOffset > offset
    ensures EpochAt(es, offset) == None
  {
    if es != [] { EpochAtNone(es[..|es| - 1], offset); }
  }

  lemma {:induction false} EpochAtWitness(es: Entries, offset: int) returns (i: int)
    requires exists j :: 0 <= j < |es| && es[j].startOffset <= offset
    ensures 0 <= i < |es| && es[i].startOffset <= offset
    ensures forall j :: i < j < |es| ==> es[j].startOffset > offset
    ensures EpochAt(es, offset) == Some(es[i].leaderEpoch)
  {
    i := |es| - 1;
    if es[i].startOffset > offset {
      var j :| 0 <= j < |es| && es[j].startOffset <= offset;
      assert es[..i][j].startOffset <= offset;
      i := EpochAtWitness(es[..i], offset);
      assert forall j :: i < j < |es| - 1 ==> es[..|es| - 1][j] == es[j];
    }
  }

  lemma {:induction false} StartOfIsFirst(es: Entries, epoch: nat, i: int)
    requires 0 <= i < |es| && es[i].leaderEpoch >= epoch
    requires forall j :: 0 <= j < i ==> es[j].leaderEpoch < epoch
    ensures StartOf(es, epoch) == Some(es[i].startOffset)
  {
    if i > 0 { StartOfIsFirst(es[1..], epoch, i - 1); }
  }

  lemma {:induction false} StartOfNone(es: Entries, epoch: nat)
    requires forall j :: 0 <= j < |es| ==> es[j].leaderEpoch < epoch
    ensures StartOf(es, epoch) == None
  {
    if es != [] { StartOfNone(es[1..], epoch); }
  }

  lemma {:induction false} StartOfNoneMeans(es: Entries, epoch: nat)
    requires StartOf(es, epoch).None?
    ensures forall j :: 0 <= j < |es| ==> es[j].leaderEpoch < epoch
  {
    if es != [] {
      StartOfNoneMeans(es[1..], epoch);
      forall j | 0 <= j < |es| ensures es[j].leaderEpoch < epoch {
        if j > 0 { assert es[j] == es[1..][j - 1]; }
      }
    }
  }

  lemma {:induction false} StartOfWitness(es: Entries, epoch: nat) returns (i: int)
    requires StartOf(es, epoch).Some?
    ensures 0 <= i < |es| && es[i].leaderEpoch >= epoch && es[i].startOffset == StartOf(es, epoch).value
    ensures forall j :: 0 <= j < i ==> es[j].leaderEpoch < epoch
  {
    if es[0].leaderEpoch >= epoch {
      i := 0;
    } else {
      i := StartOfWitness(es[1..], epoch);
      i := i + 1;
      assert forall j :: 0 < j < i ==> es[j] == es[1..][j - 1];
    }
  }

  // ----- the laws -----

  lemma AssignKeepsSorted(es: Entries, epoch: Epoch, offset: int)
    requires Sorted(es)
    ensures Sorted(Assigned(es, epoch, offset))
  {
    var n := |es|;
    var r := Assigned(es, epoch, offset);
    forall i, j | 0 <= i < j < |r| ensures Ordered(r[i], r[j]) {
      if j == n && i < n - 1 { assert Ordered(es[i], es[n - 1]); }
    }
  }

  lemma {:induction false} RebaseKeepsSorted(es: Entries, from: Entries)
    requires Sorted(es)
    ensures Sorted(Rebased(es, from)) && es <= Rebased(es, from)
    decreases |from|
  {
    if from != [] {
      AssignKeepsSorted(es, from[0].leaderEpoch, from[0].startOffset);
      RebaseKeepsSorted(if from[0].leaderEpoch > LatestEpoch(es)
                        then Assigned(es, from[0].leaderEpoch, from[0].startOffset) else es, from[1..]);
    }
  }

  /** The entries from the first one above `epoch` on. */
  function Newer(es: Entries, epoch: Epoch): Entries
    decreases |es|
  {
    if es == [] || es[0].leaderEpoch > epoch then es else Newer(es[1..], epoch)
  }

  lemma {:induction false} NewerAre(es: Entries, epoch: Epoch, e: EpochOffset)
    requires Sorted(es)
    ensures e in Newer(es, epoch) <==> e in es && e.leaderEpoch > epoch
    decreases |es|
  {
    if es != [] {
      if es[0].leaderEpoch > epoch {
        forall i | 0 <= i < |es| ensures es[i].leaderEpoch > epoch { assert i > 0 ==> Ordered(es[0], es[i]); }
      } else {
        SortedTail(es);
        NewerAre(es[1..], epoch, e);
      }
    }
  }

  lemma SortedTail(es: Entries)
    requires Sorted(es) && es != []
    ensures Sorted(es[1..])
  {
    forall i, j | 0 <= i < j < |es| - 1 ensures Ordered(es[1..][i], es[1..][j]) {
      assert Ordered(es[i + 1], es[j + 1]);
    }
  }

  /** Rebasing onto a cache that ends before the other one starts adds exactly the newer
      entries, as they are. */
  lemma {:induction false} RebasedAdds(es: Entries, from: Entries)
    requires Sorted(es) && Sorted(from) && (from != [] ==> LatestOffset(es) <= from[0].startOffset)
    ensures Rebased(es, from) == es + Newer(from, LatestEpoch(es))
    decreases |from|
  {
    if from == [] {
      assert es + [] == es;
    } else {
      var e, rest := from[0], from[1..];
      SortedTail(from);
      assert rest != [] ==> Ordered(e, from[1]);
      if e.leaderEpoch > LatestEpoch(es) {
        AssignKeepsSorted(es, e.leaderEpoch, e.startOffset);
        RebasedAdds(es + [e], rest);
        assert (es + [e]) + rest == es + from;
      } else {
        RebasedAdds(es, rest);
      }
    }
  }

  lemma ClearLatestShape(es: Entries, offset: int)
    requires Sorted(es)
    ensures var r := ClearedLatest(es, offset);
            && |r| <= |es| && r == es[..|r|]
            && (forall i :: 0 <= i < |es| ==> (es[i].startOffset < offset <==> i < |r|))
  {
    hide Below;
    BelowIsPrefix(es, offset);
    if offset > LatestOffset(es) {
      forall i | 0 <= i < |es| ensures es[i].startOffset < offset {
        if i < |es| - 1 { assert Ordered(es[i], es[|es| - 1]); }
      }
    }
  }

  /** Clearing the latest entries keeps the epoch of every offset below the cut,
      and leaves no entry at or above it. */
  lemma ClearLatestLaw(es: Entries, offset: int, x: int)
    requires Sorted(es)
    ensures Sorted(ClearedLatest(es, offset)) && ClearedLatest(es, offset) <= es
    ensures forall e :: e in ClearedLatest(es, offset) <==> e in es && e.startOffset < offset
    ensures x < offset ==> EpochAt(ClearedLatest(es, offset), x) == EpochAt(es, x)
  {
    hide EpochAt;
    hide ClearedLatest;
    hide Sorted;
    ClearLatestShape(es, offset);
    var r := ClearedLatest(es, offset);
    SortedPrefix(es, |r|);
    forall e | e in es && e.startOffset < offset ensures e in r {
      var i :| 0 <= i < |es| && es[i] == e;
      assert r[i] == e;
    }
    if x < offset { PrefixEpochAt(es, |r|, x); }
  }

  /** A prefix that has all entries up to an offset knows its epoch. */
  lemma PrefixEpochAt(es: Entries, n: nat, x: int)
    requires n <= |es| && forall i :: n <= i < |es| ==> es[i].startOffset > x
    ensures EpochAt(es[..n], x) == EpochAt(es, x)
  {
    hide EpochAt;
    if j :| 0 <= j < |es| && es[j].startOffset <= x {
      var i := EpochAtWitness(es, x);
      EpochAtIsLast(es[..n], x, i);
    } else {
      EpochAtNone(es, x);
      EpochAtNone(es[..n], x);
    }
  }

  /** What clearing the earliest entries does to a cache with an earlier entry:
      a suffix stays, led by an entry at the cut that carries the last dropped epoch. */
  lemma ClearEarliestShape(es: Entries, offset: int) returns (k: nat)
    requires Sorted(es) && es != [] && EarliestOffset(es) < offset
    ensures k < |es| && es[k].startOffset < offset
    ensures forall j :: k < j < |es| ==> es[j].startOffset >= offset
    ensures forall j :: 0 <= j <= k ==> es[j].startOffset < offset
    ensures ClearedEarliest(es, offset) ==
            if k + 1 < |es| && es[k + 1].startOffset == offset then es[k + 1..]
            else [EpochOffset(es[k].leaderEpoch, offset)] + es[k + 1..]
  {
    BelowIsPrefix(es, offset);
    k := |Below(es, offset)| - 1;
  }

  lemma ClearEarliestNothing(es: Entries, offset: int)
    requires es == [] || EarliestOffset(es) >= offset
    ensures ClearedEarliest(es, offset) == es
  {}

  lemma ClearEarliestKeepsSorted(es: Entries, offset: int)
    requires Sorted(es)
    ensures Sorted(ClearedEarliest(es, offset))
  {
    hide ClearedEarliest;
    if es != [] && EarliestOffset(es) < offset {
      var k := ClearEarliestShape(es, offset);
      var r := ClearedEarliest(es, offset);
      forall i, j | 0 <= i < j < |r| ensures Ordered(r[i], r[j]) {
        if |r| == |es| - k - 1 {
          assert Ordered(es[k + 1 + i], es[k + 1 + j]);
        } else if i == 0 {
          assert Ordered(es[k], es[k + j]);
        } else {
          assert Ordered(es[k + i], es[k + j]);
        }
      }
    } else {
      ClearEarliestNothing(es, offset);
    }
  }

  /** The epoch of every offset from the cut on survives. */
  lemma ClearEarliestKeepsEpochs(es: Entries, offset: int, x: int)
    requires Sorted(es) && es != [] && EarliestOffset(es) < offset <= x
    ensures EpochAt(ClearedEarliest(es, offset), x) == EpochAt(es, x)
  {
    hide EpochAt;
    hide ClearedEarliest;
    var k := ClearEarliestShape(es, offset);
    var r := ClearedEarliest(es, offset);
    assert es[0].startOffset <= x;
    var i := EpochAtWitness(es, x);
    if |r| == |es| - k - 1 {
      EpochAtIsLast(r, x, i - k - 1);
    } else {
      assert forall j :: 1 <= j < |r| ==> r[j] == es[k + j];
      EpochAtIsLast(r, x, if i <= k then 0 else i - k);
    }
  }

  /** Every lookup that had an answer keeps it, raised to the cut. */
  lemma ClearEarliestRaisesAnswers(es: Entries, offset: int, epoch: nat)
    requires Sorted(es) && es != [] && EarliestOffset(es) < offset
    requires StartOf(es, epoch).Some?
    ensures var s := StartOf(es, epoch).value;
            StartOf(ClearedEarliest(es, offset), epoch) == Some(if s < offset then offset else s)
  {
    var k := ClearEarliestShape(es, offset);
    var i := StartOfWitness(es, epoch);
    if k + 1 < |es| && es[k + 1].startOffset == offset {
      if i <= k { assert Ordered(es[i], es[k + 1]); }
      StartOfIsFirst(es[k + 1..], epoch, if i <= k then 0 else i - k - 1);
    } else {
      HeadAnswers(es, offset, epoch, k, i);
    }
  }

  lemma HeadAnswers(es: Entries, offset: int, epoch: nat, k: nat, i: nat)
    requires Sorted(es) && k < |es| && i < |es|
    requires es[i].leaderEpoch >= epoch && forall j :: 0 <= j < i ==> es[j].leaderEpoch < epoch
    ensures StartOf([EpochOffset(es[k].leaderEpoch, offset)] + es[k + 1..], epoch)
            == Some(if i <= k then offset else es[i].startOffset)
  {
    var r := [EpochOffset(es[k].leaderEpoch, offset)] + es[k + 1..];
    if i <= k {
      if i < k { assert Ordered(es[i], es[k]); }
      StartOfIsFirst(r, epoch, 0);
    } else {
      assert forall j :: 1 <= j < |r| ==> r[j] == es[k + j];
      StartOfIsFirst(r, epoch, i - k);
    }
  }

  /** The cache object; every method is tied to the specification function of the
      same operation, whose laws are above. */
  class LeaderEpochCache {
    var epochOffsets: Entries

    ghost predicate Valid() reads this { Sorted(epochOffsets) }

    constructor ()
      ensures Valid() && epochOffsets == []
    {
      epochOffsets := [];
    }

    method Assign(epoch: Epoch, offset: int)
      requires Valid()
      modifies this
      ensures Valid() && epochOffsets == Assigned(old(epochOffsets), epoch, offset)
    {
      AssignKeepsSorted(epochOffsets, epoch, offset);
      if epoch > LatestEpoch(epochOffsets) && offset >= LatestOffset(epochOffsets) {
        epochOffsets := epochOffsets + [EpochOffset(epoch, offset)];
      }
    }

    method FindEpoch(epoch: nat) returns (start: Option<int>)
      requires Valid()
      ensures start == StartOf(epochOffsets, epoch)
    {
      var es := epochOffsets;
      var i := BinarySearch.Search(|es|, k requires 0 <= k < |es| => es[k].leaderEpoch >= epoch);
      if i < |es| {
        StartOfIsFirst(es, epoch, i);
        start := Some(es[i].startOffset);
      } else {
        StartOfNone(es, epoch);
        start := None;
      }
    }

    method LastOffsetForLeaderEpoch(epoch: Epoch) returns (offset: int)
      requires Valid()
      ensures offset == LastOffsetFor(epochOffsets, epoch)
    {
      var e := FindEpoch((epoch + 1) % UINT64);
      offset := if e == None then -1 else e.value;
    }

    method ClearLatest(offset: int)
      requires Valid()
      modifies this
      ensures Valid() && epochOffsets == ClearedLatest(old(epochOffsets), offset)
    {
      ClearLatestLaw(epochOffsets, offset, 0);
      if offset > LatestOffset(epochOffsets) { return; }
      var filtered := FilterBelow(offset);
      epochOffsets := filtered;
    }

    method FilterBelow(offset: int) returns (filtered: Entries)
      ensures filtered == Below(epochOffsets, offset)
    {
      filtered := [];
      for i := 0 to |epochOffsets|
        invariant filtered == Below(epochOffsets[..i], offset)
      {
        assert epochOffsets[..i + 1][..i] == epochOffsets[..i];
        if epochOffsets[i].startOffset < offset {
          filtered := filtered + [epochOffsets[i]];
        }
      }
      assert epochOffsets[..|epochOffsets|] == epochOffsets;
    }

    method ClearEarliest(offset: int)
      requires Valid()
      modifies this
      ensures Valid() && epochOffsets == ClearedEarliest(old(epochOffsets), offset)
    {
      ClearEarliestKeepsSorted(epochOffsets, offset);
      BelowIsPrefix(epochOffsets, offset);
      if EarliestOffset(epochOffsets) >= offset { return; }
      var earliest := FilterBelow(offset);
      if earliest == [] { return; }
      epochOffsets := epochOffsets[|earliest|..];
      if offset < EarliestOffset(epochOffsets) || epochOffsets == [] {
        epochOffsets := [EpochOffset(earliest[|earliest| - 1].leaderEpoch, offset)] + epochOffsets;
      }
    }

    method Rebase(from: LeaderEpochCache, offset: int)
      requires Valid() && from.Valid() && from != this
      modifies this
      ensures Valid()
      ensures epochOffsets == Rebased(old(epochOffsets), from.epochOffsets[|Below(from.epochOffsets, offset)|..])
    {
      hide Below;
      hide Rebased;
      var es := from.epochOffsets;
      BelowIsPrefix(es, offset);
      var i := BinarySearch.Search(|es|, k requires 0 <= k < |es| => es[k].startOffset >= offset);
      assert i == |Below(es, offset)|;
      AssignAll(es[i..]);
    }

    method AssignAll(es: Entries)
      requires Valid()
      modifies this
      ensures Valid() && epochOffsets == Rebased(old(epochOffsets), es)
    {
      hide Sorted;
      ghost var result := Rebased(epochOffsets, es);
      for k := 0 to |es|
        invariant Valid() && Rebased(epochOffsets, es[k..]) == result
      {
        assert es[k..][1..] == es[k + 1..];
        if es[k].leaderEpoch > LatestEpoch(epochOffsets) {
          Assign(es[k].leaderEpoch, es[k].startOffset);
        }
      }
    }

    method Replace(from: LeaderEpochCache)
      requires Valid() && from.Valid()
      modifies this
      ensures Valid() && epochOffsets == old(from.epochOffsets)
    {
      epochOffsets := from.epochOffsets;
    }
  }
}
