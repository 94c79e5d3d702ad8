/** A log cut into segments, as a value: each segment has a base offset and the
    messages written to it. Flattening gives back the plain log. */
module SegmentedLog {
  import opened Wrappers
  import opened Messages
  import BinarySearch

  datatype Seg = Seg(base: int, msgs: Log) {
    function NextOffset(): int {
      if msgs == [] then base else msgs[|msgs| - 1].offset + 1
    }

    ghost predicate Valid() {
      && base >= 0
      && Increasing(msgs)
      && Stamped(msgs)
      && (forall i :: 0 <= i < |msgs| ==> base <= msgs[i].offset)
    }

    ghost predicate Dense() {
      forall i :: 0 <= i < |msgs| ==> msgs[i].offset == base + i
    }
  }

  function Flatten(segs: seq<Seg>): Log {
    if segs == [] then [] else Flatten(segs[..|segs| - 1]) + segs[|segs| - 1].msgs
  }

  /** What every reachable list of segments satisfies; only the last may be empty. */
  ghost predicate Chain(segs: seq<Seg>) {
    && |segs| > 0
    && (forall i :: 0 <= i < |segs| ==> segs[i].Valid())
    && (forall i :: 0 <= i < |segs| - 1 ==> segs[i].msgs != [])
    && (forall i, j :: 0 <= i < j < |segs| ==> segs[i].NextOffset() <= segs[j].base)
  }

  /** No offset is missing (no compaction): Truncate's promise is about such logs. */
  ghost predicate GapFree(segs: seq<Seg>) {
    && (forall i :: 0 <= i < |segs| ==> segs[i].Dense())
    && (forall i :: 0 <= i < |segs| - 1 ==> segs[i].NextOffset() == segs[i + 1].base)
  }

  function NextOffset(segs: seq<Seg>): int
    requires segs != []
  {
    segs[|segs| - 1].NextOffset()
  }

  /** Gap-free from offset 0 on. */
  ghost predicate FromZero(segs: seq<Seg>) { segs != [] && GapFree(segs) && segs[0].base == 0 }

  // ----- flattening -----

  lemma FlattenStep(segs: seq<Seg>, s: Seg)
    ensures Flatten(segs + [s]) == Flatten(segs) + s.msgs && Flatten([]) == []
  {
    assert (segs + [s])[..|segs|] == segs;
  }

  lemma {:induction false} FlattenConcat(a: seq<Seg>, b: seq<Seg>)
    ensures Flatten(a + b) == Flatten(a) + Flatten(b)
  {
    hide Flatten;
    if b == [] {
      FlattenStep(a, Seg(0, []));
      assert a + b == a;
    } else {
      var n := |b| - 1;
      FlattenConcat(a, b[..n]);
      FlattenStep(b[..n], b[n]);
      FlattenStep(a + b[..n], b[n]);
      assert a + b == (a + b[..n]) + [b[n]] && b == b[..n] + [b[n]];
      assert Flatten(a + b) == Flatten(a) + (Flatten(b[..n]) + b[n].msgs);
    }
  }

  lemma FlattenOne(s: Seg)
    ensures Flatten([s]) == s.msgs
  {
    assert [s][..0] == [];
  }

  lemma {:induction false} FlattenMember(segs: seq<Seg>, m: Message)
    requires m in Flatten(segs)
    ensures exists i :: 0 <= i < |segs| && m in segs[i].msgs
  {
    var n := |segs| - 1;
    if m in Flatten(segs[..n]) {
      FlattenMember(segs[..n], m);
      var i :| 0 <= i < |segs[..n]| && m in segs[..n][i].msgs;
      assert m in segs[i].msgs;
    }
  }

  lemma SegmentBounds(s: Seg, m: Message)
    requires s.Valid() && m in s.msgs
    ensures s.base <= m.offset < s.NextOffset()
  {
    var i :| 0 <= i < |s.msgs| && s.msgs[i] == m;
    if i < |s.msgs| - 1 { assert s.msgs[i].offset < s.msgs[|s.msgs| - 1].offset; }
  }

  lemma NextOffsetMonotone(segs: seq<Seg>, i: int, j: int)
    requires Chain(segs) && 0 <= i <= j < |segs|
    ensures segs[i].NextOffset() <= segs[j].NextOffset()
    ensures i < j && segs[j].msgs != [] ==> segs[i].NextOffset() < segs[j].NextOffset()
  {
    if i < j && segs[j].msgs != [] { SegmentBounds(segs[j], segs[j].msgs[0]); }
  }

  /** Then the offset of a message is its place, and the next offset the length. */
  lemma {:induction false} FromZeroLength(segs: seq<Seg>)
    requires FromZero(segs)
    ensures NextOffset(segs) == |Flatten(segs)|
    ensures forall i :: 0 <= i < |Flatten(segs)| ==> Flatten(segs)[i].offset == i
  {
    var n := |segs| - 1;
    assert segs == segs[..n] + [segs[n]];
    FlattenStep(segs[..n], segs[n]);
    if n > 0 {
      assert forall i :: 0 <= i < n - 1 ==> segs[..n][i].NextOffset() == segs[..n][i + 1].base;
      FromZeroLength(segs[..n]);
      assert segs[n - 1].NextOffset() == segs[n].base;
    }
  }

  /** A flattened chain is an increasing log that ends below its next offset. */
  lemma {:induction false} FlattenIncreasing(segs: seq<Seg>)
    requires Chain(segs)
    ensures Increasing(Flatten(segs))
    ensures forall m :: m in Flatten(segs) ==> segs[0].base <= m.offset < NextOffset(segs)
  {
    hide Flatten;
    hide Chain;
    hide Seg.Valid;
    hide Increasing;
    LastOfChain(segs);
    var n := |segs| - 1;
    var s := segs[n];
    assert segs == segs[..n] + [s];
    FlattenStep(segs[..n], s);
    forall m | m in s.msgs ensures s.base <= m.offset < s.NextOffset() { SegmentBounds(s, m); }
    if n == 0 {
      assert segs[..0] == [] && Flatten(segs) == s.msgs;
    } else {
      FlattenIncreasing(segs[..n]);
      IncreasingConcat(Flatten(segs[..n]), s.msgs, s.base);
    }
  }

  lemma LastOfChain(segs: seq<Seg>)
    requires Chain(segs)
    ensures segs != []
    ensures var n := |segs| - 1;
            && segs[n].Valid() && Increasing(segs[n].msgs)
            && (n > 0 ==> Chain(segs[..n]) && NextOffset(segs[..n]) <= segs[n].base <= NextOffset(segs))
            && segs[0].base <= segs[n].base <= NextOffset(segs)
  {
    var n := |segs| - 1;
    NextAboveBase(segs[0]);
    NextAboveBase(segs[n]);
  }

  lemma IncreasingConcat(a: Log, b: Log, mid: int)
    requires Increasing(a) && Increasing(b)
    requires (forall m :: m in a ==> m.offset < mid) && (forall m :: m in b ==> mid <= m.offset)
    ensures Increasing(a + b)
  {
    var l := a + b;
    forall i, j | 0 <= i < j < |l| ensures l[i].offset < l[j].offset {
      if i < |a| && j >= |a| {
        assert l[i] in a && l[j] in b;
      } else if i >= |a| {
        assert l[i] == b[i - |a|] && l[j] == b[j - |a|];
      }
    }
  }

  lemma NextAboveBase(s: Seg)
    requires s.Valid()
    ensures s.base <= s.NextOffset()
  {}

  // ----- growth -----

  /** The segments after some appends: the last segment may have grown, and segments may
      have been rolled since. */
  ghost predicate Grew(seen: seq<Seg>, now: seq<Seg>) {
    && 0 < |seen| <= |now| && seen[..|seen| - 1] == now[..|seen| - 1]
    && seen[|seen| - 1].base == now[|seen| - 1].base && seen[|seen| - 1].msgs <= now[|seen| - 1].msgs
  }

  lemma GrewSelf(segs: seq<Seg>)
    requires segs != []
    ensures Grew(segs, segs)
  {}

  lemma GrewTransitive(a: seq<Seg>, b: seq<Seg>, c: seq<Seg>)
    requires Grew(a, b) && Grew(b, c)
    ensures Grew(a, c)
  {
    var n := |a| - 1;
    assert b[..n] == c[..n] by {
      forall i | 0 <= i < n ensures b[i] == c[i] { assert b[..|b| - 1][i] == c[..|b| - 1][i]; }
    }
    if n < |b| - 1 { assert b[..|b| - 1][n] == c[..|b| - 1][n]; }
  }

  /** Segments before the last one seen are as they were. */
  lemma GrewKeeps(seen: seq<Seg>, now: seq<Seg>, k: nat)
    requires Grew(seen, now) && k < |seen|
    ensures seen[..k] == now[..k] && seen[k].base == now[k].base
  {
    forall i | 0 <= i < |seen| - 1 ensures seen[i] == now[i] { assert seen[..|seen| - 1][i] == now[..|seen| - 1][i]; }
  }

  /** A suffix of a chain is a chain with the same end. */
  lemma ChainSuffix(segs: seq<Seg>, k: nat)
    requires Chain(segs) && k < |segs|
    ensures Chain(segs[k..]) && NextOffset(segs[k..]) == NextOffset(segs)
  {}

  // ----- lookups -----

  /** The first segment whose next offset lies above `offset`, or their number. */
  method FindSegment(segs: seq<Seg>, offset: int) returns (idx: nat)
    requires Chain(segs)
    ensures Splits(segs, offset, idx)
  {
    forall j, k | 0 <= j <= k < |segs| ensures segs[j].NextOffset() <= segs[k].NextOffset() {
      NextOffsetMonotone(segs, j, k);
    }
    idx := BinarySearch.Search(|segs|, k requires 0 <= k < |segs| => segs[k].NextOffset() > offset);
  }

  // ----- truncation -----

  /** What Truncate makes of the segments: later ones go, the one the offset falls
      into is rewritten, or dropped when it starts at the offset and is not the first. */
  function Truncated(segs: seq<Seg>, offset: int, idx: nat): seq<Seg>
    requires idx <= |segs|
  {
    if idx == |segs| then segs
    else if segs[idx].base == offset && idx > 0 then segs[..idx]
    else segs[..idx] + [Seg(segs[idx].base, Before(segs[idx].msgs, offset))]
  }

  ghost predicate Splits(segs: seq<Seg>, offset: int, idx: nat) {
    && idx <= |segs|
    && (forall i :: 0 <= i < idx ==> segs[i].NextOffset() <= offset)
    && (forall i :: idx <= i < |segs| ==> segs[i].NextOffset() > offset)
  }

  /** The number of a segment's messages below an offset. */
  lemma {:induction false} BeforeOfIncreasing(log: Log, offset: int) returns (n: nat)
    requires Increasing(log)
    ensures n <= |log| && Before(log, offset) == log[..n]
    ensures forall i :: 0 <= i < n ==> log[i].offset < offset
    ensures forall i :: n <= i < |log| ==> log[i].offset >= offset
  {
    n := 0;
    while n < |log| && log[n].offset < offset
      invariant n <= |log|
      invariant forall i :: 0 <= i < n ==> log[i].offset < offset
    {
      n := n + 1;
    }
    BeforeIsPrefix(log, offset, n);
  }

  /** Cutting the list after a segment and swapping that segment for a valid one
      with the same base keeps a chain. */
  lemma ReplaceLast(segs: seq<Seg>, idx: nat, t: Seg)
    requires Chain(segs) && idx < |segs| && t.Valid() && t.base == segs[idx].base
    ensures Chain(segs[..idx] + [t])
  {
    var r := segs[..idx] + [t];
    forall i, j | 0 <= i < j < |r| ensures r[i].NextOffset() <= r[j].base {
      assert r[i] == segs[i] && r[j].base == segs[j].base;
    }
  }

  lemma TruncatedChain(segs: seq<Seg>, offset: int, idx: nat)
    requires Chain(segs) && Splits(segs, offset, idx)
    ensures Chain(Truncated(segs, offset, idx))
  {
    if idx < |segs| {
      var s := segs[idx];
      if s.base == offset && idx > 0 {
        assert segs[..idx] == segs[..idx - 1] + [segs[idx - 1]];
        ReplaceLast(segs, idx - 1, segs[idx - 1]);
      } else {
        var n := BeforeOfIncreasing(s.msgs, offset);
        ReplaceLast(segs, idx, Seg(s.base, s.msgs[..n]));
      }
    }
  }

  lemma BeforeBelow(segs: seq<Seg>, offset: int)
    requires forall i :: 0 <= i < |segs| ==> segs[i].Valid() && segs[i].NextOffset() <= offset
    ensures Before(Flatten(segs), offset) == Flatten(segs)
  {
    forall m | m in Flatten(segs) ensures m.offset < offset {
      FlattenMember(segs, m);
      var i :| 0 <= i < |segs| && m in segs[i].msgs;
      SegmentBounds(segs[i], m);
    }
    BeforeAll(Flatten(segs), offset);
  }

  lemma BeforeAbove(segs: seq<Seg>, offset: int)
    requires forall i :: 0 <= i < |segs| ==> segs[i].Valid() && segs[i].base >= offset
    ensures Before(Flatten(segs), offset) == []
  {
    forall m | m in Flatten(segs) ensures m.offset >= offset {
      FlattenMember(segs, m);
      var i :| 0 <= i < |segs| && m in segs[i].msgs;
      SegmentBounds(segs[i], m);
    }
    BeforeNone(Flatten(segs), offset);
  }

  /** Truncation is dropping every message at or above the offset, on every
      reachable log, compacted ones included. */
  lemma TruncatedFlatten(segs: seq<Seg>, offset: int, idx: nat)
    requires Chain(segs) && Splits(segs, offset, idx)
    ensures Flatten(Truncated(segs, offset, idx)) == Before(Flatten(segs), offset)
  {
    hide Flatten;
    hide Before;
    if idx == |segs| {
      BeforeBelow(segs, offset);
    } else {
      var s := segs[idx];
      var pre, post := segs[..idx], segs[idx + 1..];
      assert segs == pre + [s] + post;
      FlattenConcat(pre + [s], post);
      FlattenConcat(pre, [s]);
      FlattenOne(s);
      BeforeConcat(Flatten(pre) + s.msgs, Flatten(post), offset);
      BeforeConcat(Flatten(pre), s.msgs, offset);
      BeforeBelow(pre, offset);
      BeforeAbove(post, offset);
      if s.base == offset && idx > 0 {
        BeforeAbove([s], offset);
      } else {
        FlattenConcat(pre, [Seg(s.base, Before(s.msgs, offset))]);
        FlattenOne(Seg(s.base, Before(s.msgs, offset)));
      }
    }
  }

  /** On a gap-free log the truncation point becomes the next offset assigned. */
  lemma TruncatedNextOffset(segs: seq<Seg>, offset: int, idx: nat)
    requires Chain(segs) && GapFree(segs) && Splits(segs, offset, idx)
    requires segs[0].base <= offset <= NextOffset(segs)
    ensures NextOffset(Truncated(segs, offset, idx)) == offset
    ensures GapFree(Truncated(segs, offset, idx))
  {
    hide Before;
    var r := Truncated(segs, offset, idx);
    if idx < |segs| {
      var s := segs[idx];
      if s.base == offset && idx > 0 {
        assert segs[idx - 1].NextOffset() == s.base;
      } else {
        if idx > 0 { assert segs[idx - 1].NextOffset() == s.base <= offset; }
        var n := BeforeOfIncreasing(s.msgs, offset);
        if n < |s.msgs| {
          assert s.msgs[n].offset == s.base + n >= offset;
        }
        if n > 0 { assert s.msgs[n - 1].offset == s.base + n - 1; }
        assert s.base + n == offset;
        assert r[idx] == Seg(s.base, s.msgs[..n]);
      }
    } else {
      assert NextOffset(segs) == segs[|segs| - 1].NextOffset() <= offset;
    }
  }
}
