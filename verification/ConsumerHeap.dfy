/** Consumers and the heaps of consumers subscribed to a stream. Heaps share the
    consumers; container/heap keeps them ordered by assignment count and id. */
module ConsumerHeap {
  import opened GroupSpec

  class Consumer {
    const id: string
    var streams: set<string>
    var assignments: map<string, seq<int>>
    var assignedCount: int

    function View(): Member
      reads this
    {
      Member(streams, assignments, assignedCount)
    }

    constructor (id: string, streams: set<string>)
      ensures this.id == id && View() == Member(streams, map[], 0)
    {
      this.id, this.streams, assignments, assignedCount := id, streams, map[], 0;
    }

    method AssignPartition(stream: string, partition: int)
      modifies this
      ensures View() == old(View()).Give(stream, partition)
    {
      var assigned' := if stream in assignments then assignments[stream] else [];
      assignments := assignments[stream := assigned' + [partition]];
      assignedCount := assignedCount + 1;
    }

    method RemoveStreamAssignments(stream: string)
      modifies this
      ensures View() == old(View()).Drop(stream)
    {
      assignedCount := assignedCount - (if stream in assignments then |assignments[stream]| else 0);
      assignments := assignments - {stream};
    }
  }

  type Heap = seq<Consumer>

  predicate LessThan(a: Consumer, b: Consumer)
    reads a, b
  {
    if a.assignedCount == b.assignedCount then Less(a.id, b.id) else a.assignedCount < b.assignedCount
  }

  ghost predicate IsChild(c: int, p: int) { c == 2 * p + 1 || c == 2 * p + 2 }

  /** The heap order below every node from `k` on. */
  ghost predicate OrderedFrom(h: Heap, k: int)
    reads h
  {
    forall p, c :: k <= p < c < |h| && p >= 0 && IsChild(c, p) ==> !LessThan(h[c], h[p])
  }

  lemma NotLessTransitive(a: Consumer, b: Consumer, c: Consumer)
    requires !LessThan(b, a) && !LessThan(c, b)
    ensures !LessThan(c, a)
  {
    LessTotal(a.id, b.id);
    LessTotal(b.id, c.id);
    LessTotal(a.id, c.id);
    LessIrreflexive(a.id);
    if Less(c.id, a.id) && Less(a.id, b.id) { LessTransitive(c.id, a.id, b.id); }
    if Less(b.id, c.id) && Less(c.id, a.id) { LessTransitive(b.id, c.id, a.id); }
  }

  lemma LessAsymmetric(a: Consumer, b: Consumer)
    requires LessThan(a, b)
    ensures !LessThan(b, a)
  {
    if Less(a.id, b.id) && Less(b.id, a.id) {
      LessTransitive(a.id, b.id, a.id);
      LessIrreflexive(a.id);
    }
  }

  /** The root of a heap comes before everything in it. */
  lemma {:induction false} RootFirst(h: Heap, i: nat)
    requires OrderedFrom(h, 0) && i < |h|
    ensures !LessThan(h[i], h[0])
  {
    if i == 0 {
      LessIrreflexive(h[0].id);
    } else {
      var p := (i - 1) / 2;
      RootFirst(h, p);
      assert IsChild(i, p);
      NotLessTransitive(h[0], h[p], h[i]);
    }
  }

  function Swap(h: Heap, i: nat, j: nat): (r: Heap)
    requires i < |h| && j < |h|
    ensures |r| == |h| && multiset(r) == multiset(h)
  {
    h[i := h[j]][j := h[i]]
  }

  /** Sifts the element at `start` down, if a child comes before it; that puts a heap in
      order that was so but for what is below `start`. */
  method Down(h0: Heap, start: nat) returns (h: Heap, moved: bool)
    requires start < |h0|
    ensures |h| == |h0| && multiset(h) == multiset(h0)
    ensures forall from :: 0 <= from <= start && OrderedBut(h0, from, start) ==> OrderedFrom(h, from)
    ensures !moved ==> h == h0
    ensures moved <==> exists c :: start < c < |h0| && IsChild(c, start) && LessThan(h0[c], h0[start])
  {
    hide FirstChild;
    hide OrderedBut;
    hide OrderedFrom;
    h, moved := h0, false;
    var i := start;
    while 2 * i + 1 < |h|
      invariant start <= i < |h| == |h0| && multiset(h) == multiset(h0)
      invariant forall from :: 0 <= from <= start && OrderedBut(h0, from, start) ==> OrderedBut(h, from, i)
      invariant !moved ==> h == h0 && i == start
      invariant moved ==> exists c :: start < c < |h0| && IsChild(c, start) && LessThan(h0[c], h0[start])
      decreases |h| - i
    {
      var j := SmallerChild(h, i);
      if !LessThan(h[j], h[i]) {
        NoneSmaller(h, i, j);
        forall from | 0 <= from <= start && OrderedBut(h0, from, start) ensures OrderedFrom(h, from) {
          Settled(h, from, i, j);
        }
        return;
      }
      forall from | 0 <= from <= start && OrderedBut(h0, from, start) ensures OrderedBut(Swap(h, i, j), from, j) {
        Sifted(h, from, i, j);
      }
      h, moved := Swap(h, i, j), true;
      i := j;
    }
    forall from | 0 <= from <= start && OrderedBut(h0, from, start) ensures OrderedFrom(h, from) {
      NoChildren(h, from, i);
    }
  }

  /** In order from `start` on except below `i`, whose children come after its parent. */
  ghost predicate OrderedBut(h: Heap, start: int, i: int)
    reads h
  {
    && (forall p, c :: start <= p < c < |h| && p >= 0 && p != i && IsChild(c, p) ==> !LessThan(h[c], h[p]))
    && (forall p, c :: start <= p < i < c < |h| && p >= 0 && IsChild(i, p) && IsChild(c, i) ==> !LessThan(h[c], h[p]))
  }

  ghost predicate FirstChild(h: Heap, i: nat, j: nat)
    reads h
  {
    i < j < |h| && IsChild(j, i) && forall c :: i < c < |h| && IsChild(c, i) ==> !LessThan(h[c], h[j])
  }

  method SmallerChild(h: Heap, i: nat) returns (j: nat)
    requires 2 * i + 1 < |h|
    ensures i < j < |h| && FirstChild(h, i, j) && IsChild(j, i)
  {
    j := 2 * i + 1;
    if j + 1 < |h| && LessThan(h[j + 1], h[j]) {
      LessAsymmetric(h[j + 1], h[j]);
      j := j + 1;
    }
    LessIrreflexive(h[j].id);
  }

  lemma NoneSmaller(h: Heap, i: nat, j: nat)
    requires i < |h| && FirstChild(h, i, j) && !LessThan(h[j], h[i])
    ensures forall c :: i < c < |h| && IsChild(c, i) ==> !LessThan(h[c], h[i])
  {
    forall c | i < c < |h| && IsChild(c, i) ensures !LessThan(h[c], h[i]) { NotLessTransitive(h[i], h[j], h[c]); }
  }

  lemma NoChildren(h: Heap, start: nat, i: nat)
    requires start <= i < |h| <= 2 * i + 1 && OrderedBut(h, start, i)
    ensures OrderedFrom(h, start)
  {}

  lemma Settled(h: Heap, start: nat, i: nat, j: nat)
    requires start <= i < |h| && OrderedBut(h, start, i) && FirstChild(h, i, j) && !LessThan(h[j], h[i])
    ensures OrderedFrom(h, start)
  {
    forall c | i < c < |h| && IsChild(c, i) ensures !LessThan(h[c], h[i]) { NotLessTransitive(h[i], h[j], h[c]); }
  }

  lemma Sifted(h: Heap, start: nat, i: nat, j: nat)
    requires start <= i < |h| && OrderedBut(h, start, i) && FirstChild(h, i, j) && LessThan(h[j], h[i])
    ensures OrderedBut(Swap(h, i, j), start, j)
  {
    LessAsymmetric(h[j], h[i]);
    var r := Swap(h, i, j);
    forall p, c | start <= p < c < |r| && p != j && IsChild(c, p) ensures !LessThan(r[c], r[p]) {
      if p == i {
        assert r[p] == h[j];
      } else if c == i {
        assert r[c] == h[j] && r[p] == h[p];
        assert IsChild(j, i);
      } else {
        assert r[c] == h[c] && r[p] == h[p];
      }
    }
    forall p, c | start <= p < j < c < |r| && IsChild(j, p) && IsChild(c, j) ensures !LessThan(r[c], r[p]) {
      assert p == i && r[p] == h[j] && r[c] == h[c];
    }
  }

  /** heap.Init. */
  method Init(h0: Heap) returns (h: Heap)
    ensures multiset(h) == multiset(h0) && OrderedFrom(h, 0)
  {
    h := h0;
    var i := |h| / 2;
    while i > 0
      invariant i <= |h| / 2 && |h| == |h0| && multiset(h) == multiset(h0)
      invariant OrderedFrom(h, i)
    {
      i := i - 1;
      assert OrderedBut(h, i, i);
      var moved;
      h, moved := Down(h, i);
    }
  }

  /** In order except above `j`, whose children come after its parent. */
  ghost predicate OrderedAbove(h: Heap, j: int)
    reads h
  {
    && (forall p, c :: 0 <= p < c < |h| && c != j && IsChild(c, p) ==> !LessThan(h[c], h[p]))
    && (forall p, c :: 0 <= p < j < c < |h| && IsChild(j, p) && IsChild(c, j) ==> !LessThan(h[c], h[p]))
  }

  /** Sifts the element at `start` up; that puts a heap in order that was so but for the
      element and its parent. */
  method Up(h0: Heap, start: nat) returns (h: Heap)
    requires start < |h0|
    ensures |h| == |h0| && multiset(h) == multiset(h0)
    ensures OrderedAbove(h0, start) ==> OrderedFrom(h, 0)
  {
    h := h0;
    var j := start;
    while j > 0
      invariant j < |h| == |h0| && multiset(h) == multiset(h0)
      invariant OrderedAbove(h0, start) ==> OrderedAbove(h, j)
    {
      var i := (j - 1) / 2;
      if !LessThan(h[j], h[i]) {
        assert forall p :: 0 <= p && IsChild(j, p) ==> p == i;
        return;
      }
      if OrderedAbove(h0, start) { Risen(h, i, j); }
      h := Swap(h, i, j);
      j := i;
    }
  }

  lemma Risen(h: Heap, i: nat, j: nat)
    requires i < j < |h| && IsChild(j, i) && OrderedAbove(h, j) && LessThan(h[j], h[i])
    ensures OrderedAbove(Swap(h, i, j), i)
  {
    LessAsymmetric(h[j], h[i]);
    var r := Swap(h, i, j);
    forall p, c | 0 <= p < c < |r| && c != i && IsChild(c, p) ensures !LessThan(r[c], r[p]) {
      if p == i {
        if c != j { NotLessTransitive(h[j], h[i], h[c]); }
      } else if p == j {
        assert r[p] == h[i] && r[c] == h[c];
      } else {
        assert c != j && r[c] == h[c] && r[p] == h[p];
      }
    }
    forall p, c | 0 <= p < i < c < |r| && IsChild(i, p) && IsChild(c, i) ensures !LessThan(r[c], r[p]) {
      assert r[p] == h[p] && !LessThan(h[i], h[p]);
      if c != j { NotLessTransitive(h[p], h[i], h[c]); }
    }
  }

  /** heap.Push. */
  method Push(h0: Heap, c: Consumer) returns (h: Heap)
    ensures multiset(h) == multiset(h0) + multiset{c}
    ensures OrderedFrom(h0, 0) ==> OrderedFrom(h, 0)
  {
    h := Up(h0 + [c], |h0|);
  }

  /** In order except above and below `i`, whose children come after its parent. */
  ghost predicate OrderedAround(h: Heap, i: int)
    reads h
  {
    && (forall p, c :: 0 <= p < c < |h| && p != i && c != i && IsChild(c, p) ==> !LessThan(h[c], h[p]))
    && (forall p, c :: 0 <= p < i < c < |h| && IsChild(i, p) && IsChild(c, i) ==> !LessThan(h[c], h[p]))
  }

  lemma Replaced(h0: Heap, i: nat, h: Heap)
    requires OrderedFrom(h0, 0) && i < |h| < |h0| && h == h0[..|h|][i := h0[|h|]]
    ensures OrderedAround(h, i)
  {
    forall p, c | 0 <= p < i < c < |h| && IsChild(i, p) && IsChild(c, i) ensures !LessThan(h[c], h[p]) {
      NotLessTransitive(h0[p], h0[i], h0[c]);
    }
  }

  /** If a child of `i` comes before it, `i` comes after its parent. */
  lemma AboveInOrder(h: Heap, i: nat, c: nat)
    requires OrderedAround(h, i) && i < c < |h| && IsChild(c, i) && LessThan(h[c], h[i])
    ensures OrderedBut(h, 0, i)
  {
    LessAsymmetric(h[c], h[i]);
    forall p, d | 0 <= p < d < |h| && p != i && IsChild(d, p) ensures !LessThan(h[d], h[p]) {
      if d == i { NotLessTransitive(h[p], h[c], h[i]); }
    }
  }

  /** heap.Remove: the element swaps with the last, which then finds its place, down or
      else up. */
  method Remove(h0: Heap, i: nat) returns (h: Heap)
    requires i < |h0|
    ensures multiset(h) == multiset(h0) - multiset{h0[i]}
    ensures OrderedFrom(h0, 0) ==> OrderedFrom(h, 0)
  {
    hide OrderedAround;
    hide OrderedFrom;
    var n := |h0| - 1;
    h := Swap(h0, i, n)[..n];
    Popped(h0, i);
    if i < n {
      if OrderedFrom(h0, 0) { Replaced(h0, i, h); }
      h := Restored(h, i);
    } else {
      PrefixOrdered(h0, n);
    }
  }

  lemma Popped(h0: Heap, i: nat)
    requires i < |h0|
    ensures var n := |h0| - 1; var h := Swap(h0, i, n)[..n];
            && multiset(h) == multiset(h0) - multiset{h0[i]}
            && (if i < n then h == h0[..n][i := h0[n]] else h == h0[..n])
  {
    var n := |h0| - 1;
    var r := Swap(h0, i, n);
    assert r == r[..n] + [h0[i]];
    assert multiset(r) == multiset(r[..n]) + multiset{h0[i]};
  }

  lemma PrefixOrdered(h: Heap, n: nat)
    requires n <= |h|
    ensures OrderedFrom(h, 0) ==> OrderedFrom(h[..n], 0)
  {}

  method Restored(h0: Heap, i: nat) returns (h: Heap)
    requires i < |h0|
    ensures |h| == |h0| && multiset(h) == multiset(h0)
    ensures OrderedAround(h0, i) ==> OrderedFrom(h, 0)
  {
    hide OrderedFrom;
    hide OrderedBut;
    var moved;
    h, moved := Down(h0, i);
    if moved {
      ghost var c :| i < c < |h0| && IsChild(c, i) && LessThan(h0[c], h0[i]);
      if OrderedAround(h0, i) { AboveInOrder(h0, i, c); }
    } else {
      h := Up(h, i);
    }
  }
}
