/** Consumer group assignment on values: what balancing means, independent of how the
    subscriber heaps happen to be laid out. */
module GroupSpec {
  import opened Collections

  // ----- the order of consumer and stream names -----

  predicate Less(a: string, b: string) {
    if b == [] then false
    else if a == [] then true
    else a[0] < b[0] || (a[0] == b[0] && Less(a[1..], b[1..]))
  }

  lemma {:induction false} LessIrreflexive(a: string)
    ensures !Less(a, a)
  {
    if a != [] { LessIrreflexive(a[1..]); }
  }

  lemma {:induction false} LessTransitive(a: string, b: string, c: string)
    requires Less(a, b) && Less(b, c)
    ensures Less(a, c)
  {
    if a != [] && a[0] == b[0] == c[0] { LessTransitive(a[1..], b[1..], c[1..]); }
  }

  lemma {:induction false} LessTotal(a: string, b: string)
    ensures a == b || Less(a, b) || Less(b, a)
  {
    if a != [] && b != [] && a[0] == b[0] {
      LessTotal(a[1..], b[1..]);
      assert a == [a[0]] + a[1..] && b == [b[0]] + b[1..];
    }
  }

  // ----- the state of a group -----

  /** A member: the streams it subscribes to, the partitions it holds, their number. */
  datatype Member = Member(streams: set<string>, held: map<string, seq<int>>, count: int) {
    function Of(stream: string): seq<int> {
      if stream in held then held[stream] else []
    }

    function Drop(stream: string): Member {
      Member(streams, held - {stream}, count - |Of(stream)|)
    }

    function Give(stream: string, partition: int): Member {
      Member(streams, held[stream := Of(stream) + [partition]], count + 1)
    }
  }

  type Members = map<string, Member>

  /** `subs` maps a stream to the members in its subscriber heap. */
  datatype Group = Group(members: Members, subs: map<string, set<string>>)

  /** Who comes first: fewest partitions, then the smaller id. */
  predicate Precedes(ms: Members, a: string, b: string)
    requires a in ms && b in ms
  {
    ms[a].count < ms[b].count || (ms[a].count == ms[b].count && Less(a, b))
  }

  ghost predicate IsNeediest(ms: Members, ids: set<string>, a: string) {
    a in ids && ids <= ms.Keys && forall b :: b in ids && b != a ==> Precedes(ms, a, b)
  }

  lemma PrecedesTransitive(ms: Members, a: string, b: string, c: string)
    requires a in ms && b in ms && c in ms && Precedes(ms, a, b) && Precedes(ms, b, c)
    ensures Precedes(ms, a, c)
  {
    if Less(a, b) && Less(b, c) { LessTransitive(a, b, c); }
  }

  lemma NeediestUnique(ms: Members, ids: set<string>, a: string, b: string)
    requires IsNeediest(ms, ids, a) && IsNeediest(ms, ids, b)
    ensures a == b
  {
    if a != b && Less(a, b) && Less(b, a) {
      LessTransitive(a, b, a);
      LessIrreflexive(a);
    }
  }

  lemma {:induction false} NeediestExists(ms: Members, ids: set<string>) returns (a: string)
    requires ids != {} && ids <= ms.Keys
    ensures IsNeediest(ms, ids, a)
    decreases |ids|
  {
    var x :| x in ids;
    var rest := ids - {x};
    if rest == {} {
      a := x;
      assert ids == {x};
    } else {
      var y := NeediestExists(ms, rest);
      LessTotal(x, y);
      a := if Precedes(ms, y, x) then y else x;
      forall b | b in ids && b != a ensures Precedes(ms, a, b) {
        if b != y && b != x && a == x { PrecedesTransitive(ms, x, y, b); }
      }
    }
  }

  ghost function Neediest(ms: Members, ids: set<string>): (a: string)
    requires ids != {} && ids <= ms.Keys
    ensures IsNeediest(ms, ids, a)
  {
    NeediestSome(ms, ids);
    var a :| IsNeediest(ms, ids, a);
    a
  }

  lemma NeediestSome(ms: Members, ids: set<string>)
    requires ids != {} && ids <= ms.Keys
    ensures exists a :: IsNeediest(ms, ids, a)
  {
    var a := NeediestExists(ms, ids);
  }

  // ----- balancing -----

  function DropAll(ms: Members, ids: set<string>, stream: string): Members {
    map id | id in ms :: if id in ids then ms[id].Drop(stream) else ms[id]
  }

  /** The reference: partitions 0..n-1 one after the other, each to the neediest. */
  ghost function AssignUpTo(ms: Members, ids: set<string>, stream: string, n: nat): (r: Members)
    requires ids != {} && ids <= ms.Keys
    ensures r.Keys == ms.Keys
  {
    if n == 0 then ms
    else
      var before := AssignUpTo(ms, ids, stream, n - 1);
      var a := Neediest(before, ids);
      before[a := before[a].Give(stream, n - 1)]
  }

  ghost function Balance(g: Group, stream: string, n: nat): (r: Group)
    requires Closed(g)
    ensures r.members.Keys == g.members.Keys && r.subs == g.subs
  {
    if stream !in g.subs || g.subs[stream] == {} then g
    else g.(members := AssignUpTo(DropAll(g.members, g.subs[stream], stream), g.subs[stream], stream, n))
  }

  /** Heaps hold members only. */
  ghost predicate Closed(g: Group) {
    forall s :: s in g.subs ==> g.subs[s] <= g.members.Keys
  }

  // ----- what balancing achieves -----

  /** The partitions of a stream, each held by exactly one of `ids` and listed once. */
  ghost predicate Partitioned(ms: Members, ids: set<string>, stream: string, n: nat)
    requires ids <= ms.Keys
  {
    && (forall id, p :: id in ids && p in ms[id].Of(stream) ==> 0 <= p < n)
    && (forall id, i, j :: id in ids && 0 <= i < j < |ms[id].Of(stream)| ==>
        ms[id].Of(stream)[i] < ms[id].Of(stream)[j])
    && (forall p :: 0 <= p < n ==> HasOwner(ms, ids, stream, p))
    && (forall a, b, p :: a in ids && b in ids && p in ms[a].Of(stream) && p in ms[b].Of(stream) ==> a == b)
  }

  ghost predicate HasOwner(ms: Members, ids: set<string>, stream: string, p: int)
    requires ids <= ms.Keys
  {
    exists id :: id in ids && p in ms[id].Of(stream)
  }

  /** Only the holdings on one stream of the given members changed. */
  ghost predicate ChangedOnly(ms: Members, ms': Members, ids: set<string>, stream: string) {
    && ms'.Keys == ms.Keys
    && (forall id :: id in ms && id !in ids ==> ms'[id] == ms[id])
    && (forall id :: id in ms ==> ms'[id].streams == ms[id].streams)
    && (forall id, s :: id in ms && s != stream ==> ms'[id].Of(s) == ms[id].Of(s))
    && (forall id, s :: id in ms && s != stream ==> (s in ms'[id].held <==> s in ms[id].held))
  }

  lemma GivePartitions(ms: Members, ids: set<string>, stream: string, n: nat, a: string)
    requires a in ids && ids <= ms.Keys && Partitioned(ms, ids, stream, n)
    ensures Partitioned(ms[a := ms[a].Give(stream, n)], ids, stream, n + 1)
  {
    var ms' := ms[a := ms[a].Give(stream, n)];
    var before, after := ms[a].Of(stream), ms'[a].Of(stream);
    assert after == before + [n];
    assert forall id :: id in ids && id != a ==> ms'[id] == ms[id];
    forall i | 0 <= i < |before| ensures 0 <= before[i] < n { assert before[i] in before; }
    assert forall p :: p in after <==> p in before || p == n;
    forall p | 0 <= p < n + 1 ensures HasOwner(ms', ids, stream, p) { GiveOwner(ms, ids, stream, n, a, p); }
    forall x, p | x in ids && x != a && p in ms'[x].Of(stream) ensures p !in after && 0 <= p < n {
      assert p in ms[x].Of(stream);
    }
  }

  lemma GiveOwner(ms: Members, ids: set<string>, stream: string, n: nat, a: string, p: int)
    requires a in ids && ids <= ms.Keys && (HasOwner(ms, ids, stream, p) || p == n)
    ensures HasOwner(ms[a := ms[a].Give(stream, n)], ids, stream, p)
  {
    var ms' := ms[a := ms[a].Give(stream, n)];
    assert ms'[a].Of(stream) == ms[a].Of(stream) + [n];
    if p == n {
      assert p in ms'[a].Of(stream);
    } else {
      var id :| id in ids && p in ms[id].Of(stream);
      assert p in ms'[id].Of(stream);
    }
  }

  lemma NothingPartitioned(ms: Members, ids: set<string>, stream: string)
    requires ids <= ms.Keys && forall id :: id in ids ==> ms[id].Of(stream) == []
    ensures Partitioned(ms, ids, stream, 0) && ChangedOnly(ms, ms, ids, stream)
  {
  }

  lemma NeediestMember(ms: Members, ids: set<string>)
    requires ids != {} && ids <= ms.Keys
    ensures Neediest(ms, ids) in ids
  {
  }

  lemma GiveChangedOnly(ms: Members, now: Members, ids: set<string>, stream: string, p: int, a: string)
    requires a in ids && a in ms && ChangedOnly(ms, now, ids, stream)
    ensures ChangedOnly(ms, now[a := now[a].Give(stream, p)], ids, stream)
  {
  }

  lemma {:induction false} AssignPartitions(ms: Members, ids: set<string>, stream: string, n: nat)
    requires ids != {} && ids <= ms.Keys && forall id :: id in ids ==> ms[id].Of(stream) == []
    ensures Partitioned(AssignUpTo(ms, ids, stream, n), ids, stream, n)
    ensures ChangedOnly(ms, AssignUpTo(ms, ids, stream, n), ids, stream)
  {
    hide Partitioned;
    hide ChangedOnly;
    hide IsNeediest;
    if n == 0 {
      NothingPartitioned(ms, ids, stream);
    } else {
      AssignPartitions(ms, ids, stream, n - 1);
      var before := AssignUpTo(ms, ids, stream, n - 1);
      assert IsNeediest(before, ids, Neediest(before, ids));
      NeediestMember(before, ids);
      GivePartitions(before, ids, stream, n - 1, Neediest(before, ids));
      GiveChangedOnly(ms, before, ids, stream, n - 1, Neediest(before, ids));
    }
  }

  /** After balancing, every partition of the stream has exactly one owner among its
      subscribers, and nothing else changed. */
  lemma BalancePartitions(g: Group, stream: string, n: nat)
    requires Closed(g) && stream in g.subs && g.subs[stream] != {}
    ensures Partitioned(Balance(g, stream, n).members, g.subs[stream], stream, n)
    ensures ChangedOnly(g.members, Balance(g, stream, n).members, g.subs[stream], stream)
  {
    var ids := g.subs[stream];
    var dropped := DropAll(g.members, ids, stream);
    AssignPartitions(dropped, ids, stream, n);
  }

  /** Fairness: a member that received one of the stream's partitions in the pass ends
      at most one above every other subscriber. */
  ghost predicate Fair(ms: Members, ids: set<string>, stream: string)
    requires ids <= ms.Keys
  {
    forall a, b :: a in ids && b in ids && ms[a].Of(stream) != [] ==> ms[a].count <= ms[b].count + 1
  }

  lemma GiveFair(ms: Members, ids: set<string>, stream: string, p: int, a: string)
    requires IsNeediest(ms, ids, a) && Fair(ms, ids, stream)
    ensures Fair(ms[a := ms[a].Give(stream, p)], ids, stream)
  {
    var ms' := ms[a := ms[a].Give(stream, p)];
    forall x, y | x in ids && y in ids && ms'[x].Of(stream) != [] ensures ms'[x].count <= ms'[y].count + 1 {
      if x == a && y != a { assert Precedes(ms, a, y); }
    }
  }

  lemma FairAtFirst(ms: Members, ids: set<string>, stream: string)
    requires ids <= ms.Keys && forall id :: id in ids ==> ms[id].Of(stream) == []
    ensures Fair(ms, ids, stream)
  {
  }

  lemma {:induction false} AssignFair(ms: Members, ids: set<string>, stream: string, n: nat)
    requires ids != {} && ids <= ms.Keys && forall id :: id in ids ==> ms[id].Of(stream) == []
    ensures Fair(AssignUpTo(ms, ids, stream, n), ids, stream)
  {
    hide Fair;
    hide IsNeediest;
    if n == 0 {
      FairAtFirst(ms, ids, stream);
    } else {
      AssignFair(ms, ids, stream, n - 1);
      var before := AssignUpTo(ms, ids, stream, n - 1);
      GiveFair(before, ids, stream, n - 1, Neediest(before, ids));
    }
  }

  lemma BalanceFair(g: Group, stream: string, n: nat)
    requires Closed(g) && stream in g.subs && g.subs[stream] != {}
    ensures Fair(Balance(g, stream, n).members, g.subs[stream], stream)
  {
    AssignFair(DropAll(g.members, g.subs[stream], stream), g.subs[stream], stream, n);
  }

  // ----- counting -----

  ghost function Total(held: map<string, seq<int>>): nat
    decreases |held|
  {
    if held == map[] then 0 else var k :| k in held; |held[k]| + Total(held - {k})
  }

  lemma {:induction false} TotalWithout(held: map<string, seq<int>>, k: string)
    requires k in held
    ensures Total(held) == |held[k]| + Total(held - {k})
    decreases |held|
  {
    var c :| c in held && Total(held) == |held[c]| + Total(held - {c});
    if c != k {
      TotalWithout(held - {c}, k);
      TotalWithout(held - {k}, c);
      assert held - {c} - {k} == held - {k} - {c};
    }
  }

  /** The stored count is the number of partitions held. */
  ghost predicate Counted(m: Member) { m.count == Total(m.held) }

  lemma DropCounted(m: Member, stream: string)
    requires Counted(m)
    ensures Counted(m.Drop(stream))
  {
    if stream in m.held { TotalWithout(m.held, stream); } else { assert m.held - {stream} == m.held; }
  }

  lemma GiveCounted(m: Member, stream: string, p: int)
    requires Counted(m)
    ensures Counted(m.Give(stream, p))
  {
    DropCounted(m, stream);
    var held' := m.Give(stream, p).held;
    TotalWithout(held', stream);
    assert held' - {stream} == m.held - {stream};
  }

  lemma {:induction false} AssignCounted(ms: Members, ids: set<string>, stream: string, n: nat, id: string)
    requires ids != {} && ids <= ms.Keys && id in ms && Counted(ms[id])
    ensures Counted(AssignUpTo(ms, ids, stream, n)[id])
  {
    if n > 0 {
      AssignCounted(ms, ids, stream, n - 1, id);
      GiveCounted(AssignUpTo(ms, ids, stream, n - 1)[id], stream, n - 1);
    }
  }

  lemma BalanceCounted(g: Group, stream: string, n: nat, id: string)
    requires Closed(g) && id in g.members && Counted(g.members[id])
    ensures Counted(Balance(g, stream, n).members[id])
  {
    if stream in g.subs && g.subs[stream] != {} {
      DropCounted(g.members[id], stream);
      AssignCounted(DropAll(g.members, g.subs[stream], stream), g.subs[stream], stream, n, id);
    }
  }

  // ----- the invariant of a group -----

  function PartitionsOf(parts: map<string, nat>, stream: string): nat {
    if stream in parts then parts[stream] else 0
  }

  /** What holds while member `id` joins or leaves: it is in the heaps of its streams
      except the `open` ones, and every stream but the `unbalanced` ones is partitioned
      among its subscribers. */
  ghost predicate Settled(parts: map<string, nat>, g: Group, id: string, open: set<string>, unbalanced: set<string>) {
    && Closed(g)
    && (forall x, s :: x in g.members ==>
          (s in g.members[x].streams && !(x == id && s in open) <==> s in g.subs && x in g.subs[s]))
    && (forall x, s :: x in g.members && s in g.members[x].held ==> s in g.members[x].streams)
    && (forall x :: x in g.members ==> Counted(g.members[x]))
    && (forall s :: s in g.subs && s !in unbalanced && g.subs[s] != {} ==>
          Partitioned(g.members, g.subs[s], s, PartitionsOf(parts, s)))
  }

  /** The invariant between operations. */
  ghost predicate Sound(parts: map<string, nat>, g: Group) { Settled(parts, g, "", {}, {}) }

  lemma SoundIsSettled(parts: map<string, nat>, g: Group, id: string)
    ensures Sound(parts, g) <==> Settled(parts, g, id, {}, {})
  {
  }

  lemma PartitionedSame(ms: Members, ms': Members, ids: set<string>, stream: string, n: nat)
    requires ids <= ms.Keys && ids <= ms'.Keys && Partitioned(ms, ids, stream, n)
    requires forall id :: id in ids ==> ms'[id].Of(stream) == ms[id].Of(stream)
    ensures Partitioned(ms', ids, stream, n)
  {
    forall p | 0 <= p < n ensures HasOwner(ms', ids, stream, p) {
      assert HasOwner(ms, ids, stream, p);
      var id :| id in ids && p in ms[id].Of(stream);
      assert p in ms'[id].Of(stream);
    }
  }

  lemma BalanceIdle(g: Group, stream: string, n: nat)
    requires Closed(g) && (stream !in g.subs || g.subs[stream] == {})
    ensures Balance(g, stream, n) == g
  {
  }

  /** Balancing a stream settles it and unsettles nothing. */
  lemma BalanceKeeps(parts: map<string, nat>, g: Group, id: string, open: set<string>, unbalanced: set<string>,
                     stream: string)
    requires Settled(parts, g, id, open, unbalanced + {stream})
    ensures Settled(parts, Balance(g, stream, PartitionsOf(parts, stream)), id, open, unbalanced - {stream})
  {
    hide Balance;
    hide Partitioned;
    hide Counted;
    var n := PartitionsOf(parts, stream);
    var g' := Balance(g, stream, n);
    if stream !in g.subs || g.subs[stream] == {} {
      BalanceIdle(g, stream, n);
    } else {
      BalancePartitions(g, stream, n);
      forall s | s in g'.subs && s !in unbalanced - {stream} && g'.subs[s] != {}
        ensures Partitioned(g'.members, g'.subs[s], s, PartitionsOf(parts, s))
      {
        if s != stream { PartitionedSame(g.members, g'.members, g.subs[s], s, PartitionsOf(parts, s)); }
      }
      forall x | x in g'.members ensures Counted(g'.members[x]) { BalanceCounted(g, stream, n, x); }
      forall x, s | x in g'.members && s in g'.members[x].held ensures s in g'.members[x].streams {
        if s == stream && x in g.subs[stream] { assert s in g.members[x].streams; }
      }
    }
  }

  // ----- streams in order -----

  ghost predicate IsLeast(s: set<string>, x: string) {
    x in s && forall y :: y in s && y != x ==> Less(x, y)
  }

  lemma LeastUnique(s: set<string>, x: string, y: string)
    requires IsLeast(s, x) && IsLeast(s, y)
    ensures x == y
  {
    if x != y {
      LessTransitive(x, y, x);
      LessIrreflexive(x);
    }
  }

  lemma {:induction false} LeastExists(s: set<string>)
    requires s != {}
    ensures exists x :: IsLeast(s, x)
    decreases |s|
  {
    var x :| x in s;
    if s == {x} {
      assert IsLeast(s, x);
    } else {
      LeastExists(s - {x});
      var y :| IsLeast(s - {x}, y);
      LessTotal(x, y);
      if Less(y, x) {
        assert IsLeast(s, y);
      } else {
        forall z | z in s && z != x ensures Less(x, z) {
          if z != y { LessTransitive(x, y, z); }
        }
        assert IsLeast(s, x);
      }
    }
  }

  /** A set of streams in sorted order. */
  ghost function InOrder(s: set<string>): seq<string>
    decreases |s|
  {
    if s == {} then []
    else
      LeastExists(s);
      var x :| IsLeast(s, x);
      [x] + InOrder(s - {x})
  }

  lemma {:induction false} InOrderIs(s: set<string>)
    ensures forall x :: x in InOrder(s) <==> x in s
    ensures forall i, j :: 0 <= i < j < |InOrder(s)| ==> InOrder(s)[i] != InOrder(s)[j]
    ensures forall i, j :: 0 <= i < j < |InOrder(s)| ==> Less(InOrder(s)[i], InOrder(s)[j])
    decreases |s|
  {
    if s != {} {
      LeastExists(s);
      var x :| IsLeast(s, x) && InOrder(s) == [x] + InOrder(s - {x});
      InOrderIs(s - {x});
      forall i, j | 0 <= i < j < |InOrder(s)| ensures Less(InOrder(s)[i], InOrder(s)[j]) {
        assert InOrder(s)[j] in InOrder(s - {x});
      }
      forall i, j | 0 <= i < j < |InOrder(s)| ensures InOrder(s)[i] != InOrder(s)[j] {
        LessIrreflexive(InOrder(s)[i]);
      }
    }
  }

  // ----- the operations -----

  /** Adds a member to the heap of one of its streams and balances the stream. */
  ghost function Subscribe(parts: map<string, nat>, g: Group, id: string, stream: string): Group
    requires Closed(g) && id in g.members
  {
    var subs := if stream in g.subs then g.subs[stream] else {};
    Balance(g.(subs := g.subs[stream := subs + {id}]), stream, PartitionsOf(parts, stream))
  }

  /** Takes a member out of a heap; balances only if it held something of the stream. */
  ghost function Unsubscribe(parts: map<string, nat>, g: Group, id: string, stream: string): Group
    requires Closed(g) && id in g.members
  {
    if stream !in g.subs then g
    else
      var h := g.(subs := g.subs[stream := g.subs[stream] - {id}]);
      if stream in g.members[id].held then Balance(h, stream, PartitionsOf(parts, stream)) else h
  }

  ghost function SubscribeAll(parts: map<string, nat>, g: Group, id: string, streams: seq<string>): (r: Group)
    requires Closed(g) && id in g.members
    ensures Closed(r) && r.members.Keys == g.members.Keys
  {
    if streams == [] then g
    else Subscribe(parts, SubscribeAll(parts, g, id, streams[..|streams| - 1]), id, streams[|streams| - 1])
  }

  ghost function UnsubscribeAll(parts: map<string, nat>, g: Group, id: string, streams: seq<string>): (r: Group)
    requires Closed(g) && id in g.members
    ensures Closed(r) && r.members.Keys == g.members.Keys
  {
    if streams == [] then g
    else Unsubscribe(parts, UnsubscribeAll(parts, g, id, streams[..|streams| - 1]), id, streams[|streams| - 1])
  }

  lemma SubscribeAllStep(parts: map<string, nat>, g: Group, id: string, streams: seq<string>, i: nat)
    requires Closed(g) && id in g.members && i < |streams|
    ensures SubscribeAll(parts, g, id, streams[..i + 1]) ==
            Subscribe(parts, SubscribeAll(parts, g, id, streams[..i]), id, streams[i])
    ensures SubscribeAll(parts, g, id, streams[..0]) == g && streams[..|streams|] == streams
  {
    assert streams[..i + 1][..i] == streams[..i];
  }

  lemma UnsubscribeAllStep(parts: map<string, nat>, g: Group, id: string, streams: seq<string>, i: nat)
    requires Closed(g) && id in g.members && i < |streams|
    ensures UnsubscribeAll(parts, g, id, streams[..i + 1]) ==
            Unsubscribe(parts, UnsubscribeAll(parts, g, id, streams[..i]), id, streams[i])
  {
    assert streams[..i + 1][..i] == streams[..i];
  }

  ghost function BalanceAll(parts: map<string, nat>, g: Group, streams: seq<string>): (r: Group)
    requires Closed(g)
    ensures Closed(r) && r.members.Keys == g.members.Keys && r.subs == g.subs
  {
    if streams == [] then g
    else
      var s := streams[|streams| - 1];
      Balance(BalanceAll(parts, g, streams[..|streams| - 1]), s, PartitionsOf(parts, s))
  }

  ghost function Join(parts: map<string, nat>, g: Group, id: string, streams: set<string>): Group
    requires Closed(g)
  {
    SubscribeAll(parts, g.(members := g.members[id := Member(streams, map[], 0)]), id, InOrder(streams))
  }

  ghost function Leave(parts: map<string, nat>, g: Group, id: string): Group
    requires Closed(g) && id in g.members
  {
    var h := UnsubscribeAll(parts, g, id, InOrder(g.members[id].streams));
    h.(members := h.members - {id})
  }

  function Forgotten(m: Member, stream: string): Member {
    m.Drop(stream).(streams := m.streams - {stream})
  }

  function ForgetIn(ms: Members, ids: set<string>, stream: string): Members {
    map x | x in ms :: if x in ids then Forgotten(ms[x], stream) else ms[x]
  }

  /** A deleted stream leaves its subscribers, whose other streams are rebalanced. */
  function Forget(g: Group, stream: string): Group
    requires stream in g.subs
  {
    Group(ForgetIn(g.members, g.subs[stream], stream), g.subs - {stream})
  }

  function Affected(ms: Members, ids: set<string>): set<string> {
    set x, s | x in ms && x in ids && s in ms[x].streams :: s
  }

  ghost function DeleteStream(parts: map<string, nat>, g: Group, stream: string): Group
    requires Closed(g)
  {
    if stream !in g.subs then g
    else
      var h := Forget(g, stream);
      BalanceAll(parts, h, InOrder(Affected(h.members, g.subs[stream])))
  }

  // ----- every operation keeps the invariant -----

  lemma SubscribeKeeps(parts: map<string, nat>, g: Group, id: string, open: set<string>, stream: string)
    requires Settled(parts, g, id, open, {}) && id in g.members && stream in open && stream in g.members[id].streams
    ensures Settled(parts, Subscribe(parts, g, id, stream), id, open - {stream}, {})
  {
    hide Settled;
    hide Balance;
    Subscribed(parts, g, id, open, stream);
    var h := g.(subs := g.subs[stream := (if stream in g.subs then g.subs[stream] else {}) + {id}]);
    BalanceKeeps(parts, h, id, open - {stream}, {}, stream);
    assert {} - {stream} == {};
  }

  lemma Subscribed(parts: map<string, nat>, g: Group, id: string, open: set<string>, stream: string)
    requires Settled(parts, g, id, open, {}) && id in g.members && stream in open && stream in g.members[id].streams
    ensures var subs := if stream in g.subs then g.subs[stream] else {};
            Settled(parts, g.(subs := g.subs[stream := subs + {id}]), id, open - {stream}, {} + {stream})
  {
    hide Partitioned;
    hide Counted;
  }

  lemma PartitionedWithout(ms: Members, ids: set<string>, id: string, stream: string, n: nat)
    requires ids <= ms.Keys && Partitioned(ms, ids, stream, n) && id in ids && ms[id].Of(stream) == []
    ensures Partitioned(ms, ids - {id}, stream, n)
  {
    forall p | 0 <= p < n ensures HasOwner(ms, ids - {id}, stream, p) {
      assert HasOwner(ms, ids, stream, p);
      var x :| x in ids && p in ms[x].Of(stream);
      assert x in ids - {id};
    }
  }

  lemma UnsubscribeKeeps(parts: map<string, nat>, g: Group, id: string, open: set<string>, stream: string)
    requires Settled(parts, g, id, open, {}) && id in g.members && stream !in open && stream in g.members[id].streams
    ensures Settled(parts, Unsubscribe(parts, g, id, stream), id, open + {stream}, {})
  {
    hide Partitioned;
    hide Balance;
    hide Counted;
    var h := g.(subs := g.subs[stream := g.subs[stream] - {id}]);
    assert Settled(parts, h, id, open + {stream}, {} + {stream});
    if stream in g.members[id].held {
      BalanceKeeps(parts, h, id, open + {stream}, {}, stream);
    } else {
      PartitionedWithout(g.members, g.subs[stream], id, stream, PartitionsOf(parts, stream));
    }
  }

  lemma {:induction false} SubscribeAllKeeps(parts: map<string, nat>, g: Group, id: string, streams: seq<string>)
    requires id in g.members && Settled(parts, g, id, g.members[id].streams, {})
    requires forall i :: 0 <= i < |streams| ==> streams[i] in g.members[id].streams
    requires forall i, j :: 0 <= i < j < |streams| ==> streams[i] != streams[j]
    ensures var r := SubscribeAll(parts, g, id, streams);
            && Settled(parts, r, id, g.members[id].streams - ToSet(streams), {})
            && r.members[id].streams == g.members[id].streams
  {
    var all := g.members[id].streams;
    if streams == [] {
      assert all - ToSet([]) == all;
    } else {
      var n := |streams| - 1;
      SubscribeAllKeeps(parts, g, id, streams[..n]);
      hide Settled;
      hide Balance;
      var h := SubscribeAll(parts, g, id, streams[..n]);
      SubscribeKeeps(parts, h, id, all - ToSet(streams[..n]), streams[n]);
      assert all - ToSet(streams[..n]) - {streams[n]} == all - ToSet(streams);
      StreamsKept(parts, h, id, streams[n], id);
    }
  }

  lemma StreamsKept(parts: map<string, nat>, g: Group, id: string, stream: string, x: string)
    requires Closed(g) && id in g.members && x in g.members
    ensures Subscribe(parts, g, id, stream).members[x].streams == g.members[x].streams
    ensures Unsubscribe(parts, g, id, stream).members[x].streams == g.members[x].streams
  {
    BalanceStreams(g, stream, PartitionsOf(parts, stream), x);
  }

  lemma BalanceStreams(g: Group, stream: string, n: nat, x: string)
    requires Closed(g) && x in g.members
    ensures forall h: Group :: h.members == g.members && Closed(h) ==>
              Balance(h, stream, n).members[x].streams == g.members[x].streams
  {
    forall h: Group | h.members == g.members && Closed(h)
      ensures Balance(h, stream, n).members[x].streams == g.members[x].streams
    {
      if stream in h.subs && h.subs[stream] != {} { BalancePartitions(h, stream, n); }
    }
  }

  lemma {:induction false} UnsubscribeAllKeeps(parts: map<string, nat>, g: Group, id: string, streams: seq<string>)
    requires Closed(g) && id in g.members && Settled(parts, g, id, {}, {})
    requires forall i :: 0 <= i < |streams| ==> streams[i] in g.members[id].streams
    requires forall i, j :: 0 <= i < j < |streams| ==> streams[i] != streams[j]
    ensures var r := UnsubscribeAll(parts, g, id, streams);
            Settled(parts, r, id, ToSet(streams), {}) && r.members[id].streams == g.members[id].streams
  {
    hide Settled;
    hide Balance;
    hide Unsubscribe;
    if streams == [] {
      assert ToSet(streams) == {};
    } else {
      var n := |streams| - 1;
      UnsubscribeAllKeeps(parts, g, id, streams[..n]);
      var h := UnsubscribeAll(parts, g, id, streams[..n]);
      UnsubscribeKeeps(parts, h, id, ToSet(streams[..n]), streams[n]);
      assert ToSet(streams[..n]) + {streams[n]} == ToSet(streams);
      StreamsKept(parts, h, id, streams[n], id);
    }
  }

  lemma JoinKeeps(parts: map<string, nat>, g: Group, id: string, streams: set<string>)
    requires Sound(parts, g) && id !in g.members
    ensures Sound(parts, Join(parts, g, id, streams))
  {
    hide Settled;
    hide Balance;
    hide InOrder;
    Entered(parts, g, id, streams);
    var h := g.(members := g.members[id := Member(streams, map[], 0)]);
    InOrderIs(streams);
    var order := InOrder(streams);
    forall i | 0 <= i < |order| ensures order[i] in streams { assert order[i] in order; }
    SubscribeAllKeeps(parts, h, id, order);
    assert streams - ToSet(order) == {};
    SoundIsSettled(parts, Join(parts, g, id, streams), id);
  }

  lemma Entered(parts: map<string, nat>, g: Group, id: string, streams: set<string>)
    requires Sound(parts, g) && id !in g.members
    ensures Closed(g) && Settled(parts, g.(members := g.members[id := Member(streams, map[], 0)]), id, streams, {})
  {
    hide Partitioned;
    var h := g.(members := g.members[id := Member(streams, map[], 0)]);
    forall s | s in h.subs && h.subs[s] != {}
      ensures Partitioned(h.members, h.subs[s], s, PartitionsOf(parts, s))
    {
      PartitionedSame(g.members, h.members, g.subs[s], s, PartitionsOf(parts, s));
    }
  }

  lemma LeaveKeeps(parts: map<string, nat>, g: Group, id: string)
    requires Sound(parts, g) && id in g.members
    ensures Sound(parts, Leave(parts, g, id))
  {
    hide Partitioned;
    hide Balance;
    var order, h := InOrder(g.members[id].streams), UnsubscribeAll(parts, g, id, InOrder(g.members[id].streams));
    SoundIsSettled(parts, g, id);
    InOrderIs(g.members[id].streams);
    forall i | 0 <= i < |order| ensures order[i] in g.members[id].streams { assert order[i] in order; }
    UnsubscribeAllKeeps(parts, g, id, order);
    assert ToSet(order) == h.members[id].streams;
    RemoveUnsubscribed(parts, h, id);
  }

  lemma RemoveUnsubscribed(parts: map<string, nat>, h: Group, id: string)
    requires id in h.members && Settled(parts, h, id, h.members[id].streams, {})
    ensures Sound(parts, h.(members := h.members - {id}))
  {
    hide Partitioned;
    hide Counted;
    var r := h.(members := h.members - {id});
    forall s | s in h.subs ensures id !in h.subs[s] {}
    forall s | s in r.subs && r.subs[s] != {}
      ensures Partitioned(r.members, r.subs[s], s, PartitionsOf(parts, s))
    {
      PartitionedSame(h.members, r.members, h.subs[s], s, PartitionsOf(parts, s));
    }
  }

  lemma ForgetKeeps(parts: map<string, nat>, g: Group, stream: string)
    requires Sound(parts, g) && stream in g.subs
    ensures Sound(parts, Forget(g, stream))
  {
    hide Partitioned;
    hide Counted;
    var r := Forget(g, stream);
    forall s | s in r.subs && r.subs[s] != {}
      ensures Partitioned(r.members, r.subs[s], s, PartitionsOf(parts, s))
    {
      PartitionedSame(g.members, r.members, g.subs[s], s, PartitionsOf(parts, s));
    }
    forall x | x in r.members ensures Counted(r.members[x]) {
      DropCounted(g.members[x], stream);
      CountedStreams(g.members[x].Drop(stream), g.members[x].streams - {stream});
    }
  }

  lemma CountedStreams(m: Member, streams: set<string>)
    ensures Counted(m) ==> Counted(m.(streams := streams))
  {
  }

  lemma {:induction false} BalanceAllKeeps(parts: map<string, nat>, g: Group, streams: seq<string>)
    requires Sound(parts, g)
    ensures Sound(parts, BalanceAll(parts, g, streams))
  {
    if streams != [] {
      var n := |streams| - 1;
      BalanceAllKeeps(parts, g, streams[..n]);
      var h := BalanceAll(parts, g, streams[..n]);
      assert Settled(parts, h, "", {}, {} + {streams[n]});
      BalanceKeeps(parts, h, "", {}, {}, streams[n]);
      assert {} - {streams[n]} == {};
    }
  }

  lemma DeleteKeeps(parts: map<string, nat>, g: Group, stream: string)
    requires Sound(parts, g)
    ensures Sound(parts, DeleteStream(parts, g, stream))
  {
    if stream in g.subs {
      ForgetKeeps(parts, g, stream);
      var h := Forget(g, stream);
      BalanceAllKeeps(parts, h, InOrder(Affected(h.members, g.subs[stream])));
    }
  }

  // ----- runs of a group -----

  datatype Op =
    | JoinOp(id: string, streams: set<string>, epoch: nat)
    | LeaveOp(id: string, epoch: nat)
    | DeleteOp(stream: string, epoch: nat)
    | CoordinatorOp(coordinator: string, epoch: nat)
    | CreateOp(stream: string, n: nat, epoch: nat)

  datatype State = State(g: Group, parts: map<string, nat>, coordinator: string, epoch: nat)

  /** One operation as the replicated log applies it. A stale epoch is an error; only a
      consumer that is not a member joins; the number of a stream's partitions is fixed
      while it has subscribers. */
  ghost function Apply(s: State, op: Op): State
    requires Closed(s.g)
  {
    if op.epoch < s.epoch then s
    else match op
      case JoinOp(id, streams, e) =>
        if id in s.g.members then s else s.(g := Join(s.parts, s.g, id, streams), epoch := e)
      case LeaveOp(id, e) =>
        if id !in s.g.members then s else s.(g := Leave(s.parts, s.g, id), epoch := e)
      case DeleteOp(stream, e) =>
        if stream !in s.g.subs then s else s.(g := DeleteStream(s.parts, s.g, stream), epoch := e)
      case CoordinatorOp(coordinator, e) => s.(coordinator := coordinator, epoch := e)
      case CreateOp(stream, n, e) =>
        if stream in s.g.subs && s.g.subs[stream] != {} then s else s.(parts := s.parts[stream := n])
  }

  ghost predicate Good(s: State) { Sound(s.parts, s.g) }

  lemma ApplyKeeps(s: State, op: Op)
    requires Good(s)
    ensures Good(Apply(s, op)) && Apply(s, op).epoch in {s.epoch, op.epoch} && s.epoch <= Apply(s, op).epoch
    ensures Apply(s, op).epoch == s.epoch && op.epoch > s.epoch ==> Apply(s, op).g == s.g
  {
    match op
    case JoinOp(id, streams, e) => if id !in s.g.members { JoinKeeps(s.parts, s.g, id, streams); }
    case LeaveOp(id, e) => if id in s.g.members { LeaveKeeps(s.parts, s.g, id); }
    case DeleteOp(stream, e) => DeleteKeeps(s.parts, s.g, stream);
    case CoordinatorOp(coordinator, e) =>
    case CreateOp(stream, n, e) =>
  }

  /** The state after a run. */
  ghost function After(s: State, ops: seq<Op>): (r: State)
    requires Good(s)
    ensures Good(r)
  {
    if ops == [] then s
    else
      var before := After(s, ops[..|ops| - 1]);
      ApplyKeeps(before, ops[|ops| - 1]);
      Apply(before, ops[|ops| - 1])
  }

  ghost predicate Unsubscribed(s: State) { s.g == Group(map[], map[]) }

  /** After any sequence of joins, leaves, stream deletions and coordinator changes:
      every partition of every stream with a subscriber belongs to exactly one of its
      subscribers, nobody holds anything of a stream they do not subscribe to, and each
      stored count is the number of partitions held. */
  lemma AssignmentsSound(s: State, ops: seq<Op>)
    requires Unsubscribed(s)
    ensures Good(s)
    ensures var z := After(s, ops);
            && (forall x :: x in z.g.members ==>
                  Counted(z.g.members[x]) && z.g.members[x].held.Keys <= z.g.members[x].streams)
            && (forall x, stream, p ::
                  x in z.g.members && stream in z.g.members[x].streams && 0 <= p < PartitionsOf(z.parts, stream) ==>
                    HasOneOwner(z.g, stream, p))
  {
    var z := After(s, ops);
    forall x, stream, p | x in z.g.members && stream in z.g.members[x].streams && 0 <= p < PartitionsOf(z.parts, stream)
      ensures HasOneOwner(z.g, stream, p)
    {
      OneOwner(z.parts, z.g, x, stream, p);
    }
  }

  ghost predicate Owns(g: Group, x: string, stream: string, p: int) {
    x in g.members && stream in g.members[x].streams && p in g.members[x].Of(stream)
  }

  ghost predicate HasOneOwner(g: Group, stream: string, p: int) {
    && (exists x :: Owns(g, x, stream, p))
    && (forall x, y :: Owns(g, x, stream, p) && y in g.members && p in g.members[y].Of(stream) ==> x == y)
  }

  lemma OneOwner(parts: map<string, nat>, g: Group, x: string, stream: string, p: int)
    requires Sound(parts, g) && x in g.members && stream in g.members[x].streams && 0 <= p < PartitionsOf(parts, stream)
    ensures HasOneOwner(g, stream, p)
  {
    var ids := g.subs[stream];
    assert x in ids && Partitioned(g.members, ids, stream, PartitionsOf(parts, stream));
    assert HasOwner(g.members, ids, stream, p);
    var y :| y in ids && p in g.members[y].Of(stream);
    assert Owns(g, y, stream, p);
    forall a, b | Owns(g, a, stream, p) && b in g.members && p in g.members[b].Of(stream) ensures a == b {
      assert stream in g.members[b].held;
      assert a in ids && b in ids;
    }
  }

  // ----- what a member is told -----

  /** The assignments handed out to a member that asks with the current epoch. */
  function Granted(s: State, server: string, id: string, epoch: nat): map<string, seq<int>> {
    if s.coordinator == server && epoch == s.epoch && id in s.g.members then s.g.members[id].held else map[]
  }

  /** A member that asks the coordinator with the current epoch is given the partition. */
  ghost predicate GrantedTo(s: State, server: string, id: string, stream: string, p: int) {
    var granted := Granted(s, server, id, s.epoch);
    stream in granted && p in granted[stream]
  }

  lemma HeldIsOwned(parts: map<string, nat>, g: Group, id: string, stream: string, p: int)
    requires Sound(parts, g) && id in g.members
    ensures Owns(g, id, stream, p) <==> stream in g.members[id].held && p in g.members[id].held[stream]
    ensures Owns(g, id, stream, p) ==> 0 <= p < PartitionsOf(parts, stream)
  {
    if stream in g.members[id].held {
      assert id in g.subs[stream];
      assert Partitioned(g.members, g.subs[stream], stream, PartitionsOf(parts, stream));
    }
  }

  lemma UnsubscribedGood(s: State)
    requires Unsubscribed(s)
    ensures Good(s)
  {}

  lemma OwnedIsHeld(parts: map<string, nat>, g: Group, id: string)
    requires Sound(parts, g) && id in g.members
    ensures forall stream, p ::
              Owns(g, id, stream, p) <==> stream in g.members[id].held && p in g.members[id].held[stream]
  {
    hide Sound;
    forall stream, p
      ensures Owns(g, id, stream, p) <==> stream in g.members[id].held && p in g.members[id].held[stream]
    {
      HeldIsOwned(parts, g, id, stream, p);
    }
  }

  /** After any operations, at the current epoch: every partition of a stream with a
      subscriber is given to exactly one member, and a member is given exactly what it
      owns. */
  lemma GrantsCover(s: State, ops: seq<Op>, stream: string, p: int)
    requires Unsubscribed(s)
    ensures Good(s)
    ensures var z := After(s, ops);
            && (0 <= p < PartitionsOf(z.parts, stream)
                && (exists x :: x in z.g.members && stream in z.g.members[x].streams)
                ==> exists y :: GrantedTo(z, z.coordinator, y, stream, p))
            && (forall y :: GrantedTo(z, z.coordinator, y, stream, p) <==> Owns(z.g, y, stream, p))
            && (forall y, y' :: GrantedTo(z, z.coordinator, y, stream, p) && GrantedTo(z, z.coordinator, y', stream, p)
                  ==> y == y')
  {
    UnsubscribedGood(s);
    var z := After(s, ops);
    hide After;
    hide Sound;
    forall y ensures GrantedTo(z, z.coordinator, y, stream, p) <==> Owns(z.g, y, stream, p) {
      if y in z.g.members { HeldIsOwned(z.parts, z.g, y, stream, p); }
    }
    forall y, y' | Owns(z.g, y, stream, p) && Owns(z.g, y', stream, p) ensures y == y' {
      OwnersEqual(z.parts, z.g, y, y', stream, p);
    }
    if x :| x in z.g.members && stream in z.g.members[x].streams && 0 <= p < PartitionsOf(z.parts, stream) {
      OneOwner(z.parts, z.g, x, stream, p);
      var y :| Owns(z.g, y, stream, p);
      assert GrantedTo(z, z.coordinator, y, stream, p);
    }
  }

  ghost predicate EpochsIncrease(s: State, ops: seq<Op>) {
    && (forall i :: 0 <= i < |ops| ==> ops[i].epoch > s.epoch)
    && (forall i, j :: 0 <= i < j < |ops| ==> ops[i].epoch < ops[j].epoch)
  }

  /** With strictly increasing epochs, the group at an epoch is one group. */
  lemma {:induction false} SameEpochSameGroup(s: State, ops: seq<Op>, i: nat, j: nat)
    requires Good(s) && EpochsIncrease(s, ops) && i <= j <= |ops|
    ensures After(s, ops[..i]).epoch <= After(s, ops[..j]).epoch
    ensures After(s, ops[..i]).epoch == After(s, ops[..j]).epoch ==> After(s, ops[..i]).g == After(s, ops[..j]).g
    ensures j < |ops| ==> After(s, ops[..j]).epoch < ops[j].epoch
  {
    if j > 0 {
      assert ops[..j][..j - 1] == ops[..j - 1];
      ApplyKeeps(After(s, ops[..j - 1]), ops[j - 1]);
      SameEpochSameGroup(s, ops, if i < j then i else j - 1, j - 1);
    }
  }

  /** Members given the same partition at the same epoch are the same member, even if
      they asked at different times. */
  lemma GrantsDisjoint(s: State, ops: seq<Op>, server: string, i: nat, j: nat, a: string, b: string, epoch: nat)
    requires Good(s) && EpochsIncrease(s, ops) && i <= j <= |ops|
    ensures var ha := Granted(After(s, ops[..i]), server, a, epoch);
            var hb := Granted(After(s, ops[..j]), server, b, epoch);
            forall stream, p :: stream in ha && stream in hb && p in ha[stream] && p in hb[stream] ==> a == b
  {
    hide Sound;
    hide After;
    SameEpochSameGroup(s, ops, i, j);
    var z := After(s, ops[..j]);
    var ha, hb := Granted(After(s, ops[..i]), server, a, epoch), Granted(z, server, b, epoch);
    forall stream, p | stream in ha && stream in hb && p in ha[stream] && p in hb[stream] ensures a == b {
      assert After(s, ops[..i]).g == z.g;
      OwnersEqual(z.parts, z.g, a, b, stream, p);
    }
  }

  lemma OwnersEqual(parts: map<string, nat>, g: Group, a: string, b: string, stream: string, p: int)
    requires Sound(parts, g) && a in g.members && b in g.members
    requires p in g.members[a].Of(stream) && p in g.members[b].Of(stream)
    ensures a == b
  {
    assert stream in g.members[a].held && stream in g.members[b].held;
    assert a in g.subs[stream] && b in g.subs[stream];
    assert Partitioned(g.members, g.subs[stream], stream, PartitionsOf(parts, stream));
  }
}
