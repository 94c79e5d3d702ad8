/** Laws of the replicated metadata: what recovery does to data, what is idempotent, how
    epochs grow, and what a snapshot brings back. */
module MetadataLaws {
  import opened Wrappers
  import opened MetadataSpec
  import opened Collections

  // ----- data on disk -----

  lemma {:induction false} ReplayKeepsDisk(s: Store, self: string, entries: seq<Entry>, n: string)
    requires Run(s, self, entries, true).Ok? && n in s.disk
    ensures var t := Run(s, self, entries, true).value; n in t.disk && t.disk[n] == s.disk[n]
  {
    if entries != [] { ReplayKeepsDisk(s, self, entries[..|entries| - 1], n); }
  }

  /** Recovery takes data away exactly from streams left tombstoned. A stream live at
      its end keeps what it had, also when the log deleted and re-created it. */
  lemma RecoveryKeepsData(s: Store, self: string, entries: seq<Entry>, n: string)
    requires Run(s, self, entries, true).Ok? && n in s.disk
    ensures var t := Run(s, self, entries, true).value;
            var f := Finish(t, self);
            && (n in f.disk <==> !(n in t.streams && t.streams[n].tombstoned))
            && (n in f.disk ==> f.disk[n] == s.disk[n])
            && (n in f.streams ==> n in f.disk)
  {
    ReplayKeepsDisk(s, self, entries, n);
  }

  /** Replaying the same log live would lose the data of a re-created stream. */
  lemma LiveReplayLosesData(self: string, p: Proto, data: string)
    requires data != ""
    ensures var create := Create("s", map[0 := p]);
            var log := [Entry(1, create), Entry(2, Delete("s")), Entry(3, create)];
            var s := Store(map[], map["s" := data]);
            && Run(s, self, log, false).Ok? && Run(s, self, log, false).value.disk["s"] == ""
            && Run(s, self, log, true).Ok? && Finish(Run(s, self, log, true).value, self).disk == map["s" := data]
  {
    var create := Create("s", map[0 := p]);
    var a, b, c := Entry(1, create), Entry(2, Delete("s")), Entry(3, create);
    var s := Store(map[], map["s" := data]);
    Replayed(s, self, a, b, c, p, true);
    Replayed(s, self, a, b, c, p, false);
  }

  lemma Replayed(s: Store, self: string, a: Entry, b: Entry, c: Entry, p: Proto, recovered: bool)
    requires s.streams == map[] && s.disk.Keys == {"s"}
    requires a == Entry(1, Create("s", map[0 := p])) && b == Entry(2, Delete("s"))
    requires c == Entry(3, Create("s", map[0 := p]))
    ensures var r := Run(s, self, [a, b, c], recovered);
            && r.Ok? && r.value.streams.Keys == {"s"} && !r.value.streams["s"].tombstoned
            && r.value.disk == if recovered then s.disk else map["s" := ""]
  {
    assert 0 in At(map[0 := p], 1) && 0 in At(map[0 := p], 3);
    ThreeSteps(s, self, a, b, c, recovered);
  }

  lemma ThreeSteps(s: Store, self: string, a: Entry, b: Entry, c: Entry, recovered: bool)
    requires Apply(s, self, a, recovered).Ok? && Apply(Apply(s, self, a, recovered).value, self, b, recovered).Ok?
    ensures Run(s, self, [a, b, c], recovered) ==
            Apply(Apply(Apply(s, self, a, recovered).value, self, b, recovered).value, self, c, recovered)
  {
    hide Apply;
    assert [a, b, c] == ([a] + [b]) + [c];
    RunSplit(s, self, [a] + [b], [c], recovered);
    RunSplit(s, self, [a], [b], recovered);
    forall t, e ensures Run(t, self, [e], recovered) == Apply(t, self, e, recovered) {
      assert [e][..0] == [];
    }
  }

  // ----- why leaders must stay in sync -----

  function TwoReplicas(): Proto { Proto("a", 0, 0, {"a", "b"}, ["a", "b"]) }

  /** If a log shrinks the leader away, replaying it on that leader differs from having
      applied it live: the replay puts the leader back into its in-sync replicas. */
  lemma ShrunkLeaderDiverges()
    ensures var log := [Entry(1, Create("s", map[0 := TwoReplicas()])), Entry(2, Shrink("s", 0, "a"))];
            var live, replayed := Run(Store(map[], map[]), "a", log, false), Run(Store(map[], map[]), "a", log, true);
            && live.Ok? && Has(live.value, "s", 0) && live.value.streams["s"].parts[0].isr == {"b"}
            && replayed.Ok? && Has(Finish(replayed.value, "a"), "s", 0)
            && Finish(replayed.value, "a").streams["s"].parts[0].isr == {"a", "b"}
  {
    var a, b := Entry(1, Create("s", map[0 := TwoReplicas()])), Entry(2, Shrink("s", 0, "a"));
    forall recovered: bool
      ensures var r := Run(Store(map[], map[]), "a", [a, b], recovered);
              r.Ok? && Has(r.value, "s", 0) && !r.value.streams["s"].tombstoned
              && r.value.streams["s"].parts[0] == Part("a", 1, 2, {"a", "b"}, {"b"}, recovered)
    {
      ShrinkLeader(a, b, recovered);
    }
  }

  lemma ShrinkLeader(a: Entry, b: Entry, recovered: bool)
    requires a == Entry(1, Create("s", map[0 := TwoReplicas()])) && b == Entry(2, Shrink("s", 0, "a"))
    ensures var r := Run(Store(map[], map[]), "a", [a, b], recovered);
            r.Ok? && Has(r.value, "s", 0) && !r.value.streams["s"].tombstoned
            && r.value.streams["s"].parts[0] == Part("a", 1, 2, {"a", "b"}, {"b"}, recovered)
  {
    var s := Store(map[], map[]);
    assert 0 in At(map[0 := TwoReplicas()], 1);
    assert ToSet(["a", "b"]) == {"a", "b"};
    assert {"a", "b"} - {"a"} == {"b"};
    RunTwo(s, "a", a, b, recovered);
  }

  lemma RunTwo(s: Store, self: string, a: Entry, b: Entry, recovered: bool)
    requires Apply(s, self, a, recovered).Ok?
    ensures Run(s, self, [a, b], recovered) == Apply(Apply(s, self, a, recovered).value, self, b, recovered)
  {
    hide Apply;
    assert [a, b] == [a] + [b];
    RunSplit(s, self, [a], [b], recovered);
    assert [a][..0] == [] && [b][..0] == [];
  }

  // ----- idempotence -----

  ghost predicate PartitionOps(entries: seq<Entry>) {
    forall i :: 0 <= i < |entries| ==> entries[i].op.Shrink? || entries[i].op.Expand? || entries[i].op.ChangeLeader?
  }

  /** The entry's partition is there and has seen the entry's index. */
  ghost predicate Seen(s: Store, e: Entry)
    requires e.op.Shrink? || e.op.Expand? || e.op.ChangeLeader?
  {
    e.op.stream in s.streams && e.op.id in s.streams[e.op.stream].parts
      && e.index <= s.streams[e.op.stream].parts[e.op.id].epoch
  }

  lemma {:induction false} AllSeen(s: Store, self: string, entries: seq<Entry>, recovered: bool)
    requires PartitionOps(entries) && Run(s, self, entries, recovered).Ok?
    ensures forall i :: 0 <= i < |entries| ==> Seen(Run(s, self, entries, recovered).value, entries[i])
  {
    hide Apply;
    if entries != [] {
      var n := |entries| - 1;
      AllSeen(s, self, entries[..n], recovered);
      var t := Run(s, self, entries[..n], recovered).value;
      forall i | 0 <= i < n ensures Seen(Run(s, self, entries, recovered).value, entries[i]) {
        SeenStays(t, self, entries[n], recovered, entries[i]);
      }
      SeenOnce(t, self, entries[n], recovered);
    }
  }

  lemma SeenStays(s: Store, self: string, e: Entry, recovered: bool, seen: Entry)
    requires (e.op.Shrink? || e.op.Expand? || e.op.ChangeLeader?) && Apply(s, self, e, recovered).Ok?
    requires (seen.op.Shrink? || seen.op.Expand? || seen.op.ChangeLeader?) && Seen(s, seen)
    ensures Seen(Apply(s, self, e, recovered).value, seen)
  {}

  lemma SeenOnce(s: Store, self: string, e: Entry, recovered: bool)
    requires (e.op.Shrink? || e.op.Expand? || e.op.ChangeLeader?) && Apply(s, self, e, recovered).Ok?
    ensures Seen(Apply(s, self, e, recovered).value, e)
  {}

  lemma {:induction false} SeenAgain(s: Store, self: string, again: seq<Entry>, recovered: bool)
    requires PartitionOps(again) && forall i :: 0 <= i < |again| ==> Seen(s, again[i])
    ensures Run(s, self, again, recovered) == Ok(s)
  {
    if again != [] { SeenAgain(s, self, again[..|again| - 1], recovered); }
  }

  /** Re-applying entries of a run already applied, any of them in any order and in
      either mode, changes nothing. */
  lemma Reapplied(s: Store, self: string, entries: seq<Entry>, again: seq<Entry>, first: bool, second: bool)
    requires PartitionOps(entries) && Run(s, self, entries, first).Ok?
    requires forall i :: 0 <= i < |again| ==> again[i] in entries
    ensures Run(Run(s, self, entries, first).value, self, again, second) == Run(s, self, entries, first)
  {
    hide Seen;
    AllSeen(s, self, entries, first);
    SeenAgain(Run(s, self, entries, first).value, self, again, second);
  }

  // ----- epochs -----

  /** A partition's epochs only grow, across deletion and re-creation too. */
  lemma ApplyMonotone(s: Store, self: string, e: Entry, recovered: bool, last: nat, n: string, id: int)
    requires EpochsUpTo(s.streams, last) && last < e.index && Apply(s, self, e, recovered).Ok?
    requires Has(s, n, id) && Has(Apply(s, self, e, recovered).value, n, id)
    ensures var p, q := s.streams[n].parts[id], Apply(s, self, e, recovered).value.streams[n].parts[id];
            p.leaderEpoch <= q.leaderEpoch && p.epoch <= q.epoch
  {
  }

  ghost predicate Has(s: Store, n: string, id: int) { n in s.streams && id in s.streams[n].parts }

  lemma AppearsAt(s: Store, self: string, e: Entry, recovered: bool, n: string, id: int)
    requires Apply(s, self, e, recovered).Ok? && !Has(s, n, id) && Has(Apply(s, self, e, recovered).value, n, id)
    ensures var q := Apply(s, self, e, recovered).value.streams[n].parts[id];
            q.leaderEpoch == e.index && q.epoch == e.index
  {
  }

  /** Over any run, a partition's epochs never go back, even if the stream was deleted
      and re-created in between. */
  lemma {:induction false} EpochsGrow(s: Store, self: string, entries: seq<Entry>, i: nat, recovered: bool, last: nat,
                                      n: string, id: int)
    requires EpochsUpTo(s.streams, last) && IndexesIncrease(entries, last)
    requires i <= |entries| && Run(s, self, entries, recovered).Ok?
    ensures Run(s, self, entries[..i], recovered).Ok?
    ensures var a, b := Run(s, self, entries[..i], recovered).value, Run(s, self, entries, recovered).value;
            Has(a, n, id) && Has(b, n, id) ==>
              var p, q := a.streams[n].parts[id], b.streams[n].parts[id];
              p.leaderEpoch <= q.leaderEpoch && p.epoch <= q.epoch
  {
    hide Apply;
    if i == |entries| {
      assert entries[..i] == entries;
    } else {
      var m := |entries| - 1;
      assert entries[..m][..i] == entries[..i];
      EpochsGrow(s, self, entries[..m], i, recovered, last, n, id);
      var t, e := Run(s, self, entries[..m], recovered).value, entries[m];
      RunEpochs(s, self, entries[..m], recovered, last);
      if Has(t, n, id) {
        if Has(Run(s, self, entries, recovered).value, n, id) {
          ApplyMonotone(t, self, e, recovered, LastIndex(entries[..m], last), n, id);
        }
      } else if Has(Run(s, self, entries, recovered).value, n, id) {
        AppearsAt(t, self, e, recovered, n, id);
        RunEpochs(s, self, entries[..i], recovered, last);
      }
    }
  }

  // ----- replicas -----

  /** Leaders and in-sync replicas are replicas. */
  ghost predicate InReplicas(s: Store) {
    forall n, id :: Has(s, n, id) ==>
      s.streams[n].parts[id].isr <= s.streams[n].parts[id].replicas
        && s.streams[n].parts[id].leader in s.streams[n].parts[id].replicas
  }

  ghost predicate AmongReplicas(s: Store, op: Op) {
    match op
    case Create(_, protos) =>
      forall id :: id in protos ==>
        ToSet(protos[id].isr) <= protos[id].replicas && protos[id].leader in protos[id].replicas
    case ChangeLeader(n, id, leader) => Has(s, n, id) ==> leader in s.streams[n].parts[id].replicas
    case _ => true
  }

  /** An entry keeps leaders and in-sync replicas among the replicas if and only if it
      names replicas as it creates or changes a leader: shrink and expand check for
      themselves, the other two do not. */
  lemma ApplyInReplicas(s: Store, self: string, e: Entry, recovered: bool, last: nat)
    requires EpochsUpTo(s.streams, last) && last < e.index
    requires InReplicas(s) && Apply(s, self, e, recovered).Ok?
    ensures InReplicas(Apply(s, self, e, recovered).value) <==> AmongReplicas(s, e.op)
  {
    var t := Apply(s, self, e, recovered).value;
    if AmongReplicas(s, e.op) {
      forall n, id | Has(t, n, id)
        ensures t.streams[n].parts[id].isr <= t.streams[n].parts[id].replicas
        ensures t.streams[n].parts[id].leader in t.streams[n].parts[id].replicas
      {
        if !(e.op.Create? && e.op.stream == n) { assert Has(s, n, id); }
      }
    } else if e.op.Create? {
      forall id | id in e.op.protos ensures Has(t, e.op.stream, id) {}
    } else {
      assert Has(t, e.op.stream, e.op.id);
    }
  }

  // ----- snapshots -----

  type Lists = map<string, map<int, seq<string>>>

  /** The persisted list of in-sync replicas of each partition is the set in memory. */
  ghost predicate Listed(s: Streams, lists: Lists) {
    && s.Keys == lists.Keys
    && (forall n :: n in s ==> s[n].parts.Keys == lists[n].Keys)
    && (forall n, id :: n in s && id in s[n].parts ==> ToSet(lists[n][id]) == s[n].parts[id].isr)
  }

  function ProtoOf(p: Part, list: seq<string>): Proto { Proto(p.leader, p.leaderEpoch, p.epoch, p.replicas, list) }

  /** What a snapshot holds: every stream in the store, without the tombstone. */
  ghost function Snapshot(s: Streams, lists: Lists): map<string, map<int, Proto>>
    requires Listed(s, lists)
  {
    map n | n in s :: map id | id in s[n].parts :: ProtoOf(s[n].parts[id], lists[n][id])
  }

  /** Every stream of the snapshot added in recovery mode, in any order. */
  function Restored(snap: map<string, map<int, Proto>>, self: string): Streams {
    map n | n in snap :: Stream(map id | id in snap[n] :: NewPart(snap[n][id], self, true), false)
  }

  function Suspended(s: Stream): Stream {
    Stream(map id | id in s.parts :: s.parts[id].(recovered := true), s.tombstoned)
  }

  /** Snapshot, then restore: each stream comes back with its leaders, epochs, replicas
      and in-sync replicas, waiting to be started. The one thing lost is the tombstone,
      so the store is the same exactly when no stream had one. */
  lemma SnapshotRestore(s: Streams, lists: Lists, self: string)
    requires Listed(s, lists)
    ensures Restored(Snapshot(s, lists), self).Keys == s.Keys
    ensures forall n :: n in s ==> Restored(Snapshot(s, lists), self)[n] == Suspended(s[n]).(tombstoned := false)
    ensures Restored(Snapshot(s, lists), self) == (map n | n in s :: Suspended(s[n])) <==>
            forall n :: n in s ==> !s[n].tombstoned
  {
    var r := Restored(Snapshot(s, lists), self);
    forall n | n in s ensures r[n] == Suspended(s[n]).(tombstoned := false) {
      forall id | id in s[n].parts ensures r[n].parts[id] == s[n].parts[id].(recovered := true) {
        assert Snapshot(s, lists)[n][id] == ProtoOf(s[n].parts[id], lists[n][id]);
      }
      assert r[n].parts.Keys == s[n].parts.Keys;
      assert r[n].parts == Suspended(s[n]).parts;
    }
    var t := map n | n in s :: Suspended(s[n]);
    if r == t {
      forall n | n in s ensures !s[n].tombstoned { assert r[n] == t[n]; }
    }
  }

  // ----- a server applying the log -----

  /** `target`: the last entry that is replayed rather than newly committed. */
  datatype Node = Node(store: Store, started: bool, target: Option<nat>)

  /** One committed entry. At the first one the server learns `latest`, the last command
      committed before it started, if any. */
  function Receive(node: Node, self: string, e: Entry, latest: Option<nat>): Result<Node, Error> {
    var target := if node.started then node.target else latest;
    var recovered := target.Some? && e.index <= target.value;
    match Apply(node.store, self, e, recovered)
    case Err(x) => Err(x)
    case Ok(t) =>
      if target.Some? && e.index == target.value then Ok(Node(Finish(t, self), true, None))
      else Ok(Node(t, true, target))
  }

  function RunNode(node: Node, self: string, entries: seq<Entry>, latest: Option<nat>): Result<Node, Error> {
    if entries == [] then Ok(node)
    else match RunNode(node, self, entries[..|entries| - 1], latest)
      case Ok(t) => Receive(t, self, entries[|entries| - 1], latest)
      case Err(x) => Err(x)
  }

  ghost predicate AllOk(s: Store, self: string, entries: seq<Entry>, k: nat)
    requires k <= |entries|
  {
    && Run(s, self, entries[..k], true).Ok?
    && Run(Finish(Run(s, self, entries[..k], true).value, self), self, entries[k..], false).Ok?
  }

  lemma {:induction false} NodeReplays(s: Store, self: string, entries: seq<Entry>, target: nat)
    requires forall i :: 0 <= i < |entries| ==> entries[i].index < target
    requires Run(s, self, entries, true).Ok?
    ensures RunNode(Node(s, false, None), self, entries, Some(target)) ==
            Ok(Node(Run(s, self, entries, true).value, entries != [], if entries == [] then None else Some(target)))
  {
    hide Apply;
    hide Finish;
    if entries != [] { NodeReplays(s, self, entries[..|entries| - 1], target); }
  }

  lemma {:induction false} NodeGoesLive(s: Store, self: string, entries: seq<Entry>, latest: Option<nat>)
    requires Run(s, self, entries, false).Ok?
    ensures RunNode(Node(s, true, None), self, entries, latest) ==
            Ok(Node(Run(s, self, entries, false).value, true, None))
  {
    hide Apply;
    hide Finish;
    if entries != [] { NodeGoesLive(s, self, entries[..|entries| - 1], latest); }
  }

  lemma {:induction false} RunNodeSplit(node: Node, self: string, a: seq<Entry>, b: seq<Entry>, latest: Option<nat>)
    ensures RunNode(node, self, a + b, latest) ==
            match RunNode(node, self, a, latest) { case Ok(t) => RunNode(t, self, b, latest) case Err(x) => Err(x) }
  {
    hide Receive;
    if b == [] {
      assert a + b == a;
    } else {
      RunNodeSplit(node, self, a, b[..|b| - 1], latest);
      assert (a + b)[..|a + b| - 1] == a + b[..|b| - 1];
    }
  }

  /** A restarted server replays up to its target, finishes recovery there and goes on. */
  lemma NodeRecovers(s: Store, self: string, entries: seq<Entry>, k: nat, last: nat)
    requires k < |entries| && IndexesIncrease(entries, last) && AllOk(s, self, entries, k + 1)
    ensures Recover(s, self, entries, k + 1).Ok?
    ensures RunNode(Node(s, false, None), self, entries, Some(entries[k].index)) ==
            Ok(Node(Recover(s, self, entries, k + 1).value, true, None))
  {
    hide Apply;
    hide Finish;
    var target := entries[k].index;
    var node := Node(s, false, None);
    assert entries[..k + 1] == entries[..k] + [entries[k]];
    RunSplit(s, self, entries[..k], [entries[k]], true);
    NodeReplays(s, self, entries[..k], target);
    var t := RunNode(node, self, entries[..k], Some(target)).value;
    assert [entries[k]][..0] == [];
    assert Run(t.store, self, [entries[k]], true) == Apply(t.store, self, entries[k], true);
    RunNodeSplit(node, self, entries[..k], [entries[k]], Some(target));
    assert RunNode(t, self, [entries[k]], Some(target)) == Receive(t, self, entries[k], Some(target));
    NodeGoesLive(Finish(Run(s, self, entries[..k + 1], true).value, self), self, entries[k + 1..], Some(target));
    RunNodeSplit(node, self, entries[..k + 1], entries[k + 1..], Some(target));
    assert entries[..k + 1] + entries[k + 1..] == entries;
  }

  /** The entry the server replays up to is among those it gets. */
  ghost predicate Reached(entries: seq<Entry>, latest: Option<nat>) {
    latest.Some? && exists i :: 0 <= i < |entries| && entries[i].index == latest.value
  }

  /** A restored partition in a server that has got `entries`: it is started exactly if the
      target was among them. */
  ghost predicate Restarted(node: Node, entries: seq<Entry>, latest: Option<nat>, n: string, id: int) {
    && node.started == (entries != [])
    && node.target == (if entries == [] || Reached(entries, latest) then None else latest)
    && Has(node.store, n, id) && !node.store.streams[n].tombstoned
    && (node.store.streams[n].parts[id].recovered <==> !Reached(entries, latest))
  }

  lemma ApplyKeepsPart(s: Store, self: string, e: Entry, recovered: bool, n: string, id: int)
    requires Has(s, n, id) && !s.streams[n].tombstoned && !(e.op.Delete? && e.op.stream == n)
    requires Apply(s, self, e, recovered).Ok?
    ensures var t := Apply(s, self, e, recovered).value;
            && Has(t, n, id) && !t.streams[n].tombstoned
            && t.streams[n].parts[id].recovered == s.streams[n].parts[id].recovered
  {}

  lemma FinishStarts(s: Store, self: string, n: string, id: int)
    requires Has(s, n, id) && !s.streams[n].tombstoned
    ensures var t := Finish(s, self);
            Has(t, n, id) && !t.streams[n].tombstoned && !t.streams[n].parts[id].recovered
  {
    assert Finish(s, self).streams[n].parts[id] == StartRecovered(s.streams[n].parts[id], self);
  }

  lemma ReachedPush(entries: seq<Entry>, latest: Option<nat>)
    requires entries != []
    ensures var m := |entries| - 1;
            Reached(entries, latest) <==> Reached(entries[..m], latest) || latest == Some(entries[m].index)
  {
    var m := |entries| - 1;
    if Reached(entries[..m], latest) {
      var i :| 0 <= i < m && entries[..m][i].index == latest.value;
      assert entries[i].index == latest.value;
    }
  }

  /** A partition brought back by a snapshot, and not deleted, is started by the log if and
      only if there is an entry to replay up to and it comes. With nothing to replay there
      is no end of recovery, and a restored stream is never started. */
  lemma {:induction false} StartsIffReplayed(s: Store, self: string, entries: seq<Entry>, latest: Option<nat>,
                                             n: string, id: int)
    requires RunNode(Node(s, false, None), self, entries, latest).Ok?
    requires Has(s, n, id) && !s.streams[n].tombstoned && s.streams[n].parts[id].recovered
    requires forall i :: 0 <= i < |entries| ==> !(entries[i].op.Delete? && entries[i].op.stream == n)
    ensures Restarted(RunNode(Node(s, false, None), self, entries, latest).value, entries, latest, n, id)
  {
    hide Apply;
    hide Finish;
    hide Reached;
    if entries == [] {
      NoneReached(latest);
    } else {
      var m := |entries| - 1;
      StartsIffReplayed(s, self, entries[..m], latest, n, id);
      ReachedPush(entries, latest);
      var node, e := RunNode(Node(s, false, None), self, entries[..m], latest).value, entries[m];
      var target := if node.started then node.target else latest;
      var recovered := target.Some? && e.index <= target.value;
      if m == 0 { assert entries[..m] == []; NoneReached(latest); }
      ApplyKeepsPart(node.store, self, e, recovered, n, id);
      FinishStarts(Apply(node.store, self, e, recovered).value, self, n, id);
    }
  }

  lemma NoneReached(latest: Option<nat>)
    ensures !Reached([], latest)
  {}
}
