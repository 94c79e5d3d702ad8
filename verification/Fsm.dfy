/** The server's state machine over the Raft log, with its recovery fields and, beside
    each partition's in-sync replicas in memory, the list that is persisted. */
module Fsm {
  import opened Wrappers
  import opened MetadataSpec
  import opened MetadataLaws
  import opened Collections

  /** The entries in a Raft store: which indexes hold commands. */
  datatype RaftLog = RaftLog(first: nat, commands: set<nat>)

  /** The last command in the store up to index `i`. */
  function LastCommand(log: RaftLog, i: nat): (r: Option<nat>)
    ensures r.Some? ==> log.first <= r.value <= i && r.value in log.commands
    ensures forall j :: log.first <= j <= i && j in log.commands ==> r.Some? && j <= r.value
  {
    if i < log.first then None
    else if i in log.commands then Some(i)
    else if i == 0 then None
    else LastCommand(log, i - 1)
  }

  /** The entry recovery runs up to: none if the log is empty, or if the entry being
      applied is itself the last one committed. */
  function Latest(log: RaftLog, commit: nat, applying: nat): Option<nat> {
    if log.first == 0 || (applying == commit && log.first <= commit) then None else LastCommand(log, commit)
  }

  method RecoverLatestCommitted(log: RaftLog, commit: nat, applying: nat) returns (r: Option<nat>)
    ensures r == Latest(log, commit, applying)
    ensures r.Some? <==>
            && 0 < log.first <= commit && applying != commit
            && exists j :: log.first <= j <= commit && j in log.commands
    ensures r.Some? ==> log.first <= r.value <= commit && r.value in log.commands
    ensures forall j :: r.Some? && r.value < j <= commit ==> j !in log.commands
  {
    if log.first == 0 { return None; }
    var i: nat := commit;
    while i >= log.first
      invariant i <= commit && LastCommand(log, commit) == LastCommand(log, i)
      invariant i < commit ==> applying != commit
      decreases i
    {
      if i == applying && applying == commit { return None; }
      if i in log.commands { return Some(i); }
      i := i - 1;
    }
    return None;
  }

  lemma SameParts<V>(a: map<int, V>, b: map<int, V>)
    requires a.Keys == b.Keys && forall k :: k in a ==> a[k] == b[k]
    ensures a == b
  {
    assert forall k :: k in a.Keys ==> a[k] == b[k];
  }

  lemma ListedSet(s: Streams, lists: Lists, n: string, st: Stream, ls: map<int, seq<string>>)
    requires Listed(s, lists)
    requires ls.Keys == st.parts.Keys && forall id :: id in ls ==> ToSet(ls[id]) == st.parts[id].isr
    ensures Listed(s[n := st], lists[n := ls])
  {}

  lemma ListedNone()
    ensures Listed(map[], map[])
  {}

  class Server {
    const self: string
    var streams: Streams
    var lists: Lists
    var disk: map<string, string>
    var recoveryStarted: bool
    var latestRecovered: Option<nat>

    ghost predicate Valid() reads this { Listed(streams, lists) }

    ghost function State(): Node reads this { Node(Store(streams, disk), recoveryStarted, latestRecovered) }

    constructor (self: string, disk: map<string, string>)
      ensures Valid() && this.self == self && State() == Node(Store(map[], disk), false, None)
    {
      this.self, this.disk := self, disk;
      streams, lists, recoveryStarted, latestRecovered := map[], map[], false, None;
    }

    /** Writes the in-sync replicas out as a list, in whatever order the map gives. */
    method ListOf(isr: set<string>) returns (list: seq<string>)
      ensures ToSet(list) == isr && |list| == |isr|
    {
      list := [];
      var rest := isr;
      while rest != {}
        invariant rest <= isr && ToSet(list) == isr - rest && |list| + |rest| == |isr|
        decreases |rest|
      {
        var x :| x in rest;
        assert ToSet(list + [x]) == ToSet(list) + {x};
        list, rest := list + [x], rest - {x};
      }
    }

    /** Becoming leader or follower: a leader missing from its list is added to it. */
    method Start(p: Part, list: seq<string>) returns (q: Part, l: seq<string>)
      requires ToSet(list) == p.isr
      ensures q == Started(p, self) && ToSet(l) == q.isr
    {
      q, l := p, list;
      if p.leader == self {
        if self !in p.isr {
          q, l := p.(isr := p.isr + {self}), list + [self];
        } else {
          assert p.isr + {self} == p.isr;
        }
      }
    }

    method SetPart(n: string, id: int, p: Part, list: seq<string>)
      requires Valid() && n in streams && id in streams[n].parts && ToSet(list) == p.isr
      modifies `streams, `lists
      ensures Valid() && streams == old(streams)[n := old(streams)[n].(parts := old(streams)[n].parts[id := p])]
    {
      streams := streams[n := streams[n].(parts := streams[n].parts[id := p])];
      lists := lists[n := lists[n][id := list]];
    }

    /** A stream's partitions, each started unless recovered. */
    method NewParts(protos: map<int, Proto>, recovered: bool) returns (parts: map<int, Part>, ls: map<int, seq<string>>)
      ensures parts == map id | id in protos :: NewPart(protos[id], self, recovered)
      ensures ls.Keys == parts.Keys && forall id :: id in ls ==> ToSet(ls[id]) == parts[id].isr
    {
      parts, ls := map[], map[];
      var rest := protos.Keys;
      while rest != {}
        invariant rest <= protos.Keys
        invariant parts.Keys == protos.Keys - rest
        invariant forall id :: id in parts ==> parts[id] == NewPart(protos[id], self, recovered)
        invariant ls.Keys == parts.Keys && forall id :: id in ls ==> ToSet(ls[id]) == parts[id].isr
        decreases |rest|
      {
        var id := AnyOf(rest);
        var p, l := NewPart(protos[id], self, true).(recovered := recovered), protos[id].isr;
        if !recovered { p, l := Start(p, l); }
        parts, ls, rest := parts[id := p], ls[id := l], rest - {id};
      }
      SameParts(parts, map id | id in protos :: NewPart(protos[id], self, recovered));
    }

    /** Adds a stream, partition by partition; in recovery a tombstoned one is replaced
        and its data left alone. */
    method AddStream(name: string, protos: map<int, Proto>, recovered: bool) returns (r: Option<Error>)
      requires Valid()
      modifies `streams, `lists, `disk
      ensures var s := MetadataSpec.AddStream(old(State()).store, self, name, protos, recovered);
              && (r.None? <==> s.Ok?)
              && (r.None? ==> Valid() && State().store == s.value)
              && (r.Some? ==> r.value == s.error && State() == old(State()) && Valid())
    {
      hide Listed;
      if protos == map[] { return Some(NoPartitions); }
      if name in streams && !(recovered && streams[name].tombstoned) { return Some(StreamExists); }
      var parts, ls := NewParts(protos, recovered);
      ListedSet(streams, lists, name, Stream(parts, false), ls);
      streams, lists := streams[name := Stream(parts, false)], lists[name := ls];
      if name !in disk { disk := disk[name := ""]; }
      r := None;
    }

    /** Removes a stream and its data, or in recovery only marks it. */
    method RemoveStream(name: string, recovered: bool) returns (r: Option<Error>)
      requires Valid()
      modifies `streams, `lists, `disk
      ensures var s := MetadataSpec.RemoveStream(old(State()).store, name, recovered);
              && (r.None? <==> s.Ok?)
              && (r.None? ==> Valid() && State().store == s.value)
              && (r.Some? ==> r.value == s.error && State() == old(State()) && Valid())
    {
      if name !in streams { return Some(StreamNotFound); }
      if recovered {
        streams := streams[name := streams[name].(tombstoned := true)];
      } else {
        streams, lists, disk := streams - {name}, lists - {name}, disk - {name};
      }
      r := None;
    }

    /** Shrinks or expands a partition's in-sync replicas or changes its leader, unless
        the partition has seen the index. */
    method Update(index: nat, op: Op) returns (r: Option<Error>)
      requires Valid() && (op.Shrink? || op.Expand? || op.ChangeLeader?)
      modifies `streams, `lists
      ensures var s := UpdatePart(old(State()).store, self, index, op);
              && (r.None? <==> s.Ok?)
              && (r.None? ==> Valid() && State().store == s.value)
              && (r.Some? ==> r.value == s.error && State() == old(State()) && Valid())
    {
      hide ToSet;
      if op.stream !in streams || op.id !in streams[op.stream].parts { return Some(NoSuchPartition); }
      var p := streams[op.stream].parts[op.id];
      if p.epoch >= index { return None; }
      var list := lists[op.stream][op.id];
      match op {
      case Shrink(_, _, replica) =>
        if replica !in p.replicas { return Some(NotReplica); }
        p := p.(isr := p.isr - {replica});
        list := ListOf(p.isr);
      case Expand(_, _, replica) =>
        if replica !in p.replicas { return Some(NotReplica); }
        p := p.(isr := p.isr + {replica});
        list := ListOf(p.isr);
      case ChangeLeader(_, _, leader) =>
        if index < p.leaderEpoch { return Some(StaleLeader); }
        p := p.(leader := leader, leaderEpoch := index);
        if !p.recovered { p, list := Start(p, list); }
      }
      SetPart(op.stream, op.id, p.(epoch := index), list);
      r := None;
    }

    /** Ends recovery: tombstoned streams are deleted with their data, recovered
        partitions are started. */
    method FinishedRecovery()
      requires Valid()
      modifies `streams, `lists, `disk
      ensures Valid() && State().store == Finish(old(State()).store, self)
    {
      hide FinishedStream;
      hide Listed;
      ListedNone();
      var done: Streams, doneLists: Lists := map[], map[];
      var rest := streams.Keys;
      while rest != {}
        invariant Valid() && streams == old(streams) && lists == old(lists) && rest <= streams.Keys
        invariant Listed(done, doneLists)
        invariant forall n :: n in done <==> n in streams && n !in rest && !streams[n].tombstoned
        invariant forall n :: n in done ==> done[n] == FinishedStream(streams[n], self)
        invariant forall n :: n in disk <==> n in old(disk) && !(n in streams && n !in rest && streams[n].tombstoned)
        invariant forall n :: n in disk ==> disk[n] == old(disk)[n]
        decreases |rest|
      {
        var n := AnyOf(rest);
        rest := rest - {n};
        if streams[n].tombstoned {
          disk := disk - {n};
        } else {
          var st, ls := StartStream(n);
          ListedSet(done, doneLists, n, st, ls);
          done, doneLists := done[n := st], doneLists[n := ls];
        }
      }
      SameMap(done, Finish(old(State()).store, self).streams);
      SameMap(disk, Finish(old(State()).store, self).disk);
      streams, lists := done, doneLists;
    }

    /** Starts the recovered partitions of one stream. */
    method StartStream(n: string) returns (st: Stream, ls: map<int, seq<string>>)
      requires Valid() && n in streams
      ensures st == FinishedStream(streams[n], self)
      ensures ls.Keys == st.parts.Keys && forall id :: id in ls ==> ToSet(ls[id]) == st.parts[id].isr
    {
      var parts: map<int, Part> := map[];
      ls := map[];
      var rest := streams[n].parts.Keys;
      while rest != {}
        invariant rest <= streams[n].parts.Keys
        invariant parts.Keys == streams[n].parts.Keys - rest
        invariant forall id :: id in parts ==> parts[id] == StartRecovered(streams[n].parts[id], self)
        invariant ls.Keys == parts.Keys && forall id :: id in ls ==> ToSet(ls[id]) == parts[id].isr
        decreases |rest|
      {
        var id := AnyOf(rest);
        var p, l := streams[n].parts[id], lists[n][id];
        if p.recovered {
          p, l := Start(p, l);
          p := p.(recovered := false);
        }
        parts, ls, rest := parts[id := p], ls[id := l], rest - {id};
      }
      SameParts(parts, FinishedStream(streams[n], self).parts);
      st := Stream(parts, false);
    }

    method ApplyOp(e: Entry, recovered: bool) returns (r: Option<Error>)
      requires Valid()
      modifies `streams, `lists, `disk
      ensures var s := MetadataSpec.Apply(old(State()).store, self, e, recovered);
              && (r.None? <==> s.Ok?)
              && (r.None? ==> Valid() && State().store == s.value)
              && (r.Some? ==> r.value == s.error && State() == old(State()) && Valid())
    {
      match e.op
      case Create(name, protos) => r := AddStream(name, At(protos, e.index), recovered);
      case Delete(name) => r := RemoveStream(name, recovered);
      case _ => r := Update(e.index, e.op);
    }

    /** Applies one committed entry. */
    method Apply(e: Entry, log: RaftLog, commit: nat) returns (r: Option<Error>)
      requires Valid()
      modifies `streams, `lists, `disk, `recoveryStarted, `latestRecovered
      ensures Valid()
      ensures var s := Receive(old(State()), self, e, Latest(log, commit, e.index));
              (r.None? <==> s.Ok?) && (r.None? ==> State() == s.value) && (r.Some? ==> r.value == s.error)
    {
      if !recoveryStarted {
        latestRecovered := RecoverLatestCommitted(log, commit, e.index);
        recoveryStarted := true;
      }
      var target := latestRecovered;
      var recovered := target.Some? && e.index <= target.value;
      if target.Some? && e.index == target.value { latestRecovered := None; }
      r := ApplyOp(e, recovered);
      if r.Some? { return; }
      if target.Some? && e.index == target.value { FinishedRecovery(); }
    }

    /** Persists every stream with its partitions' lists. */
    method TakeSnapshot() returns (snap: map<string, map<int, Proto>>)
      requires Valid()
      ensures snap == Snapshot(streams, lists)
    {
      snap := map n | n in streams :: map id | id in streams[n].parts :: ProtoOf(streams[n].parts[id], lists[n][id]);
    }

    /** Drops everything and adds the snapshot's streams in recovery mode. */
    method Restore(snap: map<string, map<int, Proto>>) returns (r: Option<Error>)
      requires Valid()
      modifies `streams, `lists, `disk
      ensures Valid()
      ensures r.None? <==> forall n :: n in snap ==> snap[n] != map[]
      ensures r.None? ==> streams == Restored(snap, self)
      ensures forall n :: n in old(disk) ==> n in disk && disk[n] == old(disk)[n]
    {
      hide Listed;
      ListedNone();
      streams, lists := map[], map[];
      var rest := snap.Keys;
      while rest != {}
        invariant Valid() && rest <= snap.Keys
        invariant forall n :: n in streams <==> n in snap && n !in rest
        invariant forall n :: n in streams ==> snap[n] != map[] && streams[n] == Restored(snap, self)[n]
        invariant forall n :: n in old(disk) ==> n in disk && disk[n] == old(disk)[n]
        decreases |rest|
      {
        var n := AnyOf(rest);
        r := AddStream(n, snap[n], true);
        if r.Some? { return; }
        rest := rest - {n};
      }
      SameMap(streams, Restored(snap, self));
      r := None;
    }
  }

  /** One server's snapshot restored by another, or by itself after a restart: it succeeds
      exactly if every stream has a partition, and brings back every stream, waiting to be
      started, without its tombstone. */
  method Transfer(from: Server, to: Server) returns (r: Option<Error>)
    requires from.Valid() && to.Valid() && from != to
    modifies to`streams, to`lists, to`disk
    ensures to.Valid() && (r.None? <==> forall n :: n in from.streams ==> from.streams[n].parts != map[])
    ensures r.None? ==> to.streams.Keys == from.streams.Keys
    ensures r.None? ==>
              forall n :: n in from.streams ==> to.streams[n] == Suspended(from.streams[n]).(tombstoned := false)
  {
    hide Restored;
    hide Suspended;
    var snap := from.TakeSnapshot();
    SnapshotRestore(from.streams, from.lists, to.self);
    forall n | n in from.streams ensures snap[n] != map[] <==> from.streams[n].parts != map[] {
      assert snap[n].Keys == from.streams[n].parts.Keys;
      assert forall id :: id in snap[n] <==> id in from.streams[n].parts;
    }
    r := to.Restore(snap);
  }
}
