/** What each operation of the Raft log does to the metadata, field by field, and what
    follows for leaders: an epoch has one leader. */
module LeaderEpochs {
  import opened Wrappers
  import opened Collections
  import opened MetadataSpec
  import opened MetadataLaws

  // ----- the operations -----

  /** Everything but one partition is as it was. */
  ghost predicate OthersSame(s: Store, t: Store, n: string, id: int) {
    && t.disk == s.disk && t.streams.Keys == s.streams.Keys
    && (forall m :: m in s.streams ==>
          t.streams[m].tombstoned == s.streams[m].tombstoned && t.streams[m].parts.Keys == s.streams[m].parts.Keys)
    && (forall m, i :: Has(s, m, i) && (m != n || i != id) ==> t.streams[m].parts[i] == s.streams[m].parts[i])
  }

  /** A change of leader at an index the partition has not seen: the named replica leads,
      and the index is both epochs. It fails exactly on a missing partition or one with a
      later leader epoch. */
  lemma LeaderChanged(s: Store, self: string, index: nat, n: string, id: int, leader: string, recovered: bool)
    ensures var r := Apply(s, self, Entry(index, ChangeLeader(n, id, leader)), recovered);
            && (r.Ok? <==> Has(s, n, id) &&
                           (s.streams[n].parts[id].epoch >= index || s.streams[n].parts[id].leaderEpoch <= index))
            && (r.Ok? ==> OthersSame(s, r.value, n, id) &&
                          var p, q := s.streams[n].parts[id], r.value.streams[n].parts[id];
                          if p.epoch >= index then q == p
                          else && q.leader == leader && q.leaderEpoch == index && q.epoch == index
                               && q.replicas == p.replicas && q.recovered == p.recovered
                               && (forall x :: x in q.isr <==> x in p.isr || (!p.recovered && x == leader == self)))
  {}

  /** A shrink takes exactly the named replica out of the ISR, an expand puts exactly it in;
      the leader and its epoch stay. Both fail exactly on a missing partition, or for a
      server that is no replica. */
  lemma ISRChanged(s: Store, self: string, index: nat, n: string, id: int, replica: string, expand: bool,
                   recovered: bool)
    ensures var op := if expand then Expand(n, id, replica) else Shrink(n, id, replica);
            var r := Apply(s, self, Entry(index, op), recovered);
            && (r.Ok? <==> Has(s, n, id) &&
                           (s.streams[n].parts[id].epoch >= index || replica in s.streams[n].parts[id].replicas))
            && (r.Ok? ==> OthersSame(s, r.value, n, id) &&
                          var p, q := s.streams[n].parts[id], r.value.streams[n].parts[id];
                          if p.epoch >= index then q == p
                          else && q.leader == p.leader && q.leaderEpoch == p.leaderEpoch && q.epoch == index
                               && q.replicas == p.replicas && q.recovered == p.recovered
                               && (replica in q.isr <==> expand)
                               && (forall x :: x != replica ==> (x in q.isr <==> x in p.isr)))
  {}

  /** A created stream has the partitions named, with the index as both epochs; a leader not
      in recovery is in sync. It fails exactly without partitions, or if the stream exists
      and is not one left tombstoned in recovery. */
  lemma StreamCreated(s: Store, self: string, index: nat, n: string, protos: map<int, Proto>, recovered: bool)
    ensures var r := Apply(s, self, Entry(index, Create(n, protos)), recovered);
            && (r.Ok? <==> protos != map[] && (n in s.streams ==> recovered && s.streams[n].tombstoned))
            && (r.Ok? ==> var t := r.value;
                          && t.streams.Keys == s.streams.Keys + {n} && t.streams[n].parts.Keys == protos.Keys
                          && !t.streams[n].tombstoned
                          && (forall m :: m in s.streams && m != n ==> t.streams[m] == s.streams[m])
                          && (forall m :: m in s.disk ==> m in t.disk && t.disk[m] == s.disk[m])
                          && t.disk.Keys == s.disk.Keys + {n} && (n !in s.disk ==> t.disk[n] == ""))
  {
    hide At;
    hide NewPart;
    AtKeys(protos, index);
  }

  lemma EmptyTogether<K, V>(a: map<K, V>, b: map<K, V>)
    requires a.Keys == b.Keys
    ensures a == map[] <==> b == map[]
  {
    assert |a| == |a.Keys| && |b| == |b.Keys|;
  }

  lemma AtKeys(protos: map<int, Proto>, index: nat)
    ensures At(protos, index).Keys == protos.Keys && (At(protos, index) == map[] <==> protos == map[])
  {
    EmptyTogether(At(protos, index), protos);
  }

  lemma PartitionCreated(s: Store, self: string, index: nat, n: string, protos: map<int, Proto>, recovered: bool,
                         id: int)
    requires Apply(s, self, Entry(index, Create(n, protos)), recovered).Ok? && id in protos
    ensures var t := Apply(s, self, Entry(index, Create(n, protos)), recovered).value;
            && Has(t, n, id)
            && var q := t.streams[n].parts[id];
               && q.leader == protos[id].leader && q.leaderEpoch == index && q.epoch == index
               && q.replicas == protos[id].replicas && q.recovered == recovered
               && (forall x :: x in q.isr <==> x in protos[id].isr || (!recovered && x == q.leader == self))
  {}

  /** A deleted stream is gone with its data, or in recovery stays with a tombstone. */
  lemma StreamDeleted(s: Store, self: string, index: nat, n: string, recovered: bool)
    ensures var r := Apply(s, self, Entry(index, Delete(n)), recovered);
            && (r.Ok? <==> n in s.streams)
            && (r.Ok? ==> var t := r.value;
                          && (forall m :: m != n ==> (m in t.streams <==> m in s.streams))
                          && (forall m :: m != n ==> (m in t.disk <==> m in s.disk))
                          && (forall m :: m in s.streams && m != n ==> t.streams[m] == s.streams[m])
                          && (forall m :: m in s.disk && m != n ==> t.disk[m] == s.disk[m])
                          && (if recovered then n in t.streams && t.streams[n].tombstoned
                                                && t.streams[n].parts == s.streams[n].parts && t.disk == s.disk
                              else n !in t.streams && n !in t.disk))
  {}

  // ----- one leader for an epoch -----

  /** The entry makes `leader` the leader of the partition. */
  ghost predicate Names(e: Entry, n: string, id: int, leader: string) {
    match e.op
    case Create(m, protos) => m == n && id in protos && protos[id].leader == leader
    case ChangeLeader(m, i, l) => m == n && i == id && l == leader
    case _ => false
  }

  /** The leader is the one of the start, or the one named by the entry whose index is the
      leader epoch. */
  ghost predicate Led(s: Store, entries: seq<Entry>, last: nat, n: string, id: int, p: Part) {
    || (p.leaderEpoch <= last && Has(s, n, id) &&
        p.leader == s.streams[n].parts[id].leader && p.leaderEpoch == s.streams[n].parts[id].leaderEpoch)
    || (exists k :: 0 <= k < |entries| && entries[k].index == p.leaderEpoch && Names(entries[k], n, id, p.leader))
  }

  lemma NamesNew(s: Store, self: string, e: Entry, recovered: bool, n: string, id: int)
    requires Apply(s, self, e, recovered).Ok? && Has(Apply(s, self, e, recovered).value, n, id)
    ensures var q := Apply(s, self, e, recovered).value.streams[n].parts[id];
            (e.index == q.leaderEpoch && Names(e, n, id, q.leader)) ||
            (Has(s, n, id) && q.leader == s.streams[n].parts[id].leader
             && q.leaderEpoch == s.streams[n].parts[id].leaderEpoch)
  {
    hide Apply;
    match e.op
    case Create(m, protos) =>
      StreamCreated(s, self, e.index, m, protos, recovered);
      if m == n { PartitionCreated(s, self, e.index, m, protos, recovered, id); }
    case Delete(m) => StreamDeleted(s, self, e.index, m, recovered);
    case Shrink(m, i, r) => ISRChanged(s, self, e.index, m, i, r, false, recovered);
    case Expand(m, i, r) => ISRChanged(s, self, e.index, m, i, r, true, recovered);
    case ChangeLeader(m, i, l) => LeaderChanged(s, self, e.index, m, i, l, recovered);
  }

  lemma {:induction false} LedByNamed(s: Store, self: string, entries: seq<Entry>, recovered: bool, last: nat,
                                      n: string, id: int)
    requires EpochsUpTo(s.streams, last) && Run(s, self, entries, recovered).Ok?
    requires Has(Run(s, self, entries, recovered).value, n, id)
    ensures Led(s, entries, last, n, id, Run(s, self, entries, recovered).value.streams[n].parts[id])
  {
    hide Apply;
    hide Names;
    if entries != [] {
      var m := |entries| - 1;
      var t := Run(s, self, entries[..m], recovered).value;
      var q := Run(s, self, entries, recovered).value.streams[n].parts[id];
      NamesNew(t, self, entries[m], recovered, n, id);
      if !(entries[m].index == q.leaderEpoch && Names(entries[m], n, id, q.leader)) {
        LedByNamed(s, self, entries[..m], recovered, last, n, id);
        assert forall k :: 0 <= k < m ==> entries[..m][k] == entries[k];
      }
    }
  }

  /** Two servers that have applied any two parts of one log, live or in recovery, and know
      the same leader epoch of a partition know the same leader. */
  lemma OneLeaderPerEpoch(s: Store, entries: seq<Entry>, last: nat, a: string, i: nat, ra: bool,
                          b: string, j: nat, rb: bool, n: string, id: int)
    requires EpochsUpTo(s.streams, last) && IndexesIncrease(entries, last) && i <= |entries| && j <= |entries|
    requires Run(s, a, entries[..i], ra).Ok? && Run(s, b, entries[..j], rb).Ok?
    requires Has(Run(s, a, entries[..i], ra).value, n, id) && Has(Run(s, b, entries[..j], rb).value, n, id)
    ensures var p, q := Run(s, a, entries[..i], ra).value.streams[n].parts[id],
                        Run(s, b, entries[..j], rb).value.streams[n].parts[id];
            p.leaderEpoch == q.leaderEpoch ==> p.leader == q.leader
  {
    hide Run;
    LedByNamed(s, a, entries[..i], ra, last, n, id);
    LedByNamed(s, b, entries[..j], rb, last, n, id);
    assert forall k :: 0 <= k < i ==> entries[..i][k] == entries[k];
    assert forall k :: 0 <= k < j ==> entries[..j][k] == entries[k];
  }
}
