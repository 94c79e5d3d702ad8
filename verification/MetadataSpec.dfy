/** The replicated metadata: streams, their partitions' leaders, epochs and in-sync
    replicas, and the stream directories on disk, under the operations of the Raft log.
    During recovery a deletion only leaves a tombstone and nothing is started. */
module MetadataSpec {
  import opened Wrappers
  import opened Collections

  datatype Error = NoPartitions | StreamExists | StreamNotFound | NoSuchPartition | NotReplica | StaleLeader

  /** A partition as it is persisted, its in-sync replicas a list. */
  datatype Proto = Proto(leader: string, leaderEpoch: nat, epoch: nat, replicas: set<string>, isr: seq<string>)

  /** `recovered`: not started until recovery finishes. */
  datatype Part = Part(leader: string, leaderEpoch: nat, epoch: nat,
                       replicas: set<string>, isr: set<string>, recovered: bool)

  datatype Stream = Stream(parts: map<int, Part>, tombstoned: bool)

  type Streams = map<string, Stream>

  /** `disk`: what each stream directory holds. */
  datatype Store = Store(streams: Streams, disk: map<string, string>)

  datatype Op =
    | Create(stream: string, protos: map<int, Proto>)
    | Delete(stream: string)
    | Shrink(stream: string, id: int, replica: string)
    | Expand(stream: string, id: int, replica: string)
    | ChangeLeader(stream: string, id: int, leader: string)

  datatype Entry = Entry(index: nat, op: Op)

  // ----- partitions -----

  /** Starting: a leader missing from its own in-sync replicas adds itself. */
  function Started(p: Part, self: string): Part {
    if p.leader == self then p.(isr := p.isr + {self}) else p
  }

  function SetLeader(p: Part, self: string, leader: string, epoch: nat): Result<Part, Error> {
    if epoch < p.leaderEpoch then Err(StaleLeader)
    else
      var q := p.(leader := leader, leaderEpoch := epoch);
      Ok(if q.recovered then q else Started(q, self))
  }

  function NewPart(proto: Proto, self: string, recovered: bool): Part {
    var p := Part(proto.leader, proto.leaderEpoch, proto.epoch, proto.replicas, ToSet(proto.isr), recovered);
    if recovered then p else Started(p, self)
  }

  /** An operation on one partition, at a later index than its epoch. */
  function Changed(p: Part, self: string, index: nat, op: Op): Result<Part, Error>
    requires op.Shrink? || op.Expand? || op.ChangeLeader?
  {
    match op
    case Shrink(_, _, replica) =>
      if replica !in p.replicas then Err(NotReplica) else Ok(p.(isr := p.isr - {replica}, epoch := index))
    case Expand(_, _, replica) =>
      if replica !in p.replicas then Err(NotReplica) else Ok(p.(isr := p.isr + {replica}, epoch := index))
    case ChangeLeader(_, _, leader) =>
      match SetLeader(p, self, leader, index) {
        case Ok(q) => Ok(q.(epoch := index))
        case Err(e) => Err(e)
      }
  }

  function NewParts(protos: map<int, Proto>, self: string, recovered: bool): map<int, Part> {
    map id | id in protos :: NewPart(protos[id], self, recovered)
  }

  // ----- the store -----

  function AddStream(s: Store, self: string, name: string, protos: map<int, Proto>,
                     recovered: bool): Result<Store, Error> {
    if protos == map[] then Err(NoPartitions)
    else if name in s.streams && !(recovered && s.streams[name].tombstoned) then Err(StreamExists)
    else
      Ok(Store(s.streams[name := Stream(NewParts(protos, self, recovered), false)],
               if name in s.disk then s.disk else s.disk[name := ""]))
  }

  function RemoveStream(s: Store, name: string, recovered: bool): Result<Store, Error> {
    if name !in s.streams then Err(StreamNotFound)
    else if recovered then Ok(s.(streams := s.streams[name := s.streams[name].(tombstoned := true)]))
    else Ok(Store(s.streams - {name}, s.disk - {name}))
  }

  /** Shrink, expand and change-leader do nothing at an index the partition has seen. */
  function UpdatePart(s: Store, self: string, index: nat, op: Op): Result<Store, Error>
    requires op.Shrink? || op.Expand? || op.ChangeLeader?
  {
    if op.stream !in s.streams || op.id !in s.streams[op.stream].parts then Err(NoSuchPartition)
    else
      var st := s.streams[op.stream];
      if st.parts[op.id].epoch >= index then Ok(s)
      else match Changed(st.parts[op.id], self, index, op)
        case Ok(p) => Ok(s.(streams := s.streams[op.stream := st.(parts := st.parts[op.id := p])]))
        case Err(e) => Err(e)
  }

  /** A create gives its partitions the index as both epochs. */
  function At(protos: map<int, Proto>, index: nat): map<int, Proto> {
    map id | id in protos :: protos[id].(leaderEpoch := index, epoch := index)
  }

  function Apply(s: Store, self: string, e: Entry, recovered: bool): Result<Store, Error> {
    match e.op
    case Create(name, protos) => AddStream(s, self, name, At(protos, e.index), recovered)
    case Delete(name) => RemoveStream(s, name, recovered)
    case _ => UpdatePart(s, self, e.index, e.op)
  }

  function Run(s: Store, self: string, entries: seq<Entry>, recovered: bool): Result<Store, Error> {
    if entries == [] then Ok(s)
    else match Run(s, self, entries[..|entries| - 1], recovered)
      case Ok(t) => Apply(t, self, entries[|entries| - 1], recovered)
      case Err(e) => Err(e)
  }

  function StartRecovered(p: Part, self: string): Part {
    if p.recovered then Started(p, self).(recovered := false) else p
  }

  function FinishedStream(s: Stream, self: string): Stream {
    Stream(map id | id in s.parts :: StartRecovered(s.parts[id], self), false)
  }

  /** The end of recovery: tombstoned streams go with their data, the others start. */
  function Finish(s: Store, self: string): Store {
    Store(map n | n in s.streams && !s.streams[n].tombstoned :: FinishedStream(s.streams[n], self),
          map n | n in s.disk && !(n in s.streams && s.streams[n].tombstoned) :: s.disk[n])
  }

  /** Recovery of the first `k` entries, then the rest as they are committed. */
  function Recover(s: Store, self: string, entries: seq<Entry>, k: nat): Result<Store, Error>
    requires k <= |entries|
  {
    match Run(s, self, entries[..k], true)
    case Ok(t) => Run(Finish(t, self), self, entries[k..], false)
    case Err(e) => Err(e)
  }

  /** A restarted server's streams as they would be had it kept running. */
  function LiveOf(s: Streams): Streams {
    map n | n in s && !s[n].tombstoned ::
      Stream(map id | id in s[n].parts :: s[n].parts[id].(recovered := false), false)
  }

  function Awake(s: Store): Store { s.(streams := LiveOf(s.streams)) }

  // ----- runs -----

  lemma {:induction false} RunSplit(s: Store, self: string, a: seq<Entry>, b: seq<Entry>, recovered: bool)
    ensures Run(s, self, a + b, recovered) ==
            match Run(s, self, a, recovered) { case Ok(t) => Run(t, self, b, recovered) case Err(e) => Err(e) }
  {
    if b == [] {
      assert a + b == a;
    } else {
      var n := |b| - 1;
      RunSplit(s, self, a, b[..n], recovered);
      assert (a + b)[..|a + b| - 1] == a + b[..n];
    }
  }

  /** Indexes of a Raft log, all behind `last`. */
  ghost predicate IndexesIncrease(entries: seq<Entry>, last: nat) {
    && (forall i :: 0 <= i < |entries| ==> entries[i].index > last)
    && (forall i, j :: 0 <= i < j < |entries| ==> entries[i].index < entries[j].index)
  }

  /** Leader epochs are at most partition epochs, and those at most the last index. */
  ghost predicate EpochsUpTo(s: Streams, last: nat) {
    forall n, id :: n in s && id in s[n].parts ==> s[n].parts[id].leaderEpoch <= s[n].parts[id].epoch <= last
  }

  lemma ApplyEpochs(s: Store, self: string, e: Entry, recovered: bool, last: nat)
    requires EpochsUpTo(s.streams, last) && last <= e.index && Apply(s, self, e, recovered).Ok?
    ensures EpochsUpTo(Apply(s, self, e, recovered).value.streams, e.index)
  {
    match e.op
    case Create(name, protos) =>
    case Delete(name) =>
    case Shrink(n, id, r) =>
    case Expand(n, id, r) =>
    case ChangeLeader(n, id, l) =>
  }

  function LastIndex(entries: seq<Entry>, last: nat): nat {
    if entries == [] then last else entries[|entries| - 1].index
  }

  lemma {:induction false} RunEpochs(s: Store, self: string, entries: seq<Entry>, recovered: bool, last: nat)
    requires EpochsUpTo(s.streams, last) && IndexesIncrease(entries, last) && Run(s, self, entries, recovered).Ok?
    ensures EpochsUpTo(Run(s, self, entries, recovered).value.streams, LastIndex(entries, last))
  {
    hide Apply;
    hide EpochsUpTo;
    if entries != [] {
      var n := |entries| - 1;
      RunEpochs(s, self, entries[..n], recovered, last);
      ApplyEpochs(Run(s, self, entries[..n], recovered).value, self, entries[n], recovered,
                  LastIndex(entries[..n], last));
    }
  }
}
