/** One leader epoch of a partition: a leader, its followers, and a network that may
    lose, delay, reorder and duplicate every fetch and every response. Logs are
    gap-free and start at offset 0. */
module Replication {
  import opened Wrappers
  import opened Collections
  import opened Messages
  import opened EpochCache
  import opened CommitLogs
  import opened EpochTruncation

  type Id = string

  datatype AckPolicy = LEADER | ALL | NONE

  datatype Draft = Draft(msg: Input, policy: AckPolicy)

  /** An entry of the commit queue: a message whose acknowledgement waits for the ISR. */
  datatype Pending = Pending(offset: int, policy: AckPolicy)

  datatype Config = Config(self: Id, followers: set<Id>, minISR: int, epoch: Epoch, replicationFactor: nat)

  /** `acked` lists the offsets acknowledged under policy ALL, in the order sent. */
  datatype Leader = Leader(log: Log, hw: int, isr: map<Id, int>, queue: seq<Pending>, acked: seq<int>)

  datatype Follower = Follower(log: Log, hw: int)

  datatype Request = Request(replica: Id, offset: int, epoch: Epoch)

  datatype Response = Response(to: Id, epoch: Epoch, hw: int, msgs: Log)

  /** What the commit loop read under the lock before it commits. */
  datatype Snapshot = Snapshot(isr: map<Id, int>, minLatest: int)

  /** The sets hold everything ever sent: a message may be delivered any number of
      times, at any time, or never. */
  datatype Cluster = Cluster(leader: Leader, followers: map<Id, Follower>, requests: set<Request>,
                             responses: set<Response>, snapshot: Option<Snapshot>)

  // ----- what the code does -----

  function Newest(log: Log): int { |log| - 1 }

  /** Replica offsets only grow, and only for members of the ISR. */
  function UpdateLatest(isr: map<Id, int>, replica: Id, offset: int): map<Id, int> {
    if replica in isr && offset > isr[replica] then isr[replica := offset] else isr
  }

  function Inputs(batch: seq<Draft>): (r: seq<Input>)
    ensures |r| == |batch|
  {
    seq(|batch|, i requires 0 <= i < |batch| => batch[i].msg)
  }

  /** With a replication factor of 1 only ALL messages go through the queue. */
  function Enqueue(c: Config, queue: seq<Pending>, batch: seq<Draft>, base: int): seq<Pending> {
    if batch == [] then queue
    else
      var last := |batch| - 1;
      var q := Enqueue(c, queue, batch[..last], base);
      if c.replicationFactor == 1 && batch[last].policy != ALL then q
      else q + [Pending(base + last, batch[last].policy)]
  }

  predicate FastPath(c: Config, batch: seq<Draft>) {
    c.replicationFactor == 1 && forall i :: 0 <= i < |batch| ==> batch[i].policy != ALL
  }

  function Publish(c: Config, l: Leader, batch: seq<Draft>): Leader {
    var log := l.log + Stamp(Inputs(batch), |l.log|);
    l.(log := log,
       queue := Enqueue(c, l.queue, batch, |l.log|),
       hw := if FastPath(c, batch) then Max(l.hw, Newest(log)) else l.hw,
       isr := UpdateLatest(l.isr, c.self, Newest(log)))
  }

  /** The prefix of the queue the commit takes off. */
  function Committable(queue: seq<Pending>, minLatest: int): nat {
    if queue == [] || queue[0].offset > minLatest then 0 else 1 + Committable(queue[1..], minLatest)
  }

  function AcksOf(committed: seq<Pending>): seq<int> {
    if committed == [] then []
    else
      var last := |committed| - 1;
      AcksOf(committed[..last]) + (if committed[last].policy == ALL then [committed[last].offset] else [])
  }

  function Commit(l: Leader, minLatest: int): Leader {
    var n := Committable(l.queue, minLatest);
    CommittableBound(l.queue, minLatest);
    l.(hw := Max(l.hw, minLatest), queue := l.queue[n..], acked := l.acked + AcksOf(l.queue[..n]))
  }

  /** The minimum of the replica offsets; 0 for an empty ISR, as the source computes it. */
  ghost predicate IsMinLatest(isr: map<Id, int>, m: int) {
    if isr == map[] then m == 0
    else (exists r :: r in isr && isr[r] == m) && forall r :: r in isr ==> m <= isr[r]
  }

  /** A response appended only when it starts at or behind the log end. */
  function Receive(f: Follower, hw: int, msgs: Log): Follower {
    var g := f.(hw := Max(f.hw, hw));
    if msgs == [] || msgs[0].offset < Newest(f.log) + 1 then g else g.(log := f.log + msgs)
  }

  datatype Step =
    | PublishBatch(batch: seq<Draft>)
    | Fetch(replica: Id)
    | Serve(request: Request, count: nat)
    | Deliver(response: Response)
    | ReadISR(minLatest: int)
    | CommitISR
    | ShrinkISR(replica: Id)
    | ExpandISR(replica: Id)

  /** The batch sent for a fetch from `offset`: some of the messages behind it, none
      when the follower is caught up. */
  function Batch(log: Log, offset: int, count: nat): Log {
    if -1 <= offset < Newest(log) && offset + 1 + count <= |log| then log[offset + 1..offset + 1 + count] else []
  }

  predicate Accepted(c: Config, request: Request) {
    (request.epoch == 0 || request.epoch == c.epoch) && request.replica in c.followers
  }

  /** One atomic step; a step that is not enabled changes nothing. */
  ghost function Apply(c: Config, s: Cluster, step: Step): Cluster {
    match step
    case PublishBatch(batch) =>
      if batch != [] && (forall i :: 0 <= i < |batch| ==> batch[i].msg.leaderEpoch == c.epoch)
      then s.(leader := Publish(c, s.leader, batch)) else s
    case Fetch(r) =>
      if r in s.followers
      then s.(requests := s.requests + {Request(r, Newest(s.followers[r].log), c.epoch)}) else s
    case Serve(request, count) =>
      if request in s.requests && Accepted(c, request)
      then s.(leader := s.leader.(isr := UpdateLatest(s.leader.isr, request.replica, request.offset)),
              responses := s.responses + {Response(request.replica, c.epoch, s.leader.hw,
                                                   Batch(s.leader.log, request.offset, count))})
      else s
    case Deliver(response) =>
      if response in s.responses && response.to in s.followers && response.epoch == c.epoch
      then s.(followers := s.followers[response.to := Receive(s.followers[response.to], response.hw, response.msgs)])
      else s
    case ReadISR(m) =>
      if |s.leader.isr| >= c.minISR && IsMinLatest(s.leader.isr, m)
      then s.(snapshot := Some(Snapshot(s.leader.isr, m))) else s
    case CommitISR =>
      if s.snapshot.Some? then s.(leader := Commit(s.leader, s.snapshot.value.minLatest), snapshot := None) else s
    case ShrinkISR(r) =>
      if r in c.followers + {c.self} then s.(leader := s.leader.(isr := s.leader.isr - {r})) else s
    case ExpandISR(r) =>
      if r in c.followers + {c.self} then s.(leader := s.leader.(isr := s.leader.isr[r := -1])) else s
  }

  ghost function Run(c: Config, s: Cluster, steps: seq<Step>): Cluster {
    if steps == [] then s else Apply(c, Run(c, s, steps[..|steps| - 1]), steps[|steps| - 1])
  }

  // ----- the invariant -----

  function LogOf(c: Config, s: Cluster, r: Id): Log {
    if r == c.self then s.leader.log else if r in s.followers then s.followers[r].log else []
  }

  ghost predicate Rising(offsets: seq<int>) {
    forall i, j :: 0 <= i < j < |offsets| ==> offsets[i] < offsets[j]
  }

  ghost predicate RequestOk(s: Cluster, request: Request) {
    request.replica in s.followers ==> request.offset <= Newest(s.followers[request.replica].log)
  }

  ghost predicate ResponseOk(s: Cluster, response: Response) {
    && response.hw <= s.leader.hw
    && (response.msgs != [] && response.to in s.followers ==>
          var start := response.msgs[0].offset;
          && 0 <= start <= |s.followers[response.to].log|
          && start + |response.msgs| <= |s.leader.log|
          && response.msgs == s.leader.log[start..start + |response.msgs|])
  }

  /** Each recorded offset is one its replica has really reached, or no news: not above
      what is committed already. */
  ghost predicate OffsetsReached(c: Config, s: Cluster, isr: map<Id, int>) {
    forall r :: r in isr ==> isr[r] <= Newest(LogOf(c, s, r)) || isr[r] <= s.leader.hw
  }

  ghost predicate QueueOk(l: Leader) {
    && (forall i, j :: 0 <= i < j < |l.queue| ==> l.queue[i].offset < l.queue[j].offset)
    && (forall i :: 0 <= i < |l.queue| ==> l.queue[i].offset <= Newest(l.log))
    && Rising(l.acked)
    && (forall i :: 0 <= i < |l.acked| ==> l.acked[i] <= l.hw)
    && (forall i, j :: 0 <= i < |l.acked| && 0 <= j < |l.queue| ==> l.acked[i] < l.queue[j].offset)
  }

  ghost predicate SnapshotOk(c: Config, s: Cluster) {
    s.snapshot.Some? ==>
      var snap := s.snapshot.value;
      |snap.isr| >= c.minISR && IsMinLatest(snap.isr, snap.minLatest) && OffsetsReached(c, s, snap.isr)
  }

  ghost predicate Inv(c: Config, s: Cluster) {
    && (c.minISR >= 1 || s.leader.log != [])
    && c.self !in c.followers && s.followers.Keys == c.followers
    && FromZero(s.leader.log)
    && s.leader.hw <= Newest(s.leader.log)
    && (forall r :: r in s.followers ==> s.followers[r].log <= s.leader.log)
    && (forall q :: q in s.requests && Accepted(c, q) ==> RequestOk(s, q))
    && (forall q :: q in s.responses && q.epoch == c.epoch ==> ResponseOk(s, q))
    && OffsetsReached(c, s, s.leader.isr)
    && QueueOk(s.leader)
    && SnapshotOk(c, s)
  }

  /** How a leadership starts: followers are prefixes of the leader (what truncation
      gives), the high watermark lies in the leader's log, and whatever is still in the
      network belongs to another epoch. */
  ghost predicate Starts(c: Config, s: Cluster) {
    && c.self !in c.followers && s.followers.Keys == c.followers
    && FromZero(s.leader.log)
    && s.leader.hw <= Newest(s.leader.log)
    && (forall r :: r in s.followers ==> s.followers[r].log <= s.leader.log)
    && (forall q :: q in s.requests ==> !Accepted(c, q))
    && (forall q :: q in s.responses ==> q.epoch != c.epoch)
    && s.leader.queue == [] && s.leader.acked == [] && s.snapshot == None
  }

  /** What a safe start needs beside that: an ISR that cannot be committed empty, or a log
      that is not, and recorded offsets that are reached. */
  ghost predicate Init(c: Config, s: Cluster) {
    Starts(c, s) && (c.minISR >= 1 || s.leader.log != []) && OffsetsReached(c, s, s.leader.isr)
  }

  // ----- small facts -----

  lemma {:induction false} CommittableBound(queue: seq<Pending>, m: int)
    ensures Committable(queue, m) <= |queue|
    ensures forall i :: 0 <= i < Committable(queue, m) ==> queue[i].offset <= m
    ensures Committable(queue, m) < |queue| ==> queue[Committable(queue, m)].offset > m
  {
    if queue != [] && queue[0].offset <= m {
      CommittableBound(queue[1..], m);
      forall i | 0 <= i < Committable(queue, m) ensures queue[i].offset <= m {
        if i > 0 { assert queue[i] == queue[1..][i - 1]; }
      }
    }
  }

  lemma {:induction false} EnqueueIs(c: Config, queue: seq<Pending>, batch: seq<Draft>, base: int)
    ensures var q := Enqueue(c, queue, batch, base);
            && queue <= q
            && (forall i :: |queue| <= i < |q| ==> base <= q[i].offset < base + |batch|)
            && (forall i, j :: |queue| <= i < j < |q| ==> q[i].offset < q[j].offset)
  {
    if batch != [] { EnqueueIs(c, queue, batch[..|batch| - 1], base); }
  }

  /** The acknowledged offsets are offsets of the committed entries, in order. */
  lemma {:induction false} AcksOfIs(q: seq<Pending>)
    requires forall i, j :: 0 <= i < j < |q| ==> q[i].offset < q[j].offset
    ensures Rising(AcksOf(q))
    ensures forall a :: a in AcksOf(q) <==> exists i :: 0 <= i < |q| && q[i].offset == a && q[i].policy == ALL
  {
    if q != [] {
      var n := |q| - 1;
      AcksOfIs(q[..n]);
      var acks, rest := AcksOf(q), AcksOf(q[..n]);
      forall i, j | 0 <= i < j < |acks| ensures acks[i] < acks[j] {
        if j == |rest| {
          assert rest[i] in rest;
          var k :| 0 <= k < |q[..n]| && q[..n][k].offset == rest[i];
          assert q[k].offset < q[n].offset;
        }
      }
      forall a | exists i :: 0 <= i < |q| && q[i].offset == a && q[i].policy == ALL ensures a in acks {
        var i :| 0 <= i < |q| && q[i].offset == a && q[i].policy == ALL;
        if i < n { assert q[..n][i] == q[i]; assert a in rest; }
      }
    }
  }

  /** Nothing a step adds is ever taken back. */
  ghost predicate Grows(s: Cluster, s': Cluster) {
    && s.leader.hw <= s'.leader.hw
    && s.leader.log <= s'.leader.log
    && s.leader.acked <= s'.leader.acked
    && s.followers.Keys == s'.followers.Keys
    && forall r :: r in s.followers ==> s.followers[r].log <= s'.followers[r].log
  }

  // ----- every step keeps the invariant -----

  lemma PublishQueueOk(c: Config, l: Leader, batch: seq<Draft>)
    requires QueueOk(l) && l.hw <= Newest(l.log)
    ensures QueueOk(Publish(c, l, batch))
  {
    hide Enqueue;
    hide Rising;
    EnqueueIs(c, l.queue, batch, |l.log|);
  }

  lemma LaterResponse(s: Cluster, s': Cluster, q: Response)
    requires ResponseOk(s, q) && Grows(s, s')
    ensures ResponseOk(s', q)
  {
    if q.msgs != [] && q.to in s.followers {
      var a, b := q.msgs[0].offset, q.msgs[0].offset + |q.msgs|;
      assert s'.leader.log[a..b] == s.leader.log[a..b];
    }
  }

  /** What growth alone preserves: the claims about messages and about recorded offsets. */
  lemma GrowthKeeps(c: Config, s: Cluster, s': Cluster)
    requires Grows(s, s')
    ensures forall q :: q in s.requests && RequestOk(s, q) ==> RequestOk(s', q)
    ensures forall q :: q in s.responses && ResponseOk(s, q) ==> ResponseOk(s', q)
    ensures forall isr :: OffsetsReached(c, s, isr) ==> OffsetsReached(c, s', isr)
  {
    forall q | q in s.responses && ResponseOk(s, q) ensures ResponseOk(s', q) { LaterResponse(s, s', q); }
    forall isr | OffsetsReached(c, s, isr) ensures OffsetsReached(c, s', isr) {
      forall r | r in isr ensures isr[r] <= Newest(LogOf(c, s', r)) || isr[r] <= s'.leader.hw {
        assert isr[r] <= Newest(LogOf(c, s, r)) || isr[r] <= s.leader.hw;
      }
    }
  }

  lemma PublishKeeps(c: Config, s: Cluster, batch: seq<Draft>)
    requires Inv(c, s) && batch != []
    ensures Inv(c, s.(leader := Publish(c, s.leader, batch)))
    ensures Grows(s, s.(leader := Publish(c, s.leader, batch)))
  {
    hide Enqueue;
    hide QueueOk;
    hide ResponseOk;
    hide IsMinLatest;
    PublishQueueOk(c, s.leader, batch);
    GrowthKeeps(c, s, s.(leader := Publish(c, s.leader, batch)));
  }

  lemma ServeKeeps(c: Config, s: Cluster, request: Request, count: nat)
    requires Inv(c, s) && request in s.requests && Accepted(c, request)
    ensures Inv(c, Apply(c, s, Serve(request, count))) && Grows(s, Apply(c, s, Serve(request, count)))
  {
    hide QueueOk;
    hide IsMinLatest;
    var msgs := Batch(s.leader.log, request.offset, count);
    var s' := Apply(c, s, Serve(request, count));
    GrowthKeeps(c, s, s');
    assert RequestOk(s, request);
    assert ResponseOk(s', Response(request.replica, c.epoch, s.leader.hw, msgs));
    assert QueueOk(s.leader) ==> QueueOk(s'.leader) by { QueueOkIsr(s.leader, s'.leader.isr); }
  }

  lemma QueueOkIsr(l: Leader, isr: map<Id, int>)
    ensures QueueOk(l) ==> QueueOk(l.(isr := isr))
  {
  }

  lemma ReceivePrefix(f: Follower, log: Log, hw: int, msgs: Log)
    requires FromZero(log) && f.log <= log
    requires msgs != [] ==> var start := msgs[0].offset;
               0 <= start <= |f.log| && start + |msgs| <= |log| && msgs == log[start..start + |msgs|]
    ensures f.log <= Receive(f, hw, msgs).log <= log
  {
  }

  lemma DeliverKeeps(c: Config, s: Cluster, response: Response)
    requires Inv(c, s) && response in s.responses && response.to in s.followers && response.epoch == c.epoch
    ensures Inv(c, Apply(c, s, Deliver(response))) && Grows(s, Apply(c, s, Deliver(response)))
  {
    hide QueueOk;
    hide IsMinLatest;
    hide Receive;
    var s' := Apply(c, s, Deliver(response));
    assert ResponseOk(s, response);
    ReceivePrefix(s.followers[response.to], s.leader.log, response.hw, response.msgs);
    GrowthKeeps(c, s, s');
  }

  lemma CommitQueueOk(l: Leader, m: int)
    requires QueueOk(l)
    ensures QueueOk(Commit(l, m))
  {
    hide Committable;
    hide AcksOf;
    CommittableBound(l.queue, m);
    var n := Committable(l.queue, m);
    var q, acks := l.queue[..n], AcksOf(l.queue[..n]);
    AcksRising(q);
    forall i | 0 <= i < |acks|
      ensures acks[i] <= m
      ensures forall k :: 0 <= k < |l.acked| ==> l.acked[k] < acks[i]
      ensures forall k :: n <= k < |l.queue| ==> acks[i] < l.queue[k].offset
    {
      var j := AckSource(q, i);
      assert q[j] == l.queue[j];
    }
    AckedRising(l.acked, acks);
  }

  lemma AckedRising(a: seq<int>, b: seq<int>)
    requires Rising(a) && Rising(b) && forall i, k :: 0 <= i < |b| && 0 <= k < |a| ==> a[k] < b[i]
    ensures Rising(a + b)
  {}

  lemma {:induction false} AckSource(q: seq<Pending>, i: nat) returns (j: nat)
    requires i < |AcksOf(q)|
    ensures j < |q| && q[j].offset == AcksOf(q)[i] && q[j].policy == ALL
  {
    var n := |q| - 1;
    if i < |AcksOf(q[..n])| { j := AckSource(q[..n], i); } else { j := n; }
  }

  lemma AcksRising(q: seq<Pending>)
    requires forall i, j :: 0 <= i < j < |q| ==> q[i].offset < q[j].offset
    ensures Rising(AcksOf(q))
  {
    AcksOfIs(q);
  }

  lemma CommitKeeps(c: Config, s: Cluster)
    requires Inv(c, s) && s.snapshot.Some?
    ensures Inv(c, Apply(c, s, CommitISR)) && Grows(s, Apply(c, s, CommitISR))
  {
    hide QueueOk;
    hide Committable;
    hide AcksOf;
    hide IsMinLatest;
    CommitQueueOk(s.leader, s.snapshot.value.minLatest);
    MinLatestInLog(c, s, s.snapshot.value);
    GrowthKeeps(c, s, Apply(c, s, CommitISR));
  }

  /** The minimum read from the ISR lies in the leader's log. If it is news, every one of
      the members holds it, with the leader's messages up to it. */
  lemma MinLatestInLog(c: Config, s: Cluster, snap: Snapshot)
    requires (c.minISR >= 1 || s.leader.log != []) && s.followers.Keys == c.followers
    requires |snap.isr| >= c.minISR && IsMinLatest(snap.isr, snap.minLatest) && OffsetsReached(c, s, snap.isr)
    requires s.leader.hw <= Newest(s.leader.log)
    requires forall r :: r in s.followers ==> s.followers[r].log <= s.leader.log
    ensures snap.minLatest <= Newest(s.leader.log)
    ensures forall r :: r in snap.isr && snap.minLatest >= 0 && snap.minLatest > s.leader.hw ==>
              snap.minLatest < |LogOf(c, s, r)|
                && LogOf(c, s, r)[..snap.minLatest + 1] == s.leader.log[..snap.minLatest + 1]
  {
    if snap.isr != map[] {
      var r :| r in snap.isr && snap.isr[r] == snap.minLatest;
      assert LogOf(c, s, r) <= s.leader.log;
    }
  }

  lemma FetchKeeps(c: Config, s: Cluster, r: Id)
    requires Inv(c, s)
    ensures Inv(c, Apply(c, s, Fetch(r))) && Grows(s, Apply(c, s, Fetch(r)))
  {
    hide QueueOk;
    hide IsMinLatest;
    hide OffsetsReached;
    GrowthKeeps(c, s, Apply(c, s, Fetch(r)));
  }

  /** A step that touches only the ISR and what was read of it. */
  lemma OnlyISRKeeps(c: Config, s: Cluster, isr: map<Id, int>, snapshot: Option<Snapshot>)
    requires Inv(c, s) && OffsetsReached(c, s, isr)
    requires SnapshotOk(c, s.(snapshot := snapshot))
    ensures var s' := s.(leader := s.leader.(isr := isr), snapshot := snapshot); Inv(c, s') && Grows(s, s')
  {
    hide QueueOk;
    hide IsMinLatest;
    hide ResponseOk;
    hide RequestOk;
    hide Accepted;
    hide FromZero;
    var s' := s.(leader := s.leader.(isr := isr), snapshot := snapshot);
    QueueOkIsr(s.leader, isr);
    GrowthKeeps(c, s, s');
    assert s.leader == s.leader.(isr := s.leader.isr);
  }

  lemma ISRKeeps(c: Config, s: Cluster, step: Step)
    requires Inv(c, s) && (step.ReadISR? || step.ShrinkISR? || step.ExpandISR?)
    ensures Inv(c, Apply(c, s, step)) && Grows(s, Apply(c, s, step))
  {
    hide Inv;
    hide Grows;
    hide Apply;
    hide OffsetsReached;
    hide SnapshotOk;
    var s' := Apply(c, s, step);
    InvOffsets(c, s);
    ISRStep(c, s, step);
    OnlyISRKeeps(c, s, s'.leader.isr, s'.snapshot);
  }

  lemma InvOffsets(c: Config, s: Cluster)
    requires Inv(c, s)
    ensures c.self !in c.followers && s.followers.Keys == c.followers
    ensures OffsetsReached(c, s, s.leader.isr) && SnapshotOk(c, s)
  {}

  lemma SnapshotIsNoOffset(c: Config, s: Cluster, snapshot: Option<Snapshot>)
    ensures forall isr :: OffsetsReached(c, s, isr) ==> OffsetsReached(c, s.(snapshot := snapshot), isr)
  {}

  lemma MemberOffsets(c: Config, s: Cluster, isr: map<Id, int>, r: Id)
    requires OffsetsReached(c, s, isr)
    ensures OffsetsReached(c, s, isr - {r}) && OffsetsReached(c, s, isr[r := -1])
  {}

  lemma ISRStep(c: Config, s: Cluster, step: Step)
    requires step.ReadISR? || step.ShrinkISR? || step.ExpandISR?
    requires c.self !in c.followers && s.followers.Keys == c.followers
    requires OffsetsReached(c, s, s.leader.isr) && SnapshotOk(c, s)
    ensures var s' := Apply(c, s, step);
            && s' == s.(leader := s.leader.(isr := s'.leader.isr), snapshot := s'.snapshot)
            && OffsetsReached(c, s, s'.leader.isr) && SnapshotOk(c, s.(snapshot := s'.snapshot))
  {
    hide IsMinLatest;
    hide OffsetsReached;
    var s' := Apply(c, s, step);
    assert s'.leader == s.leader.(isr := s'.leader.isr);
    SnapshotIsNoOffset(c, s, s'.snapshot);
    if step.ShrinkISR? || step.ExpandISR? { MemberOffsets(c, s, s.leader.isr, step.replica); }
  }

  lemma StepKeeps(c: Config, s: Cluster, step: Step)
    requires Inv(c, s)
    ensures Inv(c, Apply(c, s, step)) && Grows(s, Apply(c, s, step))
  {
    match step {
      case PublishBatch(batch) => if batch != [] { PublishKeeps(c, s, batch); }
      case Serve(q, count) => if q in s.requests && Accepted(c, q) { ServeKeeps(c, s, q, count); }
      case Deliver(q) => if q in s.responses && q.to in s.followers && q.epoch == c.epoch { DeliverKeeps(c, s, q); }
      case CommitISR => if s.snapshot.Some? { CommitKeeps(c, s); }
      case Fetch(r) => FetchKeeps(c, s, r);
      case _ => ISRKeeps(c, s, step);
    }
  }

  // ----- over whole runs -----

  lemma GrowsTransitive(a: Cluster, b: Cluster, d: Cluster)
    requires Grows(a, b) && Grows(b, d)
    ensures Grows(a, d)
  {
  }

  /** In every run of an epoch, whatever the network does: each follower's log is a
      prefix of the leader's, each ISR offset is one its replica has reached or the
      watermark has, and logs, watermark and acknowledgements only grow. */
  lemma RunSafety(c: Config, s: Cluster, steps: seq<Step>)
    requires Init(c, s)
    ensures Inv(c, Run(c, s, steps)) && Grows(s, Run(c, s, steps))
  {
    RunKeeps(c, s, steps);
  }

  /** Commit safety: whenever the commit loop raises the high watermark to h, the ISR
      it read had at least minISR members, and each of them holds the leader's
      messages up to h, then and for the rest of the run. */
  lemma CommitSafety(c: Config, s: Cluster, steps: seq<Step>, later: seq<Step>)
    requires Init(c, s)
    requires var a := Run(c, s, steps); Apply(c, a, CommitISR).leader.hw > a.leader.hw
    ensures var a := Run(c, s, steps);
            var h, z := Apply(c, a, CommitISR).leader.hw, Run(c, Apply(c, a, CommitISR), later);
            && a.snapshot.Some? && h == a.snapshot.value.minLatest < |a.leader.log|
            && |a.snapshot.value.isr| >= c.minISR
            && a.leader.log <= z.leader.log
            && forall r :: r in a.snapshot.value.isr && h >= 0 ==> a.leader.log[..h + 1] <= LogOf(c, z, r)
  {
    hide Run;
    hide Apply;
    hide Inv;
    hide QueueOk;
    hide IsMinLatest;
    var a := Run(c, s, steps);
    var b := Apply(c, a, CommitISR);
    RunSafety(c, s, steps);
    CommitRaises(c, a);
    StepKeeps(c, a, CommitISR);
    RunKeeps(c, b, later);
    GrowsTransitive(a, b, Run(c, b, later));
    forall r ensures LogOf(c, a, r) <= LogOf(c, Run(c, b, later), r) {}
  }

  /** A commit that raises the high watermark raises it to the minimum read from the ISR,
      which every member of that ISR has reached. */
  lemma CommitRaises(c: Config, a: Cluster)
    requires Inv(c, a) && Apply(c, a, CommitISR).leader.hw > a.leader.hw
    ensures a.snapshot.Some? && Apply(c, a, CommitISR).leader.hw == a.snapshot.value.minLatest < |a.leader.log|
    ensures |a.snapshot.value.isr| >= c.minISR
    ensures var h := a.snapshot.value.minLatest;
            forall r :: r in a.snapshot.value.isr && h >= 0 ==> a.leader.log[..h + 1] <= LogOf(c, a, r)
  {
    hide QueueOk;
    hide IsMinLatest;
    hide ResponseOk;
    hide RequestOk;
    hide Committable;
    hide AcksOf;
    MinLatestInLog(c, a, a.snapshot.value);
  }

  lemma {:induction false} RunKeeps(c: Config, s: Cluster, steps: seq<Step>)
    requires Inv(c, s)
    ensures Inv(c, Run(c, s, steps)) && Grows(s, Run(c, s, steps))
  {
    if steps != [] {
      var n := |steps| - 1;
      RunKeeps(c, s, steps[..n]);
      hide Inv;
      hide Apply;
      StepKeeps(c, Run(c, s, steps[..n]), steps[n]);
      GrowsTransitive(s, Run(c, s, steps[..n]), Run(c, s, steps));
    }
  }

  /** Acknowledgements under policy ALL: each offset at most once, in increasing order,
      and only at or below the high watermark, which stays inside the leader's log. */
  lemma AckSafety(c: Config, s: Cluster, steps: seq<Step>)
    requires Init(c, s)
    ensures var l := Run(c, s, steps).leader;
            && Rising(l.acked)
            && (forall i :: 0 <= i < |l.acked| ==> l.acked[i] <= l.hw < |l.log|)
  {
    RunSafety(c, s, steps);
  }

  // ----- composing runs -----

  lemma {:induction false} RunFrom(c: Config, s: Cluster, steps: seq<Step>, i: nat)
    requires i <= |steps|
    ensures Run(c, s, steps) == Run(c, Run(c, s, steps[..i]), steps[i..])
  {
    hide Apply;
    if i == |steps| {
      assert steps[..i] == steps && steps[i..] == [];
    } else {
      var n := |steps| - 1;
      RunFrom(c, s, steps[..n], i);
      assert steps[..n][..i] == steps[..i] && steps[..n][i..] == steps[i..][..n - i];
    }
  }

  lemma RunAt(c: Config, s: Cluster, steps: seq<Step>, i: nat)
    requires i < |steps|
    ensures Run(c, s, steps[..i + 1]) == Apply(c, Run(c, s, steps[..i]), steps[i]) && Run(c, s, steps[..0]) == s
  {
    hide Apply;
    assert steps[..i + 1][..i] == steps[..i];
  }

  lemma RunConcat(c: Config, s: Cluster, a: seq<Step>, b: seq<Step>)
    ensures Run(c, s, a + b) == Run(c, Run(c, s, a), b)
  {
    RunFrom(c, s, a + b, |a|);
    assert (a + b)[..|a|] == a && (a + b)[|a|..] == b;
  }

  /** Publishing one message that waits for the ISR. */
  function OneMessage(epoch: Epoch): seq<Draft> { [Draft(Input(1, epoch, None, "", 0, -1), ALL)] }

  lemma PublishesOne(c: Config, s: Cluster)
    ensures var z := Apply(c, s, PublishBatch(OneMessage(c.epoch)));
            && z == s.(leader := z.leader) && z.leader.hw == s.leader.hw
            && z.leader.log == s.leader.log + [M(|s.leader.log|, c.epoch)]
            && z.leader.isr == UpdateLatest(s.leader.isr, c.self, |s.leader.log|)
  {
    hide Enqueue;
    assert OneMessage(c.epoch)[0].policy == ALL;
    assert Stamp(Inputs(OneMessage(c.epoch)), |s.leader.log|) == [M(|s.leader.log|, c.epoch)];
  }

  lemma ReadsISR(c: Config, s: Cluster, m: int)
    requires |s.leader.isr| >= c.minISR && IsMinLatest(s.leader.isr, m)
    ensures Apply(c, s, ReadISR(m)) == s.(snapshot := Some(Snapshot(s.leader.isr, m)))
  {}

  lemma CommitsRead(c: Config, s: Cluster)
    requires s.snapshot.Some?
    ensures var z := Apply(c, s, CommitISR);
            && z == s.(leader := z.leader, snapshot := None)
            && z.leader.hw == Max(s.leader.hw, s.snapshot.value.minLatest)
            && z.leader.log == s.leader.log && z.leader.isr == s.leader.isr
  {
    hide Committable;
    hide AcksOf;
  }

  lemma RunOne(c: Config, s: Cluster, step: Step)
    ensures Run(c, s, [step]) == Apply(c, s, step)
  {
    hide Apply;
    assert [step][..0] == [];
  }

  // ----- from one leader epoch to the next -----

  /** A change of leader: `self` of the new configuration takes over with its own log,
      opens its epoch, and every other replica truncates to the answer it gets about
      its own latest epoch. */
  ghost predicate Handover(c: Config, s: Cluster, c': Config, s': Cluster, caches: map<Id, Entries>) {
    && c'.followers + {c'.self} == c.followers + {c.self} && c'.self !in c'.followers && c'.epoch > c.epoch
    && s'.followers.Keys == c'.followers
    && caches.Keys == c'.followers + {c'.self}
    && (forall r :: r in caches ==> CacheMatches(LogOf(c, s, r), caches[r]) && LatestEpoch(caches[r]) < c'.epoch)
    && s'.leader.log == LogOf(c, s, c'.self)
    && var cache := Assigned(caches[c'.self], c'.epoch, Newest(s'.leader.log));
       forall r :: r in s'.followers ==>
         s'.followers[r].log == Truncation(LogOf(c, s, r), Answer(s'.leader.log, cache, LatestEpoch(caches[r])))
  }

  lemma PrefixOfLeader(c: Config, s: Cluster, r: Id)
    requires Inv(c, s)
    ensures LogOf(c, s, r) <= s.leader.log && FromZero(LogOf(c, s, r))
  {
  }

  /** After a handover from any state of an epoch every follower holds exactly what its
      log and the new leader's have in common, so the next epoch starts as it must. */
  lemma HandoverAligns(c: Config, s: Cluster, c': Config, s': Cluster, caches: map<Id, Entries>, r: Id)
    requires Inv(c, s) && Handover(c, s, c', s', caches) && r in s'.followers
    ensures s'.followers[r].log <= s'.leader.log
    ensures |s'.followers[r].log| == CommonPrefix(LogOf(c, s, r), s'.leader.log)
    ensures FromZero(s'.leader.log)
  {
    hide Inv;
    hide CacheMatches;
    hide Assigned;
    hide CommonPrefix;
    var f, n := LogOf(c, s, r), s'.leader.log;
    PrefixOfLeader(c, s, r);
    PrefixOfLeader(c, s, c'.self);
    var epoch := LatestEpoch(caches[r]);
    NewLeaderEpochMatches(n, caches[c'.self], c'.epoch);
    forall i | 0 <= i < |f| ensures f[i].leaderEpoch <= epoch { EntryAtMostLatest(f, caches[r], i); }
    SameOriginTruncation(s.leader.log, n, Assigned(caches[c'.self], c'.epoch, Newest(n)), f, epoch);
  }

  /** Leader epochs in succession: each a run of its own, each handed over to the next. */
  datatype Term = Term(c: Config, start: Cluster, steps: seq<Step>)

  ghost function End(t: Term): Cluster { Run(t.c, t.start, t.steps) }

  ghost predicate Succeeds(t: Term, t': Term) {
    exists caches :: Handover(t.c, End(t), t'.c, t'.start, caches)
  }

  ghost predicate Succession(ts: seq<Term>) {
    && (forall i :: 0 <= i < |ts| ==> Init(ts[i].c, ts[i].start))
    && (forall i :: 0 <= i < |ts| - 1 ==> Succeeds(ts[i], ts[i + 1]))
  }

  ghost predicate AllHold(c: Config, s: Cluster, rs: set<Id>, p: Log) { forall r :: r in rs ==> p <= LogOf(c, s, r) }

  lemma TermKeepsHeld(t: Term, rs: set<Id>, p: Log)
    requires Init(t.c, t.start) && AllHold(t.c, t.start, rs, p)
    ensures AllHold(t.c, End(t), rs, p)
  {
    hide Inv;
    hide Init;
    RunSafety(t.c, t.start, t.steps);
    forall r | r in rs ensures p <= LogOf(t.c, End(t), r) { assert LogOf(t.c, t.start, r) <= LogOf(t.c, End(t), r); }
  }

  /** What some replicas all hold they hold after a handover to one of them. */
  lemma HandoverKeepsHeld(c: Config, s: Cluster, c': Config, s': Cluster, caches: map<Id, Entries>, rs: set<Id>, p: Log)
    requires Inv(c, s) && Handover(c, s, c', s', caches) && c'.self in rs && p != [] && AllHold(c, s, rs, p)
    ensures AllHold(c', s', rs, p)
  {
    forall r | r in rs ensures p <= LogOf(c', s', r) {
      if r != c'.self {
        assert r in c.followers + {c.self};
        HandoverAligns(c, s, c', s', caches, r);
        HeldInCommon(p, LogOf(c, s, r), s'.leader.log);
      }
    }
  }

  lemma {:induction false} HeldSurvives(ts: seq<Term>, rs: set<Id>, p: Log, k: nat)
    requires Succession(ts) && k < |ts| && p != [] && AllHold(ts[0].c, End(ts[0]), rs, p)
    requires forall j :: 0 < j < |ts| ==> ts[j].c.self in rs
    ensures AllHold(ts[k].c, End(ts[k]), rs, p)
  {
    hide Init;
    hide AllHold;
    hide End;
    hide Inv;
    hide Handover;
    if k > 0 {
      HeldSurvives(ts, rs, p, k - 1);
      assert Succeeds(ts[k - 1], ts[k - 1 + 1]);
      var caches :| Handover(ts[k - 1].c, End(ts[k - 1]), ts[k].c, ts[k].start, caches);
      TermInv(ts[k - 1]);
      HandoverKeepsHeld(ts[k - 1].c, End(ts[k - 1]), ts[k].c, ts[k].start, caches, rs, p);
      TermKeepsHeld(ts[k], rs, p);
    }
  }

  lemma TermInv(t: Term)
    requires Init(t.c, t.start)
    ensures Inv(t.c, End(t))
  {
    RunSafety(t.c, t.start, t.steps);
  }

  /** A commit at step `i` of the first term that raises the high watermark. */
  ghost predicate CommitsAt(t: Term, i: nat) {
    && i < |t.steps| && t.steps[i] == CommitISR
    && var a := Run(t.c, t.start, t.steps[..i]);
       && a.snapshot.Some?
       && Apply(t.c, a, CommitISR).leader.hw > a.leader.hw && Apply(t.c, a, CommitISR).leader.hw >= 0
  }

  /** What is committed is never lost: if every leader elected afterwards is one of the
      in-sync replicas that committed a message, then in every later term each of those
      replicas holds it at its offset, with everything before it, and so does the
      leader. */
  lemma CommittedSurvives(ts: seq<Term>, i: nat, k: nat)
    requires Succession(ts) && k < |ts| && CommitsAt(ts[0], i)
    requires var a := Run(ts[0].c, ts[0].start, ts[0].steps[..i]);
             forall j :: 0 < j < |ts| ==> ts[j].c.self in a.snapshot.value.isr
    ensures var a := Run(ts[0].c, ts[0].start, ts[0].steps[..i]);
            var h := a.snapshot.value.minLatest;
            && 0 <= h < |a.leader.log| && Apply(ts[0].c, a, CommitISR).leader.hw == h
            && AllHold(ts[k].c, End(ts[k]), a.snapshot.value.isr.Keys, a.leader.log[..h + 1])
            && a.leader.log[..h + 1] <= End(ts[k]).leader.log
  {
    hide Init;
    hide Apply;
    hide Inv;
    var t := ts[0];
    var a, later := Run(t.c, t.start, t.steps[..i]), t.steps[i + 1..];
    var h := Apply(t.c, a, CommitISR).leader.hw;
    CommitSafety(t.c, t.start, t.steps[..i], later);
    RunFrom(t.c, t.start, t.steps, i + 1);
    assert t.steps[..i + 1][..i] == t.steps[..i];
    assert End(t) == Run(t.c, Apply(t.c, a, CommitISR), later);
    assert AllHold(t.c, End(t), a.snapshot.value.isr.Keys, a.leader.log[..h + 1]);
    HeldSurvives(ts, a.snapshot.value.isr.Keys, a.leader.log[..h + 1], k);
    if k > 0 { assert a.leader.log[..h + 1] <= LogOf(ts[k].c, End(ts[k]), ts[k].c.self); }
  }

  // ----- elections from the ISR -----

  ghost function At(t: Term, i: nat): Cluster
    requires i <= |t.steps|
  {
    Run(t.c, t.start, t.steps[..i])
  }

  ghost predicate ISRHolds(t: Term, i: nat, p: Log)
    requires i <= |t.steps|
  {
    AllHold(t.c, At(t, i), At(t, i).leader.isr.Keys, p)
  }

  /** From step `from` on, only replicas that hold `p` rejoin the ISR. */
  ghost predicate Rejoins(t: Term, from: nat, p: Log) {
    forall i :: from <= i < |t.steps| ==> RejoinsAt(t, i, p)
  }

  ghost predicate RejoinsAt(t: Term, i: nat, p: Log)
    requires i < |t.steps|
  {
    t.steps[i].ExpandISR? && t.steps[i].replica in t.c.followers + {t.c.self} ==>
      p <= LogOf(t.c, At(t, i), t.steps[i].replica)
  }

  lemma StepISR(c: Config, s: Cluster, step: Step)
    ensures var isr, isr' := s.leader.isr.Keys, Apply(c, s, step).leader.isr.Keys;
            && (step.ExpandISR? && step.replica in c.followers + {c.self} ==>
                  && isr' == isr + {step.replica}
                  && LogOf(c, Apply(c, s, step), step.replica) == LogOf(c, s, step.replica))
            && (!(step.ExpandISR? && step.replica in c.followers + {c.self}) ==> isr' <= isr)
  {
    hide Committable;
    hide AcksOf;
    hide Enqueue;
  }

  lemma StepISRHolds(c: Config, s: Cluster, step: Step, p: Log)
    requires Inv(c, s) && AllHold(c, s, s.leader.isr.Keys, p)
    ensures var s' := Apply(c, s, step);
            AllHold(c, s', s'.leader.isr.Keys, p) <==>
            (step.ExpandISR? && step.replica in c.followers + {c.self} ==> p <= LogOf(c, s, step.replica))
  {
    hide Inv;
    hide Apply;
    hide LogOf;
    StepKeeps(c, s, step);
    StepISR(c, s, step);
    LogsGrow(c, s, Apply(c, s, step));
  }

  lemma LogsGrow(c: Config, s: Cluster, s': Cluster)
    requires Grows(s, s')
    ensures forall r :: LogOf(c, s, r) <= LogOf(c, s', r)
  {}

  /** The ISR goes on holding `p` at every later step of a term if and only if only
      replicas that hold it rejoin. */
  lemma {:induction false} ISRHoldsIff(t: Term, from: nat, p: Log)
    requires Init(t.c, t.start) && from <= |t.steps| && ISRHolds(t, from, p)
    ensures (forall i :: from <= i <= |t.steps| ==> ISRHolds(t, i, p)) <==> Rejoins(t, from, p)
  {
    hide Init;
    hide Apply;
    hide AllHold;
    hide LogOf;
    forall i | from <= i < |t.steps| ensures ISRHolds(t, i, p) ==> (ISRHolds(t, i + 1, p) <==> RejoinsAt(t, i, p)) {
      RunSafety(t.c, t.start, t.steps[..i]);
      assert t.steps[..i + 1][..i] == t.steps[..i];
      if ISRHolds(t, i, p) { StepISRHolds(t.c, At(t, i), t.steps[i], p); }
    }
    hide ISRHolds;
    hide RejoinsAt;
    if Rejoins(t, from, p) {
      var j := from;
      while j < |t.steps|
        invariant from <= j <= |t.steps| && forall i :: from <= i <= j ==> ISRHolds(t, i, p)
      {
        assert ISRHolds(t, j, p) && RejoinsAt(t, j, p);
        assert ISRHolds(t, j + 1, p);
        j := j + 1;
      }
    } else if forall i :: from <= i <= |t.steps| ==> ISRHolds(t, i, p) {
      forall i | from <= i < |t.steps| ensures RejoinsAt(t, i, p) { assert ISRHolds(t, i, p) && ISRHolds(t, i + 1, p); }
    }
  }

  /** Each leader is elected from the ISR its predecessor ended with, which it takes over. */
  ghost predicate ElectedInSync(ts: seq<Term>) {
    forall k :: 0 < k < |ts| ==>
      && ts[k].c.self in End(ts[k - 1]).leader.isr
      && ts[k].start.leader.isr.Keys <= End(ts[k - 1]).leader.isr.Keys
  }

  lemma {:induction false} ElectionsKeep(ts: seq<Term>, p: Log, k: nat)
    requires Succession(ts) && ElectedInSync(ts) && k < |ts| && p != []
    requires AllHold(ts[0].c, End(ts[0]), End(ts[0]).leader.isr.Keys, p)
    requires forall j :: 0 < j < |ts| ==> Rejoins(ts[j], 0, p)
    ensures AllHold(ts[k].c, End(ts[k]), End(ts[k]).leader.isr.Keys, p)
    ensures k > 0 ==> p <= ts[k].start.leader.log <= End(ts[k]).leader.log
  {
    hide Init;
    hide Rejoins;
    hide LogOf;
    hide Handover;
    if k > 0 {
      ElectionsKeep(ts, p, k - 1);
      assert Succeeds(ts[k - 1], ts[k - 1 + 1]);
      var rs, t := End(ts[k - 1]).leader.isr.Keys, ts[k];
      var caches :| Handover(ts[k - 1].c, End(ts[k - 1]), t.c, t.start, caches);
      TermInv(ts[k - 1]);
      HandoverKeepsHeld(ts[k - 1].c, End(ts[k - 1]), t.c, t.start, caches, rs, p);
      LeaderLog(t.c, t.start);
      TermGrows(t);
      assert t.steps[..0] == [] && t.steps[..|t.steps|] == t.steps;
      assert ISRHolds(t, 0, p);
      ISRHoldsIff(t, 0, p);
      assert ISRHolds(t, |t.steps|, p);
    }
  }

  lemma LeaderLog(c: Config, s: Cluster)
    ensures LogOf(c, s, c.self) == s.leader.log
  {}

  /** What a commit at step `i` commits: the leader's log up to the new watermark. */
  ghost function Committed(t: Term, i: nat): Log
    requires CommitsAt(t, i)
  {
    Upto(At(t, i).leader.log, Apply(t.c, At(t, i), CommitISR).leader.hw)
  }

  function Upto(log: Log, h: int): Log { if 0 <= h < |log| then log[..h + 1] else [] }

  /** Replicas added to the ISR after the commit loop read it hold what it commits. */
  ghost predicate LateJoinersHold(t: Term, i: nat)
    requires CommitsAt(t, i)
  {
    var a := At(t, i);
    AllHold(t.c, a, a.leader.isr.Keys - a.snapshot.value.isr.Keys, Committed(t, i))
  }

  lemma CommittedIsHeld(t: Term, i: nat)
    requires Init(t.c, t.start) && CommitsAt(t, i)
    ensures |Committed(t, i)| == Apply(t.c, At(t, i), CommitISR).leader.hw + 1
    ensures Committed(t, i) <= At(t, i).leader.log <= At(t, i + 1).leader.log
    ensures AllHold(t.c, At(t, i + 1), At(t, i).snapshot.value.isr.Keys, Committed(t, i))
    ensures At(t, i + 1).leader.isr == At(t, i).leader.isr
    ensures forall r :: LogOf(t.c, At(t, i), r) <= LogOf(t.c, At(t, i + 1), r)
  {
    hide Init;
    hide Inv;
    hide Apply;
    hide LogOf;
    var a := At(t, i);
    assert t.steps[..i + 1][..i] == t.steps[..i];
    assert At(t, i + 1) == Apply(t.c, a, CommitISR) == Run(t.c, Apply(t.c, a, CommitISR), []);
    CommitSafety(t.c, t.start, t.steps[..i], []);
    RunSafety(t.c, t.start, t.steps[..i]);
    StepKeeps(t.c, a, CommitISR);
    CommitKeepsISR(t.c, a);
    LogsGrow(t.c, a, At(t, i + 1));
  }

  lemma TermEndsHolding(t: Term, i: nat)
    requires Init(t.c, t.start) && CommitsAt(t, i) && LateJoinersHold(t, i) && Rejoins(t, i + 1, Committed(t, i))
    ensures Committed(t, i) != [] && Committed(t, i) <= End(t).leader.log
    ensures AllHold(t.c, End(t), End(t).leader.isr.Keys, Committed(t, i))
  {
    hide Init;
    hide Inv;
    hide Apply;
    hide LogOf;
    hide Rejoins;
    hide Committed;
    var p := Committed(t, i);
    CommittedIsHeld(t, i);
    var a, b := At(t, i), At(t, i + 1);
    forall r | r in b.leader.isr.Keys ensures p <= LogOf(t.c, b, r) {
      if r !in a.snapshot.value.isr.Keys {
        assert r in a.leader.isr.Keys - a.snapshot.value.isr.Keys;
        assert p <= LogOf(t.c, a, r) <= LogOf(t.c, b, r);
      }
    }
    assert ISRHolds(t, i + 1, p);
    ISRHoldsIff(t, i + 1, p);
    assert t.steps[..|t.steps|] == t.steps;
    assert ISRHolds(t, |t.steps|, p);
    RunSafety(t.c, t.start, t.steps[..i + 1]);
    RunFrom(t.c, t.start, t.steps, i + 1);
    RunKeeps(t.c, At(t, i + 1), t.steps[i + 1..]);
  }

  /** Leaders elected from the ISR: a committed message is in the log of every later
      leader, and of everyone in its ISR, provided that whoever was or is added to the
      ISR meanwhile holds it. The leader asks for a replica to be added that has been
      caught up within the maximum lag time, which is not quite that. */
  lemma CommittedSurvivesElections(ts: seq<Term>, i: nat, k: nat)
    requires Succession(ts) && ElectedInSync(ts) && k < |ts| && CommitsAt(ts[0], i)
    requires LateJoinersHold(ts[0], i) && Rejoins(ts[0], i + 1, Committed(ts[0], i))
    requires forall j :: 0 < j < |ts| ==> Rejoins(ts[j], 0, Committed(ts[0], i))
    ensures |Committed(ts[0], i)| == Apply(ts[0].c, At(ts[0], i), CommitISR).leader.hw + 1
    ensures Committed(ts[0], i) <= At(ts[0], i).leader.log && Committed(ts[0], i) <= End(ts[k]).leader.log
    ensures AllHold(ts[k].c, End(ts[k]), End(ts[k]).leader.isr.Keys, Committed(ts[0], i))
  {
    hide Init;
    hide Rejoins;
    hide Committed;
    hide LateJoinersHold;
    hide CommitsAt;
    hide ElectedInSync;
    hide Succeeds;
    hide AllHold;
    CommittedIsHeld(ts[0], i);
    TermEndsHolding(ts[0], i);
    ElectionsKeep(ts, Committed(ts[0], i), k);
  }

  lemma CommitKeepsISR(c: Config, s: Cluster)
    ensures Apply(c, s, CommitISR).leader.isr == s.leader.isr
  {}

  /** From empty logs: "b" falls out of the ISR, fetches and so is caught up, a message is
      published and committed without it, and "b" is put back. */
  function FirstTerm(): Term {
    Term(Config("a", {"b"}, 1, 1, 2),
         Cluster(Leader([], -1, map["a" := -1, "b" := -1], [], []), map["b" := Follower([], -1)], {}, {}, None),
         [ShrinkISR("b"), Fetch("b"), Serve(Request("b", -1, 1), 0),
          PublishBatch(OneMessage(1)), ReadISR(0), CommitISR, ExpandISR("b")])
  }

  function SecondTerm(): Term {
    Term(Config("b", {"a"}, 1, 2, 2),
         Cluster(Leader([], -1, map["b" := -1], [], []), map["a" := Follower([], 0)], {}, {}, None), [])
  }

  /** A replica that rejoins the ISR behind the high watermark can be elected, and what
      was committed is gone. */
  lemma LaggingRejoinLosesCommitted()
    ensures var ts := [FirstTerm(), SecondTerm()];
            Succession(ts) && ElectedInSync(ts) && CommitsAt(ts[0], 5) && ts[1].start.leader.log == []
  {
    hide Init;
    hide Handover;
    hide CommitsAt;
    hide Run;
    var t, t' := FirstTerm(), SecondTerm();
    FirstTermRuns();
    TermsStart();
    HandsOver(End(t));
    assert Succeeds(t, t');
  }

  lemma TermsStart()
    ensures Init(FirstTerm().c, FirstTerm().start) && Init(SecondTerm().c, SecondTerm().start)
  {}

  lemma HandsOver(s: Cluster)
    requires s.leader.log == [M(0, 1)] && s.followers == map["b" := Follower([], -1)]
    ensures Handover(FirstTerm().c, s, SecondTerm().c, SecondTerm().start, map["a" := [EpochOffset(1, 0)], "b" := []])
  {
    hide CacheMatches;
    hide Assigned;
    hide LatestEpoch;
    hide Answer;
    hide Truncation;
    var caches: map<Id, Entries> := map["a" := [EpochOffset(1, 0)], "b" := []];
    OldCaches();
    assert caches.Keys == {"a", "b"};
  }

  lemma OldCaches()
    ensures CacheMatches([M(0, 1)], [EpochOffset(1, 0)]) && CacheMatches([], [])
    ensures LatestEpoch([EpochOffset(1, 0)]) == 1 && LatestEpoch([]) == 0
    ensures Truncation([M(0, 1)], Answer([], Assigned([], 2, -1), 1)) == []
  {
    var e := EpochOffset(1, 0);
    assert [M(0, 1)][..0] == [];
    assert Boundary([M(0, 1)], 1) == 0;
    assert [e][0] == e && HasEntry([e], 1);
    assert Assigned([], 2, -1) == [EpochOffset(2, -1)];
  }

  lemma FirstTermRuns()
    ensures var t := FirstTerm();
            && CommitsAt(t, 5) && End(t).leader.log == [M(0, 1)]
            && End(t).leader.isr.Keys == {"a", "b"} && End(t).followers == map["b" := Follower([], -1)]
  {
    hide Run;
    hide Apply;
    hide CommitsAt;
    var t := FirstTerm();
    FirstTermCommits();
    RunAt(t.c, t.start, t.steps, 6);
    ExpandsISR(t.c, Run(t.c, t.start, t.steps[..6]), "b");
    assert t.steps[..7] == t.steps;
  }

  lemma FirstTermCommits()
    ensures CommitsAt(FirstTerm(), 5)
    ensures var e := Run(FirstTerm().c, FirstTerm().start, FirstTerm().steps[..6]);
            && e.leader.log == [M(0, 1)] && e.leader.isr.Keys == {"a"} && e.followers == map["b" := Follower([], -1)]
  {
    hide Run;
    hide Apply;
    var t := FirstTerm();
    FirstTermPublishes();
    var d := Run(t.c, t.start, t.steps[..4]);
    assert d.leader.isr.Keys == {"a"} && "a" in d.leader.isr;
    RunAt(t.c, t.start, t.steps, 4);
    ReadsISR(t.c, d, 0);
    RunAt(t.c, t.start, t.steps, 5);
    CommitsRead(t.c, Run(t.c, t.start, t.steps[..5]));
  }

  lemma ExpandsISR(c: Config, s: Cluster, r: Id)
    requires r in c.followers + {c.self}
    ensures Apply(c, s, ExpandISR(r)) == s.(leader := s.leader.(isr := s.leader.isr[r := -1]))
  {}

  lemma FirstTermPublishes()
    ensures var d := Run(FirstTerm().c, FirstTerm().start, FirstTerm().steps[..4]);
            && d.leader.log == [M(0, 1)] && d.leader.hw == -1 && d.leader.isr == map["a" := 0]
            && d.followers == map["b" := Follower([], -1)]
  {
    hide Run;
    hide Apply;
    var t := FirstTerm();
    FirstTermCaughtUp();
    RunAt(t.c, t.start, t.steps, 3);
    PublishesOne(t.c, Run(t.c, t.start, t.steps[..3]));
  }

  lemma FirstTermCaughtUp()
    ensures var d := Run(FirstTerm().c, FirstTerm().start, FirstTerm().steps[..3]);
            && d.leader == Leader([], -1, map["a" := -1], [], []) && d.followers == map["b" := Follower([], -1)]
  {
    hide Run;
    hide Apply;
    var t := FirstTerm();
    FirstTermShrinks();
    var a := Run(t.c, t.start, t.steps[..1]);
    RunAt(t.c, t.start, t.steps, 1);
    RunAt(t.c, t.start, t.steps, 2);
    FetchesNothing(t.c, a);
  }

  lemma FirstTermShrinks()
    ensures var a := Run(FirstTerm().c, FirstTerm().start, FirstTerm().steps[..1]);
            && a.leader == Leader([], -1, map["a" := -1], [], []) && a.followers == map["b" := Follower([], -1)]
  {
    hide Run;
    var t := FirstTerm();
    RunAt(t.c, t.start, t.steps, 0);
    var a := Run(t.c, t.start, t.steps[..1]);
    assert t.steps[..0] == [];
    RunNone(t.c, t.start);
    assert a.leader.isr == map["a" := -1];
  }

  lemma RunNone(c: Config, s: Cluster)
    ensures Run(c, s, []) == s
  {}

  lemma FetchesNothing(c: Config, s: Cluster)
    requires c == FirstTerm().c
    requires s.leader == Leader([], -1, map["a" := -1], [], []) && s.followers == map["b" := Follower([], -1)]
    ensures var a := Apply(c, s, Fetch("b"));
            var b := Apply(c, a, Serve(Request("b", -1, 1), 0));
            b.leader == s.leader && b.followers == s.followers
  {}

  /** Whoever is elected: a committed message is in every later leader's log, at its
      offset, if and only if each leader's log reaches that offset as it takes over. */
  lemma {:induction false} SurvivesIffReached(ts: seq<Term>, h: nat)
    requires Succession(ts) && |ts| > 0 && h <= End(ts[0]).leader.hw
    ensures h < |End(ts[0]).leader.log|
    ensures (forall k :: 0 < k < |ts| ==> h < |ts[k].start.leader.log|) <==>
            (forall k :: 0 < k < |ts| ==> End(ts[0]).leader.log[..h + 1] <= ts[k].start.leader.log)
  {
    hide Init;
    hide Succeeds;
    hide End;
    TermGrows(ts[0]);
    var n := |ts| - 1;
    if n > 0 && forall k :: 0 < k < |ts| ==> h < |ts[k].start.leader.log| {
      assert forall k :: 0 < k < n ==> ts[..n][k] == ts[k];
      SurvivesIffReached(ts[..n], h);
      assert ts[..n][n - 1] == ts[n - 1] && Succeeds(ts[n - 1], ts[n - 1 + 1]);
      TakesOver(ts[n - 1], ts[n]);
      TermGrows(ts[n - 1]);
      assert n > 1 ==> End(ts[0]).leader.log[..h + 1] <= ts[..n][n - 1].start.leader.log;
    }
  }

  lemma TermGrows(t: Term)
    requires Init(t.c, t.start)
    ensures t.start.leader.log <= End(t).leader.log && End(t).leader.hw < |End(t).leader.log|
  {
    RunSafety(t.c, t.start, t.steps);
  }

  /** A new leader starts from a prefix of what the old one ended with. */
  lemma TakesOver(t: Term, t': Term)
    requires Init(t.c, t.start) && Succeeds(t, t')
    ensures t'.start.leader.log <= End(t).leader.log
  {
    hide CacheMatches;
    var caches :| Handover(t.c, End(t), t'.c, t'.start, caches);
    RunSafety(t.c, t.start, t.steps);
    PrefixOfLeader(t.c, End(t), t'.c.self);
  }
}
