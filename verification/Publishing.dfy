/** What publishers can rely on in a leader epoch: messages are in the log as they were
    published, and those that ask for it are acknowledged once all in-sync replicas have
    them, exactly once and no others. */
module Publishing {
  import opened Wrappers
  import opened Collections
  import opened Messages
  import opened EpochCache
  import opened CommitLogs
  import opened Replication

  // ----- what is in the log -----

  ghost predicate Taken(c: Config, batch: seq<Draft>) {
    batch != [] && forall i :: 0 <= i < |batch| ==> batch[i].msg.leaderEpoch == c.epoch
  }

  /** A published batch is in the leader's log at its end, from then on, with everything it
      was published with. */
  lemma PublishedStays(c: Config, s: Cluster, before: seq<Step>, batch: seq<Draft>, later: seq<Step>, j: nat)
    requires Init(c, s) && Taken(c, batch) && j < |batch|
    ensures var base := |Run(c, s, before).leader.log|;
            var log := Run(c, s, before + [PublishBatch(batch)] + later).leader.log;
            base + j < |log| && Carries(log[base + j], batch[j].msg, base + j)
  {
    hide Run;
    hide Init;
    var a := Run(c, s, before);
    RunConcat(c, s, before, [PublishBatch(batch)]);
    RunOne(c, a, PublishBatch(batch));
    PublishWrites(c, a, batch, j);
    RunConcat(c, s, before + [PublishBatch(batch)], later);
    RunSafety(c, s, before + [PublishBatch(batch)]);
    RunKeeps(c, Apply(c, a, PublishBatch(batch)), later);
  }

  lemma PublishWrites(c: Config, s: Cluster, batch: seq<Draft>, j: nat)
    requires Taken(c, batch) && j < |batch|
    ensures var log := Apply(c, s, PublishBatch(batch)).leader.log;
            && |log| == |s.leader.log| + |batch| && s.leader.log <= log
            && Carries(log[|s.leader.log| + j], batch[j].msg, |s.leader.log| + j)
  {
    hide Enqueue;
    hide UpdateLatest;
  }

  /** A follower's watermark is never below that of a response delivered to it, or its own
      before. */
  lemma DeliveryRaises(c: Config, s: Cluster, q: Response)
    requires q in s.responses && q.to in s.followers && q.epoch == c.epoch
    ensures var f, g := s.followers[q.to], Apply(c, s, Deliver(q)).followers[q.to];
            g.hw >= q.hw && g.hw >= f.hw && (g.hw == q.hw || g.hw == f.hw)
  {}

  // ----- what is acknowledged -----

  /** The offsets of the messages published under policy ALL in a run. */
  ghost function Asked(c: Config, s: Cluster, steps: seq<Step>): set<int> {
    if steps == [] then {}
    else
      var n := |steps| - 1;
      Asked(c, s, steps[..n]) + AskedIn(c, |Run(c, s, steps[..n]).leader.log|, steps[n])
  }

  ghost function AskedIn(c: Config, base: int, step: Step): set<int> {
    if step.PublishBatch? && Taken(c, step.batch)
    then set j | 0 <= j < |step.batch| && step.batch[j].policy == ALL :: base + j
    else {}
  }

  /** A message under policy ALL whose acknowledgement is still to come. */
  predicate Waits(l: Leader, offset: int) { Pending(offset, ALL) in l.queue }

  /** Every message of a batch is queued, but with a replication factor of 1 only those
      under policy ALL. */
  lemma {:induction false} EnqueueAll(c: Config, queue: seq<Pending>, batch: seq<Draft>, base: int, o: int,
                                      p: AckPolicy)
    ensures Pending(o, p) in Enqueue(c, queue, batch, base) <==>
            || Pending(o, p) in queue
            || (base <= o < base + |batch| && batch[o - base].policy == p && (c.replicationFactor != 1 || p == ALL))
  {
    if batch != [] {
      var n := |batch| - 1;
      EnqueueAll(c, queue, batch[..n], base, o, p);
      assert o < base + n ==> 0 <= o - base ==> batch[..n][o - base] == batch[o - base];
    }
  }

  /** From `l` to `k` a batch was published: it is in the log as handed in; what asks for it
      waits for its acknowledgement; and the leader knows its own new log end. */
  ghost predicate Published(c: Config, l: Leader, k: Leader, batch: seq<Draft>) {
    && |k.log| == |l.log| + |batch| && l.log <= k.log
    && (forall i :: 0 <= i < |batch| ==> Carries(k.log[|l.log| + i], batch[i].msg, |l.log| + i))
    && Queued(c, l.queue, k.queue, batch, |l.log|)
    && k.acked == l.acked && k.isr.Keys == l.isr.Keys
    && forall r :: r in l.isr ==> k.isr[r] == if r == c.self then Max(l.isr[r], Newest(k.log)) else l.isr[r]
  }

  ghost predicate Queued(c: Config, queue: seq<Pending>, now: seq<Pending>, batch: seq<Draft>, base: int) {
    forall o, p :: Pending(o, p) in now <==>
      || Pending(o, p) in queue
      || (base <= o < base + |batch| && batch[o - base].policy == p && (c.replicationFactor != 1 || p == ALL))
  }

  lemma EnqueueQueues(c: Config, queue: seq<Pending>, batch: seq<Draft>, base: int)
    ensures Queued(c, queue, Enqueue(c, queue, batch, base), batch, base)
  {
    hide Enqueue;
    forall o, p ensures Pending(o, p) in Enqueue(c, queue, batch, base) <==>
                        || Pending(o, p) in queue
                        || (base <= o < base + |batch| && batch[o - base].policy == p
                            && (c.replicationFactor != 1 || p == ALL))
    {
      EnqueueAll(c, queue, batch, base, o, p);
    }
  }

  lemma PublishIs(c: Config, l: Leader, batch: seq<Draft>)
    ensures Published(c, l, Publish(c, l, batch), batch)
  {
    hide Enqueue;
    hide Queued;
    hide FastPath;
    EnqueueQueues(c, l.queue, batch, |l.log|);
  }

  lemma PublishAsks(c: Config, s: Cluster, batch: seq<Draft>, o: int)
    requires Taken(c, batch)
    ensures var l, k := s.leader, Apply(c, s, PublishBatch(batch)).leader;
            && k.acked == l.acked
            && (Waits(k, o) <==> Waits(l, o) || o in AskedIn(c, |l.log|, PublishBatch(batch)))
  {
    hide Enqueue;
    var l := s.leader;
    EnqueueAll(c, l.queue, batch, |l.log|, o, ALL);
    if |l.log| <= o < |l.log| + |batch| && batch[o - |l.log|].policy == ALL {
      assert |l.log| + (o - |l.log|) == o;
    }
  }

  /** A commit acknowledges exactly the waiting messages at or below what it commits, and
      leaves no entry there. */
  lemma CommitAcknowledges(l: Leader, m: int, o: int)
    requires QueueOk(l)
    ensures var k := Commit(l, m);
            && (o in k.acked <==> o in l.acked || (Waits(l, o) && o <= m))
            && (Waits(k, o) <==> Waits(l, o) && o > m)
            && (forall i :: 0 <= i < |k.queue| ==> k.queue[i].offset > m)
  {
    hide AcksOf;
    hide Committable;
    hide Rising;
    CommittableBound(l.queue, m);
    var n := Committable(l.queue, m);
    var q := l.queue[..n];
    AcksOfIs(q);
    assert l.queue == q + l.queue[n..];
    assert o in AcksOf(q) <==> Pending(o, ALL) in q;
  }

  lemma StepAsks(c: Config, s: Cluster, step: Step, o: int)
    requires Inv(c, s)
    ensures var l, k := s.leader, Apply(c, s, step).leader;
            Waits(k, o) || o in k.acked <==> Waits(l, o) || o in l.acked || o in AskedIn(c, |l.log|, step)
  {
    hide Commit;
    hide Enqueue;
    if step.PublishBatch? && Taken(c, step.batch) {
      PublishAsks(c, s, step.batch, o);
    } else if step.CommitISR? && s.snapshot.Some? {
      CommitAcknowledges(s.leader, s.snapshot.value.minLatest, o);
    }
  }

  lemma {:induction false} AskedOrWaits(c: Config, s: Cluster, steps: seq<Step>, o: int)
    requires Init(c, s)
    ensures var l := Run(c, s, steps).leader; o in Asked(c, s, steps) <==> Waits(l, o) || o in l.acked
  {
    hide Apply;
    hide AskedIn;
    if steps != [] {
      var n := |steps| - 1;
      AskedOrWaits(c, s, steps[..n], o);
      RunSafety(c, s, steps[..n]);
      StepAsks(c, Run(c, s, steps[..n]), steps[n], o);
    }
  }

  /** How often an acknowledgement was sent or is still to be sent. */
  function Count(l: Leader, o: int): nat { multiset(l.acked)[o] + multiset(l.queue)[Pending(o, ALL)] }

  lemma {:induction false} OnceIn<T>(s: seq<T>, x: T)
    requires forall i, j :: 0 <= i < j < |s| ==> s[i] != s[j]
    ensures multiset(s)[x] == if x in s then 1 else 0
  {
    if s != [] {
      var n := |s| - 1;
      OnceIn(s[..n], x);
      assert s == s[..n] + [s[n]];
    }
  }

  lemma CountOnce(l: Leader, o: int)
    requires QueueOk(l)
    ensures Count(l, o) == if o in l.acked || Waits(l, o) then 1 else 0
  {
    OnceIn(l.acked, o);
    OnceIn(l.queue, Pending(o, ALL));
  }

  /** In every run each message published under policy ALL is acknowledged, or waits to be,
      exactly once, and no other message ever is. */
  lemma AckedExactlyOnce(c: Config, s: Cluster, steps: seq<Step>, o: int)
    requires Init(c, s)
    ensures Count(Run(c, s, steps).leader, o) == if o in Asked(c, s, steps) then 1 else 0
  {
    hide Run;
    hide Asked;
    AskedOrWaits(c, s, steps, o);
    RunSafety(c, s, steps);
    CountOnce(Run(c, s, steps).leader, o);
  }
}
