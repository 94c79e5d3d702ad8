/** The partition object: the leader's and the follower's side of replication as the
    handlers and loops of a server carry them out, each tied to the transition it is in
    module Replication. */
module Partitions {
  import opened Wrappers
  import opened Collections
  import opened Messages
  import opened EpochCache
  import opened CommitLogs
  import opened EpochTruncation
  import opened Replication
  import opened Publishing

  /** Replication responses carry an 8-byte envelope header, the epoch and the HW. */
  const RESPONSE_OVERHEAD := 24

  /** What comes back when a follower asks for the last offset of its latest epoch. */
  datatype Reply = Answered(offset: int) | TimedOut | Failed

  /** Falling back to the high watermark keeps every committed message the follower has
      if and only if its own watermark has caught up with the commit or with its log. */
  lemma FallbackKeepsIff(log: Log, hw: int, committed: int)
    requires FromZero(log) && hw >= -1
    ensures (forall m :: m in log && m.offset <= committed ==> m in Truncation(log, hw)) <==>
            hw >= committed || hw >= Newest(log)
  {
    var kept := Truncation(log, hw);
    forall m | m in log && m.offset <= hw ensures m in kept {
      var i :| 0 <= i < |log| && log[i] == m;
      assert kept[i] == m;
    }
    assert forall i :: 0 <= i < |kept| ==> kept[i].offset <= hw || kept == log;
    assert hw + 1 < |log| ==> log[hw + 1] in log && log[hw + 1] !in kept;
  }

  lemma CommitAnswers(l: Leader, m: int)
    requires QueueOk(l)
    ensures var k := Commit(l, m);
            forall o :: (o in k.acked <==> o in l.acked || (Pending(o, ALL) in l.queue && o <= m))
                        && (Pending(o, ALL) in k.queue <==> Pending(o, ALL) in l.queue && o > m)
  {
    hide Commit;
    forall o
      ensures o in Commit(l, m).acked <==> o in l.acked || (Pending(o, ALL) in l.queue && o <= m)
      ensures Pending(o, ALL) in Commit(l, m).queue <==> Pending(o, ALL) in l.queue && o > m
    {
      CommitAcknowledges(l, m, o);
    }
  }

  lemma QueueNothing(c: Config, queue: seq<Pending>, batch: seq<Draft>, base: int)
    ensures Enqueue(c, queue, batch[..0], base) == queue
    ensures FastPath(c, batch[..0]) <==> c.replicationFactor == 1
  {}

  lemma QueueNext(c: Config, queue: seq<Pending>, batch: seq<Draft>, base: int, i: nat)
    requires i < |batch|
    ensures Enqueue(c, queue, batch[..i + 1], base) ==
            Enqueue(c, queue, batch[..i], base) +
            (if c.replicationFactor == 1 && batch[i].policy != ALL then [] else [Pending(base + i, batch[i].policy)])
    ensures FastPath(c, batch[..i + 1]) <==> FastPath(c, batch[..i]) && batch[i].policy != ALL
  {
    hide Enqueue;
    EnqueueLast(c, queue, batch[..i + 1], base);
    assert batch[..i + 1][..i] == batch[..i];
    assert forall k :: 0 <= k < i ==> batch[..i][k] == batch[..i + 1][k];
  }

  lemma EnqueueLast(c: Config, queue: seq<Pending>, batch: seq<Draft>, base: int)
    requires batch != []
    ensures var n := |batch| - 1;
            Enqueue(c, queue, batch, base) ==
            Enqueue(c, queue, batch[..n], base) +
            (if c.replicationFactor == 1 && batch[n].policy != ALL then [] else [Pending(base + n, batch[n].policy)])
  {}

  class Partition {
    const config: Config
    var log: Log
    var hw: int
    var isr: map<Id, int>
    var queue: seq<Pending>
    var acked: seq<int>
    var isFollowing: bool

    function AsLeader(): Leader reads this { Leader(log, hw, isr, queue, acked) }

    function AsFollower(): Follower reads this { Follower(log, hw) }

    /** A new partition knows no other replica's offset, and its own log end. */
    constructor (config: Config, log: Log, hw: int, members: set<Id>)
      ensures this.config == config && this.log == log && this.hw == hw && queue == [] && acked == []
      ensures isr.Keys == members
      ensures forall r :: r in isr ==> isr[r] == if r == config.self then Newest(log) else -1
    {
      this.config, this.log, this.hw, queue, acked, isFollowing := config, log, hw, [], [], false;
      isr := map r | r in members :: if r == config.self then Newest(log) else -1;
    }

    method UpdateISRLatestOffset(replica: Id, offset: int) returns (check: bool)
      modifies `isr
      ensures isr == UpdateLatest(old(isr), replica, offset)
      ensures isr.Keys == old(isr).Keys && forall r :: r in isr ==>
                isr[r] == if r == replica then Max(old(isr)[r], offset) else old(isr)[r]
      ensures check <==> isr != old(isr)
    {
      check := false;
      if replica in isr && offset > isr[replica] {
        isr := isr[replica := offset];
        check := true;
      }
    }

    method SetHighWatermark(h: int)
      modifies `hw
      ensures hw == Max(old(hw), h)
    {
      if h > hw { hw := h; }
    }

    method ProcessPendingMessage(offset: int, policy: AckPolicy)
      modifies `queue
      ensures queue == old(queue) + (if config.replicationFactor == 1 && policy != ALL then []
                                     else [Pending(offset, policy)])
    {
      if config.replicationFactor == 1 && policy != ALL { return; }
      queue := queue + [Pending(offset, policy)];
    }

    /** One turn of the message processing loop. */
    method ProcessBatch(batch: seq<Draft>)
      requires batch != []
      modifies this
      ensures AsLeader() == Publish(config, old(AsLeader()), batch)
      ensures Published(config, old(AsLeader()), AsLeader(), batch)
    {
      hide Enqueue;
      hide Published;
      hide FastPath;
      PublishIs(config, AsLeader(), batch);
      var base := |log|;
      log := log + Stamp(Inputs(batch), base);
      QueueNothing(config, queue, batch, base);
      var fast := config.replicationFactor == 1;
      for i := 0 to |batch|
        invariant log == old(log) + Stamp(Inputs(batch), base) && hw == old(hw) && isr == old(isr)
        invariant acked == old(acked)
        invariant queue == Enqueue(config, old(queue), batch[..i], base)
        invariant fast <==> FastPath(config, batch[..i])
      {
        QueueNext(config, old(queue), batch, base, i);
        if batch[i].policy == ALL { fast := false; }
        ProcessPendingMessage(base + i, batch[i].policy);
      }
      assert batch[..|batch|] == batch;
      if fast { SetHighWatermark(Newest(log)); }
      var _ := UpdateISRLatestOffset(config.self, Newest(log));
    }

    /** The ISR minimum the commit loop reads, in whatever order the map is visited;
        nothing when the ISR is too small. */
    method MinLatest() returns (m: Option<int>)
      ensures m.None? <==> |isr| < config.minISR
      ensures m.Some? ==> IsMinLatest(isr, m.value)
    {
      if |isr| < config.minISR { return None; }
      if isr == map[] { return Some(0); }
      var first :| first in isr;
      var least, rest := isr[first], isr.Keys - {first};
      while rest != {}
        invariant rest <= isr.Keys
        invariant exists r :: r in isr && isr[r] == least
        invariant forall r :: r in isr && r !in rest ==> least <= isr[r]
        decreases |rest|
      {
        var r :| r in rest;
        if isr[r] < least { least := isr[r]; }
        rest := rest - {r};
      }
      m := Some(least);
    }

    /** The rest of a turn of the commit loop: take what is committed off the queue,
        raise the high watermark, acknowledge. */
    method CommitUpTo(minLatest: int)
      modifies this
      ensures AsLeader() == Commit(old(AsLeader()), minLatest)
      ensures hw == Max(old(hw), minLatest) && log == old(log) && isr == old(isr)
      ensures QueueOk(old(AsLeader())) ==> forall o ::
                && (o in acked <==> o in old(acked) || (Pending(o, ALL) in old(queue) && o <= minLatest))
                && (Pending(o, ALL) in queue <==> Pending(o, ALL) in old(queue) && o > minLatest)
    {
      CommittableBound(queue, minLatest);
      var n := TakeUntil(minLatest);
      var committed := queue[..n];
      queue := queue[n..];
      SetHighWatermark(minLatest);
      for i := 0 to |committed|
        invariant queue == old(queue)[n..] && hw == Max(old(hw), minLatest) && log == old(log) && isr == old(isr)
        invariant acked == old(acked) + AcksOf(committed[..i])
      {
        assert committed[..i + 1][..i] == committed[..i];
        if committed[i].policy == ALL { acked := acked + [committed[i].offset]; }
      }
      assert committed[..|committed|] == committed;
      if QueueOk(old(AsLeader())) { CommitAnswers(old(AsLeader()), minLatest); }
    }

    method TakeUntil(minLatest: int) returns (n: nat)
      ensures n == Committable(queue, minLatest)
    {
      n := 0;
      while n < |queue| && queue[n].offset <= minLatest
        invariant n <= |queue|
        invariant Committable(queue, minLatest) == n + Committable(queue[n..], minLatest)
      {
        assert queue[n..][1..] == queue[n + 1..];
        n := n + 1;
      }
    }

    /** In every cluster it leads, the partition takes the step that shrinks the ISR. */
    method RemoveFromISR(replica: Id) returns (ok: bool)
      modifies `isr
      ensures ok <==> replica in config.followers + {config.self}
      ensures forall s: Cluster :: s.leader == old(AsLeader()) ==>
                Apply(config, s, ShrinkISR(replica)) == s.(leader := AsLeader())
    {
      ok := replica in config.followers + {config.self};
      if ok { isr := isr - {replica}; }
    }

    /** The step that expands it: a replica that rejoins starts again at offset -1. */
    method AddToISR(replica: Id) returns (ok: bool)
      modifies `isr
      ensures ok <==> replica in config.followers + {config.self}
      ensures forall s: Cluster :: s.leader == old(AsLeader()) ==>
                Apply(config, s, ExpandISR(replica)) == s.(leader := AsLeader())
    {
      ok := replica in config.followers + {config.self};
      if ok { isr := isr[replica := -1]; }
    }

    /** Becoming a follower: three tries for an answer, then truncation behind it, or at the
        high watermark if an error or a third timeout comes first. An answer that is the
        leader's cuts the log where the truncation theorems say. */
    method TruncateUncommitted(replies: seq<Reply>)
      requires FromZero(log) && |replies| == 3
      modifies `log
      ensures forall k :: 0 <= k < 3 && replies[k].Answered? && (forall j :: 0 <= j < k ==> replies[j].TimedOut?) ==>
                log == Before(old(log), replies[k].offset + 1)
      ensures (forall k :: 0 <= k < 3 && replies[k].Answered? ==> exists j :: 0 <= j < k && replies[j].Failed?) ==>
                log == Before(old(log), hw + 1)
      ensures forall k, leader, cache, epoch ::
                0 <= k < 3 && replies[k] == Answered(Answer(leader, cache, epoch)) &&
                (forall j :: 0 <= j < k ==> replies[j].TimedOut?) ==>
                  log == Truncation(old(log), Answer(leader, cache, epoch))
    {
      hide Before;
      hide Truncation;
      hide Answer;
      hide FromZero;
      var i := 0;
      while i < 3 && replies[i].TimedOut?
        invariant i <= 3 && forall j :: 0 <= j < i ==> replies[j].TimedOut?
      {
        i := i + 1;
      }
      if i < 3 && replies[i].Answered? {
        TruncationIsBefore(log, replies[i].offset);
        log := Before(log, replies[i].offset + 1);
      } else {
        TruncateToHW();
      }
    }

    method TruncateToHW()
      requires FromZero(log)
      modifies `log
      ensures log == Before(old(log), hw + 1)
    {
      TruncationIsBefore(log, hw);
      if Newest(log) != hw { log := Before(log, hw + 1); }
    }

    /** The follower's side: a response of another epoch is dropped; otherwise the high
        watermark follows and messages that extend the log are appended. */
    method HandleReplicationResponse(epoch: Epoch, leaderHW: int, msgs: Log) returns (n: nat)
      modifies `log, `hw
      ensures AsFollower() == if isFollowing && epoch == config.epoch then Receive(old(AsFollower()), leaderHW, msgs)
                              else old(AsFollower())
      ensures |log| == |old(log)| + n
    {
      if !isFollowing || epoch != config.epoch { return 0; }
      SetHighWatermark(leaderHW);
      if msgs == [] || msgs[0].offset < Newest(log) + 1 { return 0; }
      log := log + msgs;
      n := |msgs|;
    }
  }

  /** The batch built for a fetch: a run of messages behind the offset, as long as it can
      be without passing the size bound. It is empty, and the follower does not advance,
      exactly when nothing follows the offset or the next message alone does not fit. */
  method Replicate(log: Log, offset: int, maxBytes: int) returns (batch: Log)
    requires -1 <= offset < |log|
    ensures batch == Batch(log, offset, |batch|)
    ensures batch != [] ==> RESPONSE_OVERHEAD + Bytes(batch) <= maxBytes
    ensures var next := offset + 1 + |batch|;
            next < |log| ==> RESPONSE_OVERHEAD + Bytes(batch) + HEADER_LEN + log[next].size > maxBytes
    ensures batch == [] <==>
            offset == Newest(log) || RESPONSE_OVERHEAD + HEADER_LEN + log[offset + 1].size > maxBytes
  {
    batch := [];
    var length, next := RESPONSE_OVERHEAD, offset + 1;
    while next < |log| && length < maxBytes
      invariant next == offset + 1 + |batch| <= |log|
      invariant batch == log[offset + 1..next]
      invariant length == RESPONSE_OVERHEAD + Bytes(batch)
      invariant batch != [] ==> length <= maxBytes
      invariant batch != [] ==> RESPONSE_OVERHEAD + HEADER_LEN + log[offset + 1].size <= maxBytes
    {
      var m := log[next];
      if m.size + HEADER_LEN + length > maxBytes { break; }
      assert (batch + [m])[..|batch|] == batch;
      batch := batch + [m];
      length := length + HEADER_LEN + m.size;
      next := next + 1;
    }
  }
}
