/** When exactly the commits of a leader epoch are safe: what has to hold of the minimum ISR
    size, of the offsets recorded in the ISR and of the replication factor for every run to
    keep its promises. */
module CommitConditions {
  import opened Wrappers
  import opened Collections
  import opened Messages
  import opened CommitLogs
  import opened EpochTruncation
  import opened Replication

  // ----- the minimum ISR size -----

  /** A commit leaves the watermark in the log if and only if it read a member or the log
      has a message: the minimum over an empty ISR is 0. */
  lemma CommitInLogIff(c: Config, s: Cluster)
    requires s.snapshot.Some? && IsMinLatest(s.snapshot.value.isr, s.snapshot.value.minLatest)
    requires OffsetsReached(c, s, s.snapshot.value.isr) && s.leader.hw <= Newest(s.leader.log)
    requires forall r :: r in s.followers ==> s.followers[r].log <= s.leader.log
    ensures Apply(c, s, CommitISR).leader.hw <= Newest(s.leader.log) <==>
            s.snapshot.value.isr != map[] || s.leader.log != []
  {
    hide Committable;
    hide AcksOf;
    var snap := s.snapshot.value;
    if snap.isr != map[] {
      var r :| r in snap.isr && snap.isr[r] == snap.minLatest;
      assert LogOf(c, s, r) <= s.leader.log;
    }
  }

  ghost predicate InLogAfter(c: Config, s: Cluster, steps: seq<Step>) {
    Run(c, s, steps).leader.hw <= Newest(Run(c, s, steps).leader.log)
  }

  /** The whole ISR can be shrunk away. */
  lemma {:induction false} ShrinkAll(c: Config, s: Cluster, rs: set<Id>) returns (steps: seq<Step>)
    requires rs <= c.followers + {c.self}
    ensures Run(c, s, steps) == s.(leader := s.leader.(isr := s.leader.isr - rs))
    decreases |rs|
  {
    hide Run;
    hide Apply;
    if rs == {} {
      steps := [];
      RunNone(c, s);
      assert s.leader.isr - rs == s.leader.isr;
    } else {
      var r :| r in rs;
      var before := ShrinkAll(c, s, rs - {r});
      steps := before + [ShrinkISR(r)];
      RunConcat(c, s, before, [ShrinkISR(r)]);
      RunOne(c, Run(c, s, before), ShrinkISR(r));
      ShrinkOne(c, Run(c, s, before), r);
      assert s.leader.isr - (rs - {r}) - {r} == s.leader.isr - rs;
    }
  }

  lemma ShrinkOne(c: Config, s: Cluster, r: Id)
    requires r in c.followers + {c.self}
    ensures Apply(c, s, ShrinkISR(r)) == s.(leader := s.leader.(isr := s.leader.isr - {r}))
  {}

  lemma EmptyISRCommits(c: Config, s: Cluster)
    requires c.minISR <= 0 && s.leader.isr == map[]
    ensures Run(c, s, [ReadISR(0), CommitISR]).leader.hw == Max(s.leader.hw, 0)
    ensures Run(c, s, [ReadISR(0), CommitISR]).leader.log == s.leader.log
  {
    var steps := [ReadISR(0), CommitISR];
    RunAt(c, s, steps, 0);
    RunAt(c, s, steps, 1);
    assert steps[..2] == steps;
  }

  /** In every run the watermark stays in the log, if and only if the minimum ISR size is
      positive or the log is not empty at the start. */
  lemma WatermarkInLogIff(c: Config, s: Cluster)
    requires Starts(c, s) && OffsetsReached(c, s, s.leader.isr) && s.leader.isr.Keys <= c.followers + {c.self}
    ensures c.minISR >= 1 || s.leader.log != [] <==> forall steps :: InLogAfter(c, s, steps)
  {
    hide Starts;
    hide Run;
    hide Apply;
    if c.minISR >= 1 || s.leader.log != [] {
      forall steps ensures InLogAfter(c, s, steps) { RunSafety(c, s, steps); }
    } else {
      var shrinks := ShrinkAll(c, s, s.leader.isr.Keys);
      assert s.leader.isr - s.leader.isr.Keys == map[];
      RunConcat(c, s, shrinks, [ReadISR(0), CommitISR]);
      EmptyISRCommits(c, Run(c, s, shrinks));
      assert !InLogAfter(c, s, shrinks + [ReadISR(0), CommitISR]);
    }
  }

  /** If a step raises the watermark, enough replicas were in sync: those that the commit
      loop read, or the ISR as it is. */
  ghost predicate RaisedInSync(c: Config, s: Cluster, step: Step) {
    Apply(c, s, step).leader.hw > s.leader.hw ==>
      || |s.leader.isr| >= c.minISR
      || (step == CommitISR && s.snapshot.Some? && |s.snapshot.value.isr| >= c.minISR)
  }

  /** The minimum ISR size is respected by every rise of the watermark, in every run, if and
      only if the replication factor is not 1 or there is no minimum. */
  lemma MinISRRespectedIff(c: Config, s: Cluster)
    requires Init(c, s) && s.leader.isr.Keys <= c.followers + {c.self}
    ensures c.replicationFactor != 1 || c.minISR <= 0 <==>
            forall steps, step :: RaisedInSync(c, Run(c, s, steps), step)
  {
    hide Run;
    if c.replicationFactor != 1 || c.minISR <= 0 {
      forall steps, step ensures RaisedInSync(c, Run(c, s, steps), step) {
        RunSafety(c, s, steps);
        OnlyCommitsRaise(c, Run(c, s, steps), step);
      }
    } else {
      var shrinks := ShrinkAll(c, s, s.leader.isr.Keys);
      assert s.leader.isr - s.leader.isr.Keys == map[];
      FastPathRaises(c, Run(c, s, shrinks));
    }
  }

  lemma OnlyCommitsRaise(c: Config, s: Cluster, step: Step)
    requires Inv(c, s) && (c.replicationFactor != 1 || c.minISR <= 0)
    ensures RaisedInSync(c, s, step)
  {
    hide Committable;
    hide AcksOf;
    hide Enqueue;
    hide QueueOk;
    hide ResponseOk;
    hide RequestOk;
  }

  function Unacked(c: Config): Step { PublishBatch([Draft(Input(1, c.epoch, None, "", 0, -1), NONE)]) }

  lemma FastPathRaises(c: Config, s: Cluster)
    requires c.replicationFactor == 1 && c.minISR >= 1 && s.leader.isr == map[] && s.leader.hw <= Newest(s.leader.log)
    ensures !RaisedInSync(c, s, Unacked(c))
  {
    hide Enqueue;
  }

  // ----- the recorded offsets -----

  /** If a commit raises the watermark, every member of the ISR it read holds the leader's
      messages up to there. */
  ghost predicate CommitHeld(c: Config, a: Cluster) {
    a.snapshot.Some? && Apply(c, a, CommitISR).leader.hw > a.leader.hw ==>
      AllHold(c, a, a.snapshot.value.isr.Keys, Upto(a.leader.log, Apply(c, a, CommitISR).leader.hw))
      && Apply(c, a, CommitISR).leader.hw <= Newest(a.leader.log)
  }

  ghost predicate HeldAfter(c: Config, s: Cluster, steps: seq<Step>) { CommitHeld(c, Run(c, s, steps)) }

  lemma CommitsAreHeld(c: Config, s: Cluster, steps: seq<Step>)
    requires Init(c, s)
    ensures HeldAfter(c, s, steps)
  {
    hide Init;
    hide Inv;
    hide Run;
    hide Apply;
    var a := Run(c, s, steps);
    RunSafety(c, s, steps);
    if a.snapshot.Some? && Apply(c, a, CommitISR).leader.hw > a.leader.hw { CommitRaises(c, a); }
  }

  ghost predicate OffsetsReal(c: Config, s: Cluster) {
    forall r :: r in s.leader.isr ==> s.leader.isr[r] <= Newest(LogOf(c, s, r))
  }

  lemma StepStaysReal(c: Config, s: Cluster, step: Step)
    requires Inv(c, s) && OffsetsReal(c, s)
    ensures OffsetsReal(c, Apply(c, s, step))
  {
    hide Inv;
    hide LogOf;
    hide Enqueue;
    hide Committable;
    hide AcksOf;
    StepKeeps(c, s, step);
    var z := Apply(c, s, step);
    LogsGrow(c, s, z);
    forall r | r in z.leader.isr ensures z.leader.isr[r] <= Newest(LogOf(c, z, r)) {
      LeaderLog(c, z);
      if step.Serve? && step.request in s.requests && Accepted(c, step.request) { RequestIsReal(c, s, step.request); }
      if r in s.leader.isr { assert s.leader.isr[r] <= Newest(LogOf(c, s, r)); }
    }
  }

  lemma RequestIsReal(c: Config, s: Cluster, q: Request)
    requires Inv(c, s) && q in s.requests && Accepted(c, q)
    ensures q.offset <= Newest(LogOf(c, s, q.replica))
  {
    assert RequestOk(s, q);
  }

  /** Offsets that are real at the start stay real. */
  lemma {:induction false} OffsetsStayReal(c: Config, s: Cluster, steps: seq<Step>)
    requires Init(c, s) && OffsetsReal(c, s)
    ensures OffsetsReal(c, Run(c, s, steps))
  {
    hide Init;
    hide Inv;
    hide Apply;
    hide OffsetsReal;
    if steps != [] {
      var n := |steps| - 1;
      OffsetsStayReal(c, s, steps[..n]);
      RunSafety(c, s, steps[..n]);
      StepStaysReal(c, Run(c, s, steps[..n]), steps[n]);
    }
  }

  /** A follower fetches twice: it gets the rest of the log, then tells that it has it. */
  lemma Sync(c: Config, s: Cluster, r: Id) returns (steps: seq<Step>)
    requires r in c.followers && s.followers.Keys == c.followers && FromZero(s.leader.log)
    requires s.followers[r].log < s.leader.log
    ensures var z := Run(c, s, steps);
            && z.leader == s.leader.(isr := UpdateLatest(s.leader.isr, r, Newest(s.leader.log)))
            && z.snapshot == s.snapshot && z.followers.Keys == s.followers.Keys && z.followers[r].log == s.leader.log
            && forall x :: x in s.followers && x != r ==> z.followers[x] == s.followers[x]
  {
    hide Run;
    hide Apply;
    var f, log := s.followers[r], s.leader.log;
    var q1, q2 := Request(r, Newest(f.log), c.epoch), Request(r, Newest(log), c.epoch);
    var n := |log| - |f.log|;
    var p := Response(r, c.epoch, s.leader.hw, log[|f.log|..]);
    steps := [Fetch(r), Serve(q1, n), Deliver(p), Fetch(r), Serve(q2, 0)];
    RunAt(c, s, steps, 0);
    Fetches(c, s, r);
    RunAt(c, s, steps, 1);
    Serves(c, Run(c, s, steps[..1]), q1, n);
    assert Batch(log, Newest(f.log), n) == log[|f.log|..];
    RunAt(c, s, steps, 2);
    Delivers(c, Run(c, s, steps[..2]), p);
    RunAt(c, s, steps, 3);
    Fetches(c, Run(c, s, steps[..3]), r);
    RunAt(c, s, steps, 4);
    Serves(c, Run(c, s, steps[..4]), q2, 0);
    assert steps[..5] == steps;
  }

  lemma Fetches(c: Config, s: Cluster, r: Id)
    requires r in s.followers
    ensures Apply(c, s, Fetch(r)) == s.(requests := s.requests + {Request(r, Newest(s.followers[r].log), c.epoch)})
  {}

  lemma Serves(c: Config, s: Cluster, q: Request, n: nat)
    requires q in s.requests && q.epoch == c.epoch && q.replica in c.followers
    ensures Apply(c, s, Serve(q, n)) ==
            s.(leader := s.leader.(isr := UpdateLatest(s.leader.isr, q.replica, q.offset)),
               responses := s.responses + {Response(q.replica, c.epoch, s.leader.hw, Batch(s.leader.log, q.offset, n))})
  {}

  lemma Delivers(c: Config, s: Cluster, p: Response)
    requires p in s.responses && p.to in s.followers && p.epoch == c.epoch
    requires FromZero(s.leader.log) && s.followers[p.to].log < s.leader.log
    requires p.msgs == s.leader.log[|s.followers[p.to].log|..]
    ensures var z := Apply(c, s, Deliver(p));
            && z == s.(followers := z.followers) && z.followers.Keys == s.followers.Keys
            && z.followers[p.to].log == s.leader.log
            && forall x :: x in s.followers && x != p.to ==> z.followers[x] == s.followers[x]
  {
    assert p.msgs[0] == s.leader.log[|s.followers[p.to].log|];
  }

  /** Any followers can be brought up to the leader while the others do nothing. */
  lemma {:induction false} SyncAll(c: Config, s: Cluster, rs: set<Id>) returns (steps: seq<Step>)
    requires rs <= c.followers && s.followers.Keys == c.followers && FromZero(s.leader.log)
    requires forall r :: r in rs ==> s.followers[r].log < s.leader.log
    ensures var z := Run(c, s, steps);
            && z.leader == s.leader.(isr := z.leader.isr) && z.leader.isr.Keys == s.leader.isr.Keys
            && z.snapshot == s.snapshot && z.followers.Keys == s.followers.Keys
            && (forall x :: x in s.leader.isr && x in rs ==> z.leader.isr[x] >= Newest(s.leader.log))
            && (forall x :: x in s.leader.isr && x !in rs ==> z.leader.isr[x] == s.leader.isr[x])
            && (forall x :: x in s.followers && x !in rs ==> z.followers[x] == s.followers[x])
    decreases |rs|
  {
    hide Run;
    if rs == {} {
      steps := [];
      RunNone(c, s);
    } else {
      var r :| r in rs;
      var before := SyncAll(c, s, rs - {r});
      var a := Run(c, s, before);
      var more := Sync(c, a, r);
      steps := before + more;
      RunConcat(c, s, before, more);
    }
  }

  lemma {:induction false} MinOf(isr: map<Id, int>) returns (m: int)
    requires isr != map[]
    ensures IsMinLatest(isr, m)
    decreases |isr|
  {
    var r :| r in isr;
    var rest := isr - {r};
    if rest == map[] {
      m := isr[r];
      assert forall x :: x in isr && x != r ==> x in rest;
    } else {
      var k := MinOf(rest);
      var x :| x in rest && rest[x] == k;
      m := if k < isr[r] then k else isr[r];
      forall y | y in isr ensures m <= isr[y] { if y != r { assert y in rest; } }
      assert isr[x] == k;
    }
  }

  /** With an offset above both a member's log and the watermark, a run commits what that
      member does not hold. */
  lemma StaleCommits(c: Config, s: Cluster, q: Id) returns (steps: seq<Step>)
    requires Starts(c, s) && s.leader.isr.Keys <= c.followers + {c.self} && |s.leader.isr| >= c.minISR
    requires q in s.leader.isr && q in c.followers
    requires s.leader.isr[q] > Newest(s.followers[q].log) && s.leader.isr[q] > s.leader.hw
    ensures !HeldAfter(c, s, steps)
  {
    hide Run;
    hide Apply;
    hide IsMinLatest;
    var publish := PublishBatch(OneMessage(c.epoch));
    var a := Apply(c, s, publish);
    PublishesOne(c, s);
    var rs := (s.leader.isr.Keys - {q}) * c.followers;
    var syncs := SyncAll(c, a, rs);
    var z := Run(c, a, syncs);
    assert z.leader.isr.Keys == s.leader.isr.Keys;
    SameSize(z.leader.isr, s.leader.isr);
    var m := MinOf(z.leader.isr);
    MinAbove(z.leader.isr, m, Max(Newest(s.followers[q].log), s.leader.hw));
    ReadsISR(c, z, m);
    steps := [publish] + syncs + [ReadISR(m)];
    RunConcat(c, s, [publish] + syncs, [ReadISR(m)]);
    RunConcat(c, s, [publish], syncs);
    RunOne(c, s, publish);
    RunOne(c, z, ReadISR(m));
    var b := Run(c, s, steps);
    CommitsRead(c, b);
    NotHeld(c, b, q);
  }

  lemma SameSize(a: map<Id, int>, b: map<Id, int>)
    requires a.Keys == b.Keys
    ensures |a| == |b|
  {
    assert |a| == |a.Keys| && |b| == |b.Keys|;
  }

  lemma MinAbove(isr: map<Id, int>, m: int, x: int)
    requires isr != map[] && IsMinLatest(isr, m) && forall r :: r in isr ==> isr[r] > x
    ensures m > x
  {}

  lemma NotHeld(c: Config, b: Cluster, q: Id)
    requires b.snapshot.Some? && q in b.snapshot.value.isr && b.snapshot.value.minLatest > b.leader.hw
    requires Apply(c, b, CommitISR).leader.hw == b.snapshot.value.minLatest
    requires b.snapshot.value.minLatest > Newest(LogOf(c, b, q))
    ensures !CommitHeld(c, b)
  {
    hide Apply;
  }

  /** In every run every commit covers only what each member of the ISR it read holds, if and
      only if no follower's recorded offset is above both its log and the watermark at the
      start. becomeLeader does not reset the offsets left from an earlier leadership. */
  lemma CommitsHeldIff(c: Config, s: Cluster)
    requires Starts(c, s) && (c.minISR >= 1 || s.leader.log != [])
    requires s.leader.isr.Keys <= c.followers + {c.self} && |s.leader.isr| >= c.minISR
    requires c.self in s.leader.isr ==> s.leader.isr[c.self] <= Newest(s.leader.log)
    ensures (forall r :: r in s.leader.isr && r in c.followers ==>
               s.leader.isr[r] <= Newest(s.followers[r].log) || s.leader.isr[r] <= s.leader.hw) <==>
            forall steps :: HeldAfter(c, s, steps)
  {
    hide HeldAfter;
    if forall r :: r in s.leader.isr && r in c.followers ==>
         s.leader.isr[r] <= Newest(s.followers[r].log) || s.leader.isr[r] <= s.leader.hw {
      assert OffsetsReached(c, s, s.leader.isr);
      forall steps ensures HeldAfter(c, s, steps) { CommitsAreHeld(c, s, steps); }
    } else {
      var q :| q in s.leader.isr && q in c.followers
               && s.leader.isr[q] > Newest(s.followers[q].log) && s.leader.isr[q] > s.leader.hw;
      var steps := StaleCommits(c, s, q);
      assert !HeldAfter(c, s, steps);
    }
  }
}
