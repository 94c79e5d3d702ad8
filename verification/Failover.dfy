/** Leader epochs without rounds: replicas take over leadership, follow a leader and truncate
    to its answer, and fetch from it, each in its own time. A former leader may go on
    writing, and a replica may miss any number of epochs. */
module Failover {
  import opened Wrappers
  import opened Messages
  import opened EpochCache
  import opened CommitLogs
  import opened EpochTruncation

  type Id = string

  /** `epoch`: the latest one the replica leads or follows, 0 for none. */
  datatype Replica = Replica(log: Log, cache: Entries, epoch: Epoch)

  /** `written` is what the leader of each epoch had when it stopped leading, or has. */
  datatype Net = Net(replicas: map<Id, Replica>, leaders: map<Epoch, Id>, written: map<Epoch, Log>)

  datatype Step =
    | Elect(r: Id, epoch: Epoch)
    | Publish(r: Id, ms: Log)
    | Follow(r: Id, epoch: Epoch)
    | Replicate(r: Id, count: nat)

  /** Replica `r` of epoch `e` follows a leader that still leads it. */
  ghost predicate Follows(s: Net, r: Id, e: Epoch) {
    && r in s.replicas && e in s.leaders && s.leaders[e] != r
    && s.leaders[e] in s.replicas && s.replicas[s.leaders[e]].epoch == e
  }

  ghost predicate Leads(s: Net, r: Id) {
    r in s.replicas && s.replicas[r].epoch in s.leaders && s.leaders[s.replicas[r].epoch] == r
  }

  ghost predicate Enabled(s: Net, step: Step) {
    match step
    case Elect(r, e) => r in s.replicas && 0 < e < UINT64 - 1 && forall x :: x in s.leaders ==> x < e
    case Publish(r, ms) =>
      && Leads(s, r) && ms != []
      && forall i :: 0 <= i < |ms| ==>
           ms[i].offset == |s.replicas[r].log| + i && ms[i].leaderEpoch == s.replicas[r].epoch
    case Follow(r, e) => Follows(s, r, e) && e >= s.replicas[r].epoch
    case Replicate(r, n) =>
      && r in s.replicas && Follows(s, r, s.replicas[r].epoch) && n > 0
      && |s.replicas[r].log| + n <= |s.replicas[s.leaders[s.replicas[r].epoch]].log|
  }

  /** What the leader of `e` answers the follower about its latest epoch. */
  ghost function AnswerTo(s: Net, r: Id, e: Epoch): int
    requires Follows(s, r, e)
  {
    var l := s.replicas[s.leaders[e]];
    Answer(l.log, l.cache, LatestEpoch(s.replicas[r].cache))
  }

  /** Truncation to an answer, with the cache cleared behind the cut. */
  function Cut(f: Replica, answer: int, e: Epoch): Replica {
    if answer + 1 < |f.log|
    then Replica(Truncation(f.log, answer), ClearedLatest(f.cache, answer + 1), e)
    else f.(epoch := e)
  }

  function Extended(f: Replica, ms: Log): Replica {
    f.(log := f.log + ms, cache := Observed(f.cache, LatestEpoch(f.cache), ms))
  }

  ghost function Apply(s: Net, step: Step): Net {
    if !Enabled(s, step) then s
    else match step
      case Elect(r, e) =>
        var f := s.replicas[r];
        var l := Replica(f.log, Assigned(f.cache, e, |f.log| - 1), e);
        Net(s.replicas[r := l], s.leaders[e := r], s.written[e := f.log])
      case Publish(r, ms) =>
        var f := Extended(s.replicas[r], ms);
        s.(replicas := s.replicas[r := f], written := s.written[f.epoch := f.log])
      case Follow(r, e) => s.(replicas := s.replicas[r := Cut(s.replicas[r], AnswerTo(s, r, e), e)])
      case Replicate(r, n) =>
        var f, l := s.replicas[r], s.replicas[s.leaders[s.replicas[r].epoch]];
        s.(replicas := s.replicas[r := Extended(f, l.log[|f.log|..|f.log| + n])])
  }

  ghost function Run(s: Net, steps: seq<Step>): Net {
    if steps == [] then s else Apply(Run(s, steps[..|steps| - 1]), steps[|steps| - 1])
  }

  /** Empty replicas, nobody elected. */
  ghost predicate Init(s: Net) {
    && s.leaders == map[] && s.written == map[]
    && forall r :: r in s.replicas ==> s.replicas[r] == Replica([], [], 0)
  }

  // ----- logs -----

  function History(s: Net): Epoch -> Log { e => if e in s.written then s.written[e] else [] }

  /** Every replica's log came from the leaders of its messages, and a replica has no more
      than the leader it follows. */
  ghost predicate LogInv(s: Net) {
    && s.leaders.Keys == s.written.Keys && 0 !in s.leaders
    && (forall e :: e in s.leaders ==> s.leaders[e] in s.replicas)
    && (forall r :: r in s.replicas ==> FromLeaders(History(s), s.replicas[r].log) && FromZero(s.replicas[r].log))
    && (forall r :: r in s.replicas && s.replicas[r].epoch != 0 ==>
          s.replicas[r].epoch in s.written && s.replicas[r].log <= s.written[s.replicas[r].epoch])
    && (forall r :: Leads(s, r) ==> s.written[s.replicas[r].epoch] == s.replicas[r].log)
  }

  lemma FromLeadersPrefix(history: Epoch -> Log, log: Log, p: Log)
    requires FromLeaders(history, log) && p <= log
    ensures FromLeaders(history, p)
  {
    forall i | 0 <= i < |p|
      ensures i < |history(p[i].leaderEpoch)| && p[..i + 1] == history(p[i].leaderEpoch)[..i + 1]
    {
      assert p[i] == log[i] && p[..i + 1] == log[..i + 1];
    }
  }

  /** Histories that only grow keep what came from them. */
  lemma FromLeadersGrows(h: Epoch -> Log, h': Epoch -> Log, log: Log)
    requires FromLeaders(h, log) && forall e :: h(e) <= h'(e)
    ensures FromLeaders(h', log)
  {
    forall i | 0 <= i < |log|
      ensures i < |h'(log[i].leaderEpoch)| && log[..i + 1] == h'(log[i].leaderEpoch)[..i + 1]
    {
      var e := log[i].leaderEpoch;
      assert h(e) <= h'(e);
      assert h(e)[..i + 1] == h'(e)[..i + 1];
    }
  }

  /** A log that is what the leader of its last messages wrote. */
  lemma FromLeadersPush(h: Epoch -> Log, log: Log, ms: Log, e: Epoch)
    requires FromLeaders(h, log) && log + ms <= h(e) && forall i :: 0 <= i < |ms| ==> ms[i].leaderEpoch == e
    ensures FromLeaders(h, log + ms)
  {
    var l := log + ms;
    forall i | 0 <= i < |l| ensures i < |h(l[i].leaderEpoch)| && l[..i + 1] == h(l[i].leaderEpoch)[..i + 1] {
      if i < |log| { assert l[..i + 1] == log[..i + 1]; } else { assert l[i] == ms[i - |log|]; }
    }
  }

  /** What a follower keeps is nothing, or ends with a message of the same epoch as the
      leader's there. */
  ghost predicate Aligned(s: Net, step: Step) {
    Enabled(s, step) && step.Follow? ==>
      var f, l := s.replicas[step.r].log, s.replicas[s.leaders[step.epoch]].log;
      var n := |Truncation(f, AnswerTo(s, step.r, step.epoch))|;
      n == 0 || (n <= |l| && f[n - 1].leaderEpoch == l[n - 1].leaderEpoch)
  }

  lemma CutLog(f: Replica, answer: int, e: Epoch)
    ensures Cut(f, answer, e).log == Truncation(f.log, answer) <= f.log && Cut(f, answer, e).epoch == e
  {}

  /** What is kept is a prefix of the leader's log exactly then. */
  lemma AlignedIff(h: Epoch -> Log, f: Log, l: Log, answer: int)
    requires FromLeaders(h, f) && FromLeaders(h, l)
    ensures var n := |Truncation(f, answer)|;
            Truncation(f, answer) <= l <==> n == 0 || (n <= |l| && f[n - 1].leaderEpoch == l[n - 1].leaderEpoch)
  {
    var kept := Truncation(f, answer);
    var n := |kept|;
    assert kept == f[..n];
    if n > 0 && n <= |l| && f[n - 1].leaderEpoch == l[n - 1].leaderEpoch { LogMatching(h, f, l, n - 1); }
    if n > 0 && kept <= l { assert kept[n - 1] == f[n - 1] && l[..n][n - 1] == l[n - 1]; }
  }

  lemma ElectKeeps(s: Net, r: Id, e: Epoch)
    requires LogInv(s) && Enabled(s, Elect(r, e))
    ensures LogInv(Apply(s, Elect(r, e)))
  {
    hide FromLeaders;
    hide FromZero;
    hide Assigned;
    var z := Apply(s, Elect(r, e));
    assert e !in s.leaders;
    forall x ensures History(s)(x) <= History(z)(x) {}
    forall q | q in z.replicas ensures FromLeaders(History(z), z.replicas[q].log) && FromZero(z.replicas[q].log) {
      FromLeadersGrows(History(s), History(z), s.replicas[q].log);
    }
    forall q | Leads(z, q) ensures z.written[z.replicas[q].epoch] == z.replicas[q].log {
      if q != r { assert Leads(s, q); }
    }
  }

  lemma FromZeroPush(s: Net, r: Id, ms: Log)
    requires Enabled(s, Publish(r, ms)) && FromZero(s.replicas[r].log)
    ensures FromZero(s.replicas[r].log + ms)
  {}

  lemma PublishKeeps(s: Net, r: Id, ms: Log)
    requires LogInv(s) && Enabled(s, Publish(r, ms))
    ensures LogInv(Apply(s, Publish(r, ms)))
  {
    hide FromLeaders;
    hide FromZero;
    hide Observed;
    var z := Apply(s, Publish(r, ms));
    var e := s.replicas[r].epoch;
    FromZeroPush(s, r, ms);
    forall x ensures History(s)(x) <= History(z)(x) {}
    forall q | q in z.replicas ensures FromLeaders(History(z), z.replicas[q].log) && FromZero(z.replicas[q].log) {
      FromLeadersGrows(History(s), History(z), s.replicas[q].log);
      if q == r { FromLeadersPush(History(z), s.replicas[r].log, ms, e); }
    }
    forall q | Leads(z, q) ensures z.written[z.replicas[q].epoch] == z.replicas[q].log {
      if q != r { assert Leads(s, q); }
    }
  }

  /** One replica takes another log that is a prefix of what its epoch's leader wrote. */
  lemma ReplaceKeeps(s: Net, z: Net, r: Id, f: Replica)
    requires LogInv(s) && z == s.(replicas := s.replicas[r := f]) && r in s.replicas
    requires Follows(s, r, f.epoch) && f.epoch >= s.replicas[r].epoch
    requires f.log <= s.written[f.epoch] && FromLeaders(History(s), f.log) && FromZero(f.log)
    ensures LogInv(z)
  {
    hide FromLeaders;
    hide FromZero;
    assert History(z) == History(s) by { assert forall e :: History(z)(e) == History(s)(e); }
  }

  lemma Known(s: Net, r: Id)
    requires LogInv(s) && r in s.replicas
    ensures FromLeaders(History(s), s.replicas[r].log) && FromZero(s.replicas[r].log)
    ensures s.replicas[r].epoch != 0 ==>
              s.replicas[r].epoch in s.written && s.replicas[r].log <= s.written[s.replicas[r].epoch]
  {}

  lemma LeaderWrote(s: Net, r: Id, e: Epoch)
    requires LogInv(s) && Follows(s, r, e)
    ensures e != 0 && e in s.written && s.written[e] == s.replicas[s.leaders[e]].log
  {
    assert Leads(s, s.leaders[e]);
  }

  lemma FollowKeepsIff(s: Net, r: Id, e: Epoch)
    requires LogInv(s) && Enabled(s, Follow(r, e))
    ensures LogInv(Apply(s, Follow(r, e))) <==> Aligned(s, Follow(r, e))
  {
    hide Cut;
    hide Truncation;
    hide LogInv;
    hide FromLeaders;
    hide FromZero;
    hide AnswerTo;
    var f, l, answer := s.replicas[r], s.replicas[s.leaders[e]], AnswerTo(s, r, e);
    var g, z := Cut(f, answer, e), Apply(s, Follow(r, e));
    CutLog(f, answer, e);
    Known(s, r);
    Known(s, s.leaders[e]);
    LeaderWrote(s, r, e);
    AlignedIff(History(s), f.log, l.log, answer);
    if g.log <= l.log {
      FromLeadersPrefix(History(s), f.log, g.log);
      FromZeroPrefix(f.log, g.log);
      ReplaceKeeps(s, z, r, g);
    } else if LogInv(z) {
      Known(z, r);
    }
  }

  lemma FromZeroPrefix(log: Log, p: Log)
    requires FromZero(log) && p <= log
    ensures FromZero(p)
  {}

  lemma ReplicateKeeps(s: Net, r: Id, n: nat)
    requires LogInv(s) && Enabled(s, Replicate(r, n))
    ensures LogInv(Apply(s, Replicate(r, n)))
  {
    hide Observed;
    hide FromLeaders;
    var f, l := s.replicas[r], s.replicas[s.leaders[s.replicas[r].epoch]];
    assert Leads(s, s.leaders[f.epoch]);
    var ms := l.log[|f.log|..|f.log| + n];
    assert f.log + ms == l.log[..|f.log| + n];
    FromLeadersPrefix(History(s), l.log, f.log + ms);
    ReplaceKeeps(s, Apply(s, Replicate(r, n)), r, Extended(f, ms));
  }

  lemma StepKeepsIff(s: Net, step: Step)
    requires LogInv(s)
    ensures LogInv(Apply(s, step)) <==> Aligned(s, step)
  {
    hide LogInv;
    if Enabled(s, step) {
      hide Enabled;
      match step
      case Elect(r, e) => ElectKeeps(s, r, e);
      case Publish(r, ms) => PublishKeeps(s, r, ms);
      case Follow(r, e) => FollowKeepsIff(s, r, e);
      case Replicate(r, n) => ReplicateKeeps(s, r, n);
    }
  }

  ghost predicate LogsAt(s: Net, steps: seq<Step>, i: nat)
    requires i <= |steps|
  {
    LogInv(Run(s, steps[..i]))
  }

  ghost predicate AlignedAt(s: Net, steps: seq<Step>, i: nat)
    requires i < |steps|
  {
    Aligned(Run(s, steps[..i]), steps[i])
  }

  lemma RunAt(s: Net, steps: seq<Step>, i: nat)
    requires i < |steps|
    ensures Run(s, steps[..i + 1]) == Apply(Run(s, steps[..i]), steps[i])
  {
    hide Apply;
    assert steps[..i + 1][..i] == steps[..i];
  }

  /** All along a run every log came from the leaders of its messages and no follower has
      anything its leader has not, if and only if every truncation was aligned. */
  lemma LogsFromLeadersIff(s: Net, steps: seq<Step>)
    requires LogInv(s)
    ensures (forall i :: 0 <= i <= |steps| ==> LogsAt(s, steps, i)) <==>
            (forall i :: 0 <= i < |steps| ==> AlignedAt(s, steps, i))
  {
    forall i | 0 <= i < |steps| ensures LogsAt(s, steps, i) ==> (LogsAt(s, steps, i + 1) <==> AlignedAt(s, steps, i)) {
      RunAt(s, steps, i);
      if LogsAt(s, steps, i) { StepKeepsIff(Run(s, steps[..i]), steps[i]); }
    }
    assert steps[..0] == [];
    assert LogsAt(s, steps, 0);
    hide LogsAt;
    hide AlignedAt;
    if forall i :: 0 <= i < |steps| ==> AlignedAt(s, steps, i) {
      var j := 0;
      while j < |steps|
        invariant j <= |steps| && forall i :: 0 <= i <= j ==> LogsAt(s, steps, i)
      {
        assert LogsAt(s, steps, j) && AlignedAt(s, steps, j);
        j := j + 1;
      }
    } else if forall i :: 0 <= i <= |steps| ==> LogsAt(s, steps, i) {
      forall i | 0 <= i < |steps| ensures AlignedAt(s, steps, i) {
        assert LogsAt(s, steps, i) && LogsAt(s, steps, i + 1);
      }
    }
  }

  lemma InitLogs(s: Net)
    requires Init(s)
    ensures LogInv(s)
  {}

  /** So, as long as truncations are aligned, any two replicas that have the same epoch at an
      offset have the same log up to it, whatever epochs either of them missed. */
  lemma ReplicasMatch(s: Net, steps: seq<Step>, a: Id, b: Id, i: nat)
    requires Init(s) && forall j :: 0 <= j < |steps| ==> AlignedAt(s, steps, j)
    requires a in Run(s, steps).replicas && b in Run(s, steps).replicas
    ensures var x, y := Run(s, steps).replicas[a].log, Run(s, steps).replicas[b].log;
            i < |x| && i < |y| && x[i].leaderEpoch == y[i].leaderEpoch ==> x[..i + 1] == y[..i + 1]
  {
    hide AlignedAt;
    hide FromLeaders;
    InitLogs(s);
    LogsFromLeadersIff(s, steps);
    assert LogsAt(s, steps, |steps|) && steps[..|steps|] == steps;
    var z := Run(s, steps);
    var x, y := z.replicas[a].log, z.replicas[b].log;
    if i < |x| && i < |y| && x[i].leaderEpoch == y[i].leaderEpoch { LogMatching(History(z), x, y, i); }
  }

  // ----- epoch caches -----

  /** Every replica's cache goes with its log, and speaks of epochs that were led. */
  ghost predicate CacheInv(s: Net) {
    && (forall e :: e in s.leaders ==> 0 < e < UINT64 - 1 && s.leaders[e] in s.replicas)
    && (forall r :: r in s.replicas ==> CacheOk(s, r))
    && (forall r :: Leads(s, r) ==> LatestEpoch(s.replicas[r].cache) == s.replicas[r].epoch)
  }

  ghost predicate CacheOk(s: Net, r: Id)
    requires r in s.replicas
  {
    var f := s.replicas[r];
    && FromZero(f.log) && CacheMatches(f.log, f.cache)
    && EpochsIn(f.cache, s.leaders.Keys)
    && (forall i :: 0 <= i < |f.log| ==> f.log[i].leaderEpoch in s.leaders)
  }

  ghost predicate EpochsIn(es: Entries, known: set<Epoch>) {
    forall k :: 0 <= k < |es| ==> es[k].leaderEpoch in known
  }

  /** A fetched message is of no earlier epoch than the latest one the follower knows. */
  ghost predicate InOrder(s: Net, step: Step) {
    Enabled(s, step) && step.Replicate? ==>
      var f, l := s.replicas[step.r], s.replicas[s.leaders[s.replicas[step.r].epoch]];
      l.log[|f.log|].leaderEpoch >= LatestEpoch(f.cache)
  }

  /** The entries of a cache stay in it as messages are observed. */
  lemma {:induction false} ObservedGrows(es: Entries, last: Epoch, ms: Log)
    ensures es <= Observed(es, last, ms)
    decreases |ms|
  {
    if ms != [] {
      if ms[0].leaderEpoch > last {
        ObservedGrows(Assigned(es, ms[0].leaderEpoch, ms[0].offset), ms[0].leaderEpoch, ms[1..]);
      } else {
        ObservedGrows(es, last, ms[1..]);
      }
    }
  }

  /** A message of an earlier epoch than the cache knows breaks the cache. */
  lemma OutOfOrderBreaks(log: Log, es: Entries, ms: Log)
    requires CacheMatches(log, es) && ms != [] && ms[0].leaderEpoch < LatestEpoch(es)
    ensures !CacheMatches(log + ms, Observed(es, LatestEpoch(es), ms))
  {
    hide Observed;
    hide Boundary;
    var log', es', e := log + ms, Observed(es, LatestEpoch(es), ms), es[|es| - 1];
    ObservedGrows(es, LatestEpoch(es), ms);
    assert es'[|es| - 1] == e;
    if EpochsOrdered(log') {
      assert log'[|log|] == ms[0];
      forall i | 0 <= i < |log| ensures log[i].leaderEpoch < e.leaderEpoch {
        assert log'[i].leaderEpoch <= log'[|log|].leaderEpoch;
      }
      BoundaryIs(log, e.leaderEpoch, |log|);
      BoundarySplits(log', e.leaderEpoch);
      assert Opened(log, e) || Recorded(log, e);
      assert !(Opened(log', e) || Recorded(log', e));
    }
  }

  /** Messages keep log and cache together if and only if the first is in order. */
  lemma ExtendedMatchesIff(f: Replica, ms: Log)
    requires CacheMatches(f.log, f.cache) && ms != [] && EpochsOrdered(ms)
    requires forall i :: 0 <= i < |ms| ==> ms[i].offset == |f.log| + i && ms[i].leaderEpoch > 0
    ensures CacheMatches(Extended(f, ms).log, Extended(f, ms).cache) <==> ms[0].leaderEpoch >= LatestEpoch(f.cache)
  {
    hide CacheMatches;
    if ms[0].leaderEpoch >= LatestEpoch(f.cache) {
      AppendMatches(f.log, f.cache, ms);
    } else {
      OutOfOrderBreaks(f.log, f.cache, ms);
    }
  }

  lemma {:induction false} ObservedEpochs(es: Entries, last: Epoch, ms: Log, known: set<Epoch>)
    requires EpochsIn(es, known) && forall i :: 0 <= i < |ms| ==> ms[i].leaderEpoch in known
    ensures EpochsIn(Observed(es, last, ms), known)
    decreases |ms|
  {
    if ms != [] {
      if ms[0].leaderEpoch > last {
        ObservedEpochs(Assigned(es, ms[0].leaderEpoch, ms[0].offset), ms[0].leaderEpoch, ms[1..], known);
      } else {
        ObservedEpochs(es, last, ms[1..], known);
      }
    }
  }

  /** Messages of an epoch that the cache knows already leave it as it is. */
  lemma {:induction false} ObservedSame(es: Entries, last: Epoch, ms: Log)
    requires forall i :: 0 <= i < |ms| ==> ms[i].leaderEpoch <= last
    ensures Observed(es, last, ms) == es
    decreases |ms|
  {
    if ms != [] { ObservedSame(es, last, ms[1..]); }
  }

  /** One replica changes, and at most one leader is added. */
  lemma ChangeKeepsCaches(s: Net, z: Net, r: Id)
    requires CacheInv(s) && r in s.replicas && r in z.replicas && z.replicas == s.replicas[r := z.replicas[r]]
    requires forall e :: e in s.leaders ==> e in z.leaders && (z.leaders[e] == s.leaders[e])
    requires forall e :: e in z.leaders ==> 0 < e < UINT64 - 1 && (e in s.leaders || z.leaders[e] == r)
    requires CacheOk(z, r) && (Leads(z, r) ==> LatestEpoch(z.replicas[r].cache) == z.replicas[r].epoch)
    ensures CacheInv(z)
  {
    hide CacheMatches;
    hide FromZero;
    forall q | q in z.replicas ensures CacheOk(z, q) {
      if q != r { assert CacheOk(s, q); }
    }
    forall q | Leads(z, q) ensures LatestEpoch(z.replicas[q].cache) == z.replicas[q].epoch {
      if q != r { assert Leads(s, q); }
    }
  }

  /** The latest epoch a cache knows was led, or is none. */
  lemma LatestKnown(s: Net, r: Id)
    requires CacheInv(s) && r in s.replicas
    ensures CacheOk(s, r)
    ensures var e := LatestEpoch(s.replicas[r].cache); e == 0 || e in s.leaders
    ensures LatestEpoch(s.replicas[r].cache) + 1 < UINT64
  {
    assert CacheOk(s, r);
  }

  lemma ElectKeepsCaches(s: Net, r: Id, e: Epoch)
    requires CacheInv(s) && Enabled(s, Elect(r, e))
    ensures CacheInv(Apply(s, Elect(r, e)))
  {
    hide CacheMatches;
    hide CacheInv;
    hide FromZero;
    var f, z := s.replicas[r], Apply(s, Elect(r, e));
    LatestKnown(s, r);
    NewLeaderEpochMatches(f.log, f.cache, e);
    LeadersKnown(s);
    assert CacheOk(z, r);
    ChangeKeepsCaches(s, z, r);
  }

  lemma LeadersKnown(s: Net)
    requires CacheInv(s)
    ensures forall e :: e in s.leaders ==> 0 < e < UINT64 - 1 && s.leaders[e] in s.replicas
    ensures forall r :: Leads(s, r) ==> LatestEpoch(s.replicas[r].cache) == s.replicas[r].epoch
  {}

  lemma ExtendedOk(s: Net, r: Id, ms: Log)
    requires CacheInv(s) && r in s.replicas && ms != [] && EpochsOrdered(ms)
    requires forall i :: 0 <= i < |ms| ==>
               ms[i].offset == |s.replicas[r].log| + i && ms[i].leaderEpoch in s.leaders && ms[i].leaderEpoch > 0
    ensures var z := s.(replicas := s.replicas[r := Extended(s.replicas[r], ms)]);
            CacheOk(z, r) <==> ms[0].leaderEpoch >= LatestEpoch(s.replicas[r].cache)
  {
    hide CacheMatches;
    hide CacheInv;
    hide Observed;
    var f := s.replicas[r];
    LatestKnown(s, r);
    ExtendedMatchesIff(f, ms);
    ObservedEpochs(f.cache, LatestEpoch(f.cache), ms, s.leaders.Keys);
  }

  lemma PublishKeepsCaches(s: Net, r: Id, ms: Log)
    requires CacheInv(s) && Enabled(s, Publish(r, ms))
    ensures CacheInv(Apply(s, Publish(r, ms)))
  {
    hide CacheMatches;
    hide CacheInv;
    hide CacheOk;
    hide Observed;
    var f, z := s.replicas[r], Apply(s, Publish(r, ms));
    LeadersKnown(s);
    ExtendedOk(s, r, ms);
    ObservedSame(f.cache, LatestEpoch(f.cache), ms);
    var y := s.(replicas := s.replicas[r := Extended(f, ms)]);
    ChangeKeepsCaches(s, y, r);
    WrittenIsNoCache(y, z);
  }

  lemma WrittenIsNoCache(y: Net, z: Net)
    requires CacheInv(y) && z == y.(written := z.written)
    ensures CacheInv(z)
  {
    forall r | r in z.replicas ensures CacheOk(z, r) { assert CacheOk(y, r); }
    forall r | Leads(z, r) ensures LatestEpoch(z.replicas[r].cache) == z.replicas[r].epoch { assert Leads(y, r); }
  }

  lemma ReplicateKeepsCachesIff(s: Net, r: Id, n: nat)
    requires CacheInv(s) && Enabled(s, Replicate(r, n))
    ensures CacheInv(Apply(s, Replicate(r, n))) <==> InOrder(s, Replicate(r, n))
  {
    hide CacheMatches;
    hide CacheInv;
    hide Observed;
    var f, l, z := s.replicas[r], s.replicas[s.leaders[s.replicas[r].epoch]], Apply(s, Replicate(r, n));
    var ms := l.log[|f.log|..|f.log| + n];
    LeadersKnown(s);
    LatestKnown(s, s.leaders[f.epoch]);
    Matching(l.log, l.cache);
    forall i | 0 <= i < |ms| ensures ms[i] == l.log[|f.log| + i] {}
    ExtendedOk(s, r, ms);
    if CacheOk(z, r) { ChangeKeepsCaches(s, z, r); } else if CacheInv(z) { LatestKnown(z, r); }
  }

  lemma CutOk(s: Net, r: Id, e: Epoch)
    requires CacheInv(s) && Follows(s, r, e)
    ensures var z := s.(replicas := s.replicas[r := Cut(s.replicas[r], AnswerTo(s, r, e), e)]); CacheOk(z, r)
  {
    hide CacheMatches;
    hide CacheInv;
    hide Answer;
    hide ClearedLatest;
    var f, l, answer := s.replicas[r], s.replicas[s.leaders[e]], AnswerTo(s, r, e);
    LatestKnown(s, r);
    LatestKnown(s, s.leaders[e]);
    AnswerShape(l.log, l.cache, LatestEpoch(f.cache));
    if answer + 1 < |f.log| {
      TruncateMatches(f.log, f.cache, answer + 1);
      Matching(f.log, f.cache);
      ClearLatestShape(f.cache, answer + 1);
    }
  }

  lemma FollowKeepsCaches(s: Net, r: Id, e: Epoch)
    requires CacheInv(s) && Enabled(s, Follow(r, e))
    ensures CacheInv(Apply(s, Follow(r, e)))
  {
    hide CacheInv;
    hide CacheOk;
    hide Cut;
    hide AnswerTo;
    LeadersKnown(s);
    CutOk(s, r, e);
    CutLog(s.replicas[r], AnswerTo(s, r, e), e);
    ChangeKeepsCaches(s, Apply(s, Follow(r, e)), r);
  }

  lemma StepKeepsCachesIff(s: Net, step: Step)
    requires CacheInv(s)
    ensures CacheInv(Apply(s, step)) <==> InOrder(s, step)
  {
    hide CacheInv;
    if Enabled(s, step) {
      hide Enabled;
      match step
      case Elect(r, e) => ElectKeepsCaches(s, r, e);
      case Publish(r, ms) => PublishKeepsCaches(s, r, ms);
      case Follow(r, e) => FollowKeepsCaches(s, r, e);
      case Replicate(r, n) => ReplicateKeepsCachesIff(s, r, n);
    }
  }

  ghost predicate CachesAt(s: Net, steps: seq<Step>, i: nat)
    requires i <= |steps|
  {
    CacheInv(Run(s, steps[..i]))
  }

  ghost predicate InOrderAt(s: Net, steps: seq<Step>, i: nat)
    requires i < |steps|
  {
    InOrder(Run(s, steps[..i]), steps[i])
  }

  /** All along a run every cache goes with its log, if and only if no follower fetches a
      message of an earlier epoch than it knows. A former leader that wrote nothing knows
      its own. */
  lemma CachesMatchIff(s: Net, steps: seq<Step>)
    requires CacheInv(s)
    ensures (forall i :: 0 <= i <= |steps| ==> CachesAt(s, steps, i)) <==>
            (forall i :: 0 <= i < |steps| ==> InOrderAt(s, steps, i))
  {
    forall i | 0 <= i < |steps|
      ensures CachesAt(s, steps, i) ==> (CachesAt(s, steps, i + 1) <==> InOrderAt(s, steps, i))
    {
      RunAt(s, steps, i);
      if CachesAt(s, steps, i) { StepKeepsCachesIff(Run(s, steps[..i]), steps[i]); }
    }
    assert steps[..0] == [];
    assert CachesAt(s, steps, 0);
    hide CachesAt;
    hide InOrderAt;
    if forall i :: 0 <= i < |steps| ==> InOrderAt(s, steps, i) {
      var j := 0;
      while j < |steps|
        invariant j <= |steps| && forall i :: 0 <= i <= j ==> CachesAt(s, steps, i)
      {
        assert CachesAt(s, steps, j) && InOrderAt(s, steps, j);
        j := j + 1;
      }
    } else if forall i :: 0 <= i <= |steps| ==> CachesAt(s, steps, i) {
      forall i | 0 <= i < |steps| ensures InOrderAt(s, steps, i) {
        assert CachesAt(s, steps, i) && CachesAt(s, steps, i + 1);
      }
    }
  }

  lemma InitCaches(s: Net)
    requires Init(s)
    ensures CacheInv(s)
  {}

  /** Two replicas, and a term in which nothing is written. */
  function Start(): Net { Net(map["a" := Replica([], [], 0), "b" := Replica([], [], 0)], map[], map[]) }

  function EmptyTerm(): seq<Step> {
    [Elect("a", 1), Publish("a", [M(0, 1)]), Elect("b", 2), Elect("a", 3), Follow("b", 3), Replicate("b", 1)]
  }

  /** How far `a` and `b` are before each step. */
  ghost predicate Reached(s: Net, i: nat) {
    && s.replicas.Keys == {"a", "b"}
    && s.leaders == (match i
                     case 0 => map[]
                     case 1 => map[1 := "a"]
                     case 2 => map[1 := "a"]
                     case 3 => map[1 := "a", 2 := "b"]
                     case _ => map[1 := "a", 2 := "b", 3 := "a"])
    && s.replicas["a"].log == (if i < 2 then [] else [M(0, 1)])
    && s.replicas["a"].epoch == (if i < 1 then 0 else if i < 4 then 1 else 3)
    && s.replicas["b"].log == []
    && s.replicas["b"].epoch == (if i < 3 then 0 else if i < 5 then 2 else 3)
    && s.replicas["b"].cache == (if i < 3 then [] else [EpochOffset(2, -1)])
  }

  lemma ReachedNext(s: Net, i: nat)
    requires i < 5 && Reached(s, i) && CacheInv(s)
    ensures Enabled(s, EmptyTerm()[i]) && Reached(Apply(s, EmptyTerm()[i]), i + 1)
  {
    hide CacheInv;
    hide Observed;
    hide AnswerTo;
    assert Enabled(s, EmptyTerm()[i]);
    if i == 4 { NothingToCut(s, "b", 3); }
  }

  lemma NothingToCut(s: Net, r: Id, e: Epoch)
    requires CacheInv(s) && Follows(s, r, e) && s.replicas[r].log == []
    ensures Cut(s.replicas[r], AnswerTo(s, r, e), e) == s.replicas[r].(epoch := e)
  {
    hide CacheMatches;
    hide CacheInv;
    hide Answer;
    LatestKnown(s, r);
    LatestKnown(s, s.leaders[e]);
    AnswerShape(s.replicas[s.leaders[e]].log, s.replicas[s.leaders[e]].cache, LatestEpoch(s.replicas[r].cache));
  }

  lemma {:induction false} EmptyTermReaches(i: nat)
    requires i <= 5
    ensures Reached(Run(Start(), EmptyTerm()[..i]), i) && CachesAt(Start(), EmptyTerm(), i)
  {
    hide CacheInv;
    hide Apply;
    hide Reached;
    if i == 0 {
      StartReached();
    } else {
      EmptyTermReaches(i - 1);
      var s := Run(Start(), EmptyTerm()[..i - 1]);
      RunAt(Start(), EmptyTerm(), i - 1);
      ReachedNext(s, i - 1);
      StepKeepsCachesIff(s, EmptyTerm()[i - 1]);
    }
  }

  lemma StartReached()
    ensures Reached(Start(), 0) && CacheInv(Start())
  {
    InitCaches(Start());
  }

  /** The leader of that term knows its epoch and later fetches a message of an earlier one,
      which leaves its cache out of step with its log. */
  lemma EmptyTermBreaksCache()
    ensures Init(Start()) && CachesAt(Start(), EmptyTerm(), 5) && !CachesAt(Start(), EmptyTerm(), 6)
  {
    hide CacheInv;
    hide Apply;
    hide Run;
    EmptyTermReaches(5);
    RunAt(Start(), EmptyTerm(), 5);
    StepKeepsCachesIff(Run(Start(), EmptyTerm()[..5]), EmptyTerm()[5]);
  }

  // ----- aligned truncations -----

  /** The leader has no epoch above the follower's latest, or opened the first one itself,
      or recorded a start for it that the follower does not reach. */
  ghost predicate Reaches(f: Replica, l: Replica, k: nat)
    requires k <= |l.cache|
  {
    k == |l.cache| || Opened(l.log, l.cache[k]) || |f.log| <= l.cache[k].startOffset
  }

  /** Where both hold the follower's latest epoch, that is what makes its truncation
      aligned. */
  lemma {:induction false} SharedAlignedIff(s: Net, r: Id, e: Epoch, k: nat)
    requires LogInv(s) && CacheInv(s) && Enabled(s, Follow(r, e))
    requires FirstAbove(s.replicas[s.leaders[e]].cache, LatestEpoch(s.replicas[r].cache), k)
    requires Holds(s.replicas[s.leaders[e]].log, LatestEpoch(s.replicas[r].cache))
    requires Holds(s.replicas[r].log, LatestEpoch(s.replicas[r].cache))
    ensures Aligned(s, Follow(r, e)) <==> Reaches(s.replicas[r], s.replicas[s.leaders[e]], k)
  {
    hide LogInv;
    hide CacheInv;
    hide CacheMatches;
    hide Answer;
    hide Holds;
    hide FromLeaders;
    hide FirstAbove;
    hide CommonPrefix;
    hide Opened;
    var f, l, answer := s.replicas[r], s.replicas[s.leaders[e]], AnswerTo(s, r, e);
    Known(s, r);
    Known(s, s.leaders[e]);
    LatestKnown(s, r);
    LatestKnown(s, s.leaders[e]);
    AlignedIff(History(s), f.log, l.log, answer);
    Matching(f.log, f.cache);
    forall i | 0 <= i < |f.log| ensures f.log[i].leaderEpoch <= LatestEpoch(f.cache) {
      EntryAtMostLatest(f.log, f.cache, i);
    }
    SharedEpochTruncation(History(s), l.log, l.cache, f.log, LatestEpoch(f.cache), k);
    CommonPrefixAgrees(f.log, l.log);
    var kept := Truncation(f.log, answer);
    assert kept == f.log[..|kept|];
    if kept <= l.log { HeldInCommon(kept, f.log, l.log); }
  }

  /** A follower with a log asks about an epoch that its leader holds too. */
  ghost predicate Shares(s: Net, step: Step) {
    Enabled(s, step) && step.Follow? ==>
      var f, l := s.replicas[step.r], s.replicas[s.leaders[step.epoch]];
      f.log == [] ||
      (Holds(f.log, LatestEpoch(f.cache)) && Holds(l.log, LatestEpoch(f.cache)) &&
       exists k: nat :: FirstAbove(l.cache, LatestEpoch(f.cache), k) && Reaches(f, l, k))
  }

  lemma SharesAligned(s: Net, step: Step)
    requires LogInv(s) && CacheInv(s) && Shares(s, step)
    ensures Aligned(s, step)
  {
    hide LogInv;
    hide CacheInv;
    hide Holds;
    hide Reaches;
    hide AnswerTo;
    if Enabled(s, step) && step.Follow? {
      var f, l := s.replicas[step.r], s.replicas[s.leaders[step.epoch]];
      if f.log != [] {
        var k: nat :| FirstAbove(l.cache, LatestEpoch(f.cache), k) && Reaches(f, l, k);
        SharedAlignedIff(s, step.r, step.epoch, k);
      }
    }
  }

  ghost predicate SharesAt(s: Net, steps: seq<Step>, i: nat)
    requires i < |steps|
  {
    Shares(Run(s, steps[..i]), steps[i])
  }

  /** From empty replicas on: if no follower fetches out of order, and whoever truncates
      shares an epoch with a leader that opened the next one itself, every log comes from
      the leaders of its messages. */
  lemma {:induction false} SharingKeepsLogs(s: Net, steps: seq<Step>)
    requires Init(s) && forall i :: 0 <= i < |steps| ==> InOrderAt(s, steps, i) && SharesAt(s, steps, i)
    ensures LogInv(Run(s, steps)) && CacheInv(Run(s, steps))
  {
    hide LogInv;
    hide CacheInv;
    hide InOrder;
    hide Shares;
    hide Init;
    if steps == [] {
      InitLogs(s);
      InitCaches(s);
    } else {
      var n := |steps| - 1;
      forall i | 0 <= i < n ensures InOrderAt(s, steps[..n], i) && SharesAt(s, steps[..n], i) {
        assert InOrderAt(s, steps, i) && SharesAt(s, steps, i);
        assert steps[..n][..i] == steps[..i];
      }
      SharingKeepsLogs(s, steps[..n]);
      var y := Run(s, steps[..n]);
      assert InOrderAt(s, steps, n) && SharesAt(s, steps, n);
      SharesAligned(y, steps[n]);
      StepKeepsIff(y, steps[n]);
      StepKeepsCachesIff(y, steps[n]);
    }
  }

  // ----- what replicas hold -----

  ghost predicate AllHold(s: Net, rs: set<Id>, p: Log) {
    forall r :: r in rs ==> r in s.replicas && p <= s.replicas[r].log
  }

  /** Replicas of `rs` follow only each other. */
  ghost predicate Among(s: Net, step: Step, rs: set<Id>) {
    Enabled(s, step) && step.Follow? && step.r in rs ==> s.leaders[step.epoch] in rs
  }

  ghost predicate AmongAt(s: Net, steps: seq<Step>, i: nat, rs: set<Id>)
    requires i < |steps|
  {
    Among(Run(s, steps[..i]), steps[i], rs)
  }

  lemma FollowKeepsHeld(s: Net, r: Id, e: Epoch, p: Log)
    requires CacheInv(s) && Follows(s, r, e) && p <= s.replicas[r].log && p <= s.replicas[s.leaders[e]].log
    ensures p <= Truncation(s.replicas[r].log, AnswerTo(s, r, e))
  {
    hide CacheMatches;
    hide CacheInv;
    hide Answer;
    var f, l := s.replicas[r], s.replicas[s.leaders[e]];
    LatestKnown(s, r);
    LatestKnown(s, s.leaders[e]);
    forall i | 0 <= i < |f.log| ensures f.log[i].leaderEpoch <= LatestEpoch(f.cache) {
      EntryAtMostLatest(f.log, f.cache, i);
    }
    TruncationKeepsAgreement(l.log, l.cache, f.log, LatestEpoch(f.cache), |p|);
  }

  lemma StepKeepsHeld(s: Net, step: Step, rs: set<Id>, p: Log)
    requires CacheInv(s) && AllHold(s, rs, p) && Among(s, step, rs)
    ensures AllHold(Apply(s, step), rs, p)
  {
    hide CacheInv;
    hide Cut;
    hide AnswerTo;
    hide Observed;
    hide Assigned;
    if Enabled(s, step) && step.Follow? {
      CutLog(s.replicas[step.r], AnswerTo(s, step.r, step.epoch), step.epoch);
      if step.r in rs { FollowKeepsHeld(s, step.r, step.epoch, p); }
    }
  }

  /** What some replicas all hold, such as what they have committed, each of them goes on
      holding through any elections, truncations and fetches, at any time and with any
      epochs missed, as long as they follow only leaders among themselves and caches go
      with their logs. */
  lemma {:induction false} HeldStays(s: Net, steps: seq<Step>, rs: set<Id>, p: Log)
    requires CacheInv(s) && AllHold(s, rs, p)
    requires forall i :: 0 <= i < |steps| ==> InOrderAt(s, steps, i) && AmongAt(s, steps, i, rs)
    ensures AllHold(Run(s, steps), rs, p)
  {
    hide CacheInv;
    hide AllHold;
    hide InOrder;
    hide Among;
    if steps != [] {
      var n := |steps| - 1;
      forall i | 0 <= i < n ensures InOrderAt(s, steps[..n], i) && AmongAt(s, steps[..n], i, rs) {
        assert InOrderAt(s, steps, i) && AmongAt(s, steps, i, rs);
        assert steps[..n][..i] == steps[..i];
      }
      HeldStays(s, steps[..n], rs, p);
      CachesMatchIff(s, steps[..n]);
      assert CachesAt(s, steps[..n], n) && steps[..n][..n] == steps[..n];
      assert AmongAt(s, steps, n, rs);
      StepKeepsHeld(Run(s, steps[..n]), steps[n], rs, p);
    }
  }
}
