/** The concurrent key scan of log compaction. A producer feeds the segments in order
    into a channel; workers take them out and record, for every key, the largest offset
    at or below the high watermark. One step is one atomic action of the producer or of
    a worker, so a list of steps is a schedule. */
module KeyScan {
  import opened Wrappers
  import opened Messages
  import opened SegmentedLog

  /** Keys are compared as strings, where no key and an empty key are the same. */
  function KeyOf(m: Message): string { if m.key.Some? then m.key.value else "" }

  /** `Setting` is between finding a key already stored and raising its offset. */
  datatype Worker =
    | Idle
    | Scanning(seg: nat, pos: nat)
    | Setting(seg: nat, pos: nat)
    | Done
  {
    /** The worker has yet to record message `j` of segment `i`. */
    predicate Owes(i: nat, j: nat) { (Scanning? || Setting?) && seg == i && pos <= j }
  }

  datatype Scan = Scan(sent: nat, closed: bool, received: nat, workers: seq<Worker>, offsets: map<string, int>)

  datatype Step = Send | Close | Move(worker: nat)

  function Start(n: nat): Scan { Scan(0, false, 0, seq(n, _ => Idle), map[]) }

  function Moved(segs: seq<Seg>, hw: int, s: Scan, w: nat): Scan
    requires w < |s.workers|
  {
    match s.workers[w]
    case Idle =>
      if s.received < s.sent then s.(received := s.received + 1, workers := s.workers[w := Scanning(s.received, 0)])
      else if s.closed then s.(workers := s.workers[w := Done])
      else s
    case Scanning(i, j) =>
      if i >= |segs| then s
      else if j >= |segs[i].msgs| then s.(workers := s.workers[w := Idle])
      else
        var m := segs[i].msgs[j];
        if m.offset > hw then s.(workers := s.workers[w := Done])
        else if KeyOf(m) in s.offsets then s.(workers := s.workers[w := Setting(i, j)])
        else s.(offsets := s.offsets[KeyOf(m) := m.offset], workers := s.workers[w := Scanning(i, j + 1)])
    case Setting(i, j) =>
      if i >= |segs| || j >= |segs[i].msgs| || KeyOf(segs[i].msgs[j]) !in s.offsets then s
      else
        var m := segs[i].msgs[j];
        var raised := if m.offset > s.offsets[KeyOf(m)] then m.offset else s.offsets[KeyOf(m)];
        s.(offsets := s.offsets[KeyOf(m) := raised], workers := s.workers[w := Scanning(i, j + 1)])
    case Done => s
  }

  function Next(segs: seq<Seg>, hw: int, s: Scan, step: Step): Scan {
    match step
    case Send => if s.sent < |segs| then s.(sent := s.sent + 1) else s
    case Close => if s.sent == |segs| then s.(closed := true) else s
    case Move(w) => if w < |s.workers| then Moved(segs, hw, s, w) else s
  }

  function Run(segs: seq<Seg>, hw: int, s: Scan, steps: seq<Step>): Scan {
    if steps == [] then s
    else Next(segs, hw, Run(segs, hw, s, steps[..|steps| - 1]), steps[|steps| - 1])
  }

  // ----- what the scan computes -----

  ghost predicate Attains(log: Log, hw: int, k: string, o: int) {
    exists m :: m in log && KeyOf(m) == k && m.offset == o && o <= hw
  }

  ghost predicate Covers(offsets: map<string, int>, m: Message) {
    KeyOf(m) in offsets && m.offset <= offsets[KeyOf(m)]
  }

  /** For each key with a message at or below the watermark, the largest such offset. */
  ghost predicate LatestOffsets(log: Log, hw: int, offsets: map<string, int>) {
    && (forall k :: k in offsets ==> Attains(log, hw, k, offsets[k]))
    && (forall m :: m in log && m.offset <= hw ==> Covers(offsets, m))
  }

  // ----- the invariant of every schedule -----

  ghost predicate Owed(workers: seq<Worker>, i: nat, j: nat) {
    exists w :: 0 <= w < |workers| && workers[w].Owes(i, j)
  }

  /** Message `j` of segment `i` is recorded, still owed by a worker, or not to be. */
  ghost predicate Settled(segs: seq<Seg>, hw: int, s: Scan, i: nat, j: nat)
    requires i < |segs| && j < |segs[i].msgs|
  {
    segs[i].msgs[j].offset > hw || Covers(s.offsets, segs[i].msgs[j]) || Owed(s.workers, i, j)
  }

  ghost predicate AboveFrom(segs: seq<Seg>, hw: int, n: nat) {
    forall i, j :: n <= i < |segs| && 0 <= j < |segs[i].msgs| ==> segs[i].msgs[j].offset > hw
  }

  ghost predicate WorkerOk(segs: seq<Seg>, hw: int, s: Scan, w: Worker) {
    match w
    case Idle => true
    case Scanning(i, j) => i < s.received && i < |segs| && j <= |segs[i].msgs|
    case Setting(i, j) =>
      i < s.received && i < |segs| && j < |segs[i].msgs| && segs[i].msgs[j].offset <= hw
        && KeyOf(segs[i].msgs[j]) in s.offsets
    case Done => AboveFrom(segs, hw, s.received)
  }

  ghost predicate Inv(segs: seq<Seg>, hw: int, s: Scan) {
    && s.received <= s.sent <= |segs|
    && (s.closed ==> s.sent == |segs|)
    && (forall w :: 0 <= w < |s.workers| ==> WorkerOk(segs, hw, s, s.workers[w]))
    && (forall k :: k in s.offsets ==> Attains(Flatten(segs), hw, k, s.offsets[k]))
    && (forall i, j :: 0 <= i < s.received && 0 <= j < |segs[i].msgs| ==> Settled(segs, hw, s, i, j))
  }

  lemma {:induction false} InFlatten(segs: seq<Seg>, i: nat, j: nat)
    requires i < |segs| && j < |segs[i].msgs|
    ensures segs[i].msgs[j] in Flatten(segs)
  {
    var n := |segs| - 1;
    if i < n {
      InFlatten(segs[..n], i, j);
    }
  }

  /** Past a message above the watermark everything is above it. */
  lemma AboveAfter(segs: seq<Seg>, hw: int, i: nat, j: nat)
    requires Chain(segs) && i < |segs| && j < |segs[i].msgs| && segs[i].msgs[j].offset > hw
    ensures AboveFrom(segs, hw, i + 1)
    ensures forall k :: j <= k < |segs[i].msgs| ==> segs[i].msgs[k].offset > hw
  {
    forall a, b | i + 1 <= a < |segs| && 0 <= b < |segs[a].msgs| ensures segs[a].msgs[b].offset > hw {
      SegmentBounds(segs[i], segs[i].msgs[j]);
      SegmentBounds(segs[a], segs[a].msgs[b]);
    }
  }

  /** A worker's step settles everything its old position owed. */
  lemma OwedKept(old_: seq<Worker>, new_: seq<Worker>, w: nat, i: nat, j: nat)
    requires w < |old_| == |new_| && Owed(old_, i, j)
    requires forall v :: 0 <= v < |old_| && v != w ==> old_[v] == new_[v]
    requires old_[w].Owes(i, j) ==> new_[w].Owes(i, j)
    ensures Owed(new_, i, j)
  {
    var v :| 0 <= v < |old_| && old_[v].Owes(i, j);
    assert new_[v].Owes(i, j);
  }

  lemma MoveKeeps(segs: seq<Seg>, hw: int, s: Scan, w: nat)
    requires Chain(segs) && Inv(segs, hw, s) && w < |s.workers|
    ensures Inv(segs, hw, Moved(segs, hw, s, w))
  {
    MoveSettles(segs, hw, s, w);
    MoveWorkers(segs, hw, s, w);
    MoveAttains(segs, hw, s, w);
  }

  lemma MoveAttains(segs: seq<Seg>, hw: int, s: Scan, w: nat)
    requires Chain(segs) && Inv(segs, hw, s) && w < |s.workers|
    ensures var t := Moved(segs, hw, s, w);
            forall k :: k in t.offsets ==> Attains(Flatten(segs), hw, k, t.offsets[k])
    ensures forall k :: k in s.offsets ==>
            k in Moved(segs, hw, s, w).offsets && s.offsets[k] <= Moved(segs, hw, s, w).offsets[k]
  {
    hide Settled;
    hide Attains;
    hide Chain;
    hide Flatten;
    var a, t := s.workers[w], Moved(segs, hw, s, w);
    assert WorkerOk(segs, hw, s, a);
    if t.offsets != s.offsets {
      var m := segs[a.seg].msgs[a.pos];
      InFlatten(segs, a.seg, a.pos);
      AttainedBy(Flatten(segs), hw, m);
    }
  }

  lemma AttainedBy(log: Log, hw: int, m: Message)
    requires m in log && m.offset <= hw
    ensures Attains(log, hw, KeyOf(m), m.offset)
  {}

  lemma MoveWorkers(segs: seq<Seg>, hw: int, s: Scan, w: nat)
    requires Chain(segs) && Inv(segs, hw, s) && w < |s.workers|
    ensures var t := Moved(segs, hw, s, w);
            forall v :: 0 <= v < |t.workers| ==> WorkerOk(segs, hw, t, t.workers[v])
  {
    hide Settled;
    hide Flatten;
    var a, t := s.workers[w], Moved(segs, hw, s, w);
    assert WorkerOk(segs, hw, s, a);
    if a.Scanning? && a.pos < |segs[a.seg].msgs| && segs[a.seg].msgs[a.pos].offset > hw {
      AboveAfter(segs, hw, a.seg, a.pos);
      assert AboveFrom(segs, hw, s.received);
    }
    forall v | 0 <= v < |t.workers| && v != w ensures WorkerOk(segs, hw, t, t.workers[v]) {
      assert WorkerOk(segs, hw, s, s.workers[v]);
    }
  }

  lemma MoveSettles(segs: seq<Seg>, hw: int, s: Scan, w: nat)
    requires Chain(segs) && Inv(segs, hw, s) && w < |s.workers|
    ensures var t := Moved(segs, hw, s, w);
            forall i, j :: 0 <= i < t.received && 0 <= j < |segs[i].msgs| ==> Settled(segs, hw, t, i, j)
  {
    hide Flatten;
    hide Chain;
    MoveAttains(segs, hw, s, w);
    var a, t := s.workers[w], Moved(segs, hw, s, w);
    assert WorkerOk(segs, hw, s, a);
    if a.Scanning? && a.pos < |segs[a.seg].msgs| && segs[a.seg].msgs[a.pos].offset > hw {
      AboveAfter(segs, hw, a.seg, a.pos);
    }
    forall i, j | 0 <= i < t.received && 0 <= j < |segs[i].msgs| ensures Settled(segs, hw, t, i, j) {
      if i == s.received {
        assert t.workers[w].Owes(i, j);
      } else {
        assert Settled(segs, hw, s, i, j);
        if Owed(s.workers, i, j) && (a.Owes(i, j) ==> t.workers[w].Owes(i, j)) {
          OwedKept(s.workers, t.workers, w, i, j);
        }
      }
    }
  }

  lemma {:induction false} RunKeeps(segs: seq<Seg>, hw: int, n: nat, steps: seq<Step>)
    requires Chain(segs)
    ensures Inv(segs, hw, Run(segs, hw, Start(n), steps)) && |Run(segs, hw, Start(n), steps).workers| == n
  {
    if steps != [] {
      RunKeeps(segs, hw, n, steps[..|steps| - 1]);
      NextKeeps(segs, hw, Run(segs, hw, Start(n), steps[..|steps| - 1]), steps[|steps| - 1]);
    }
  }

  lemma NextKeeps(segs: seq<Seg>, hw: int, s: Scan, step: Step)
    requires Chain(segs) && Inv(segs, hw, s)
    ensures Inv(segs, hw, Next(segs, hw, s, step)) && |Next(segs, hw, s, step).workers| == |s.workers|
  {
    if step.Move? && step.worker < |s.workers| {
      MoveKeeps(segs, hw, s, step.worker);
    } else {
      var t := Next(segs, hw, s, step);
      forall i, j | 0 <= i < t.received && 0 <= j < |segs[i].msgs| ensures Settled(segs, hw, t, i, j) {
        assert Settled(segs, hw, s, i, j);
      }
      forall w | 0 <= w < |t.workers| ensures WorkerOk(segs, hw, t, t.workers[w]) {
        assert WorkerOk(segs, hw, s, s.workers[w]);
      }
    }
  }

  /** Whatever the schedule and however many workers there are: once every worker has
      finished, the recorded offsets are exactly the latest ones. */
  lemma ScanIsExact(segs: seq<Seg>, hw: int, n: nat, steps: seq<Step>)
    requires Chain(segs) && n > 0
    requires AllDone(Run(segs, hw, Start(n), steps))
    ensures LatestOffsets(Flatten(segs), hw, Run(segs, hw, Start(n), steps).offsets)
  {
    RunKeeps(segs, hw, n, steps);
    var s := Run(segs, hw, Start(n), steps);
    assert WorkerOk(segs, hw, s, s.workers[0]);
    forall m | m in Flatten(segs) && m.offset <= hw ensures Covers(s.offsets, m) {
      FlattenMember(segs, m);
      var i :| 0 <= i < |segs| && m in segs[i].msgs;
      var j :| 0 <= j < |segs[i].msgs| && segs[i].msgs[j] == m;
      assert Settled(segs, hw, s, i, j);
    }
  }

  // ----- every schedule can be completed -----

  ghost predicate AllDone(s: Scan) { forall w :: 0 <= w < |s.workers| ==> s.workers[w].Done? }

  function Load(segs: seq<Seg>, w: Worker): nat {
    match w
    case Idle => 1
    case Scanning(i, j) => 2 + (if i < |segs| && j < |segs[i].msgs| then 2 * (|segs[i].msgs| - j) else 0)
    case Setting(i, j) => 1 + (if i < |segs| && j < |segs[i].msgs| then 2 * (|segs[i].msgs| - j) else 0)
    case Done => 0
  }

  function Loads(segs: seq<Seg>, workers: seq<Worker>): nat {
    if workers == [] then 0 else Loads(segs, workers[..|workers| - 1]) + Load(segs, workers[|workers| - 1])
  }

  function Unread(segs: seq<Seg>, n: nat): nat
    decreases |segs| - n
  {
    if n >= |segs| then 0 else 2 * |segs[n].msgs| + 2 + Unread(segs, n + 1)
  }

  /** What is left to do: it only gets less. */
  function Work(segs: seq<Seg>, s: Scan): nat {
    (if s.sent < |segs| then |segs| - s.sent else 0) + (if s.closed then 0 else 1)
    + Unread(segs, s.received) + Loads(segs, s.workers)
  }

  lemma {:induction false} LoadsUpdate(segs: seq<Seg>, workers: seq<Worker>, w: nat, x: Worker)
    requires w < |workers|
    ensures Loads(segs, workers[w := x]) + Load(segs, workers[w]) == Loads(segs, workers) + Load(segs, x)
  {
    var n := |workers| - 1;
    if w < n {
      LoadsUpdate(segs, workers[..n], w, x);
      assert workers[w := x][..n] == workers[..n][w := x];
    } else {
      assert workers[w := x][..n] == workers[..n];
    }
  }

  /** As long as a worker is not done, somebody can do something that is left to do. */
  lemma Progress(segs: seq<Seg>, hw: int, s: Scan) returns (step: Step)
    requires Inv(segs, hw, s) && !AllDone(s)
    ensures Work(segs, Next(segs, hw, s, step)) < Work(segs, s)
  {
    hide Settled;
    hide Attains;
    hide Flatten;
    hide Loads;
    hide Unread;
    hide Moved;
    var w :| 0 <= w < |s.workers| && !s.workers[w].Done?;
    assert WorkerOk(segs, hw, s, s.workers[w]);
    if s.workers[w].Idle? && s.received == s.sent && !s.closed {
      step := if s.sent < |segs| then Send else Close;
    } else {
      step := Move(w);
      MoveWorks(segs, hw, s, w);
    }
  }

  lemma MoveWorks(segs: seq<Seg>, hw: int, s: Scan, w: nat)
    requires w < |s.workers| && WorkerOk(segs, hw, s, s.workers[w]) && !s.workers[w].Done?
    requires s.received <= s.sent <= |segs|
    requires s.workers[w].Idle? ==> s.received < s.sent || s.closed
    ensures Work(segs, Moved(segs, hw, s, w)) < Work(segs, s)
  {
    hide Loads;
    hide AboveFrom;
    var t := Moved(segs, hw, s, w);
    LoadsUpdate(segs, s.workers, w, t.workers[w]);
    assert t.workers == s.workers[w := t.workers[w]];
  }

  /** Whatever has been scheduled so far, the scan can still be completed. */
  lemma {:induction false} ScanCanFinish(segs: seq<Seg>, hw: int, n: nat, steps: seq<Step>) returns (more: seq<Step>)
    requires Chain(segs)
    ensures AllDone(Run(segs, hw, Start(n), steps + more))
    decreases Work(segs, Run(segs, hw, Start(n), steps))
  {
    hide Inv;
    hide Next;
    hide Work;
    hide Chain;
    hide AllDone;
    RunKeeps(segs, hw, n, steps);
    var s := Run(segs, hw, Start(n), steps);
    if AllDone(s) {
      more := [];
      assert steps + more == steps;
    } else {
      var step := Progress(segs, hw, s);
      assert (steps + [step])[..|steps|] == steps;
      var rest := ScanCanFinish(segs, hw, n, steps + [step]);
      more := [step] + rest;
      assert steps + more == steps + [step] + rest;
    }
  }
}
