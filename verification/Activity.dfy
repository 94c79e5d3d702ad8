/** The activity stream: the metadata leader publishes an event for each operation in the
    Raft log and records in the log how far it got. Leaders change, a former leader's
    dispatcher may still be at work, and a publish or record that failed or timed out may
    yet take effect. */
module Activity {

  /** What the Raft log holds at an index: an operation that makes an event, a record of
      how far events were published, or something else. */
  datatype Kind = Event | Published(upTo: nat) | Other

  datatype Stage = Ready | Publishing | Recording

  datatype Dispatcher = Dispatcher(index: nat, stage: Stage)

  /** Index 1 is the first entry of `log`. `out` is the activity stream; `sending` and
      `recording` are requests that may still take effect. `acked`: publishing waits for
      an acknowledgement, that is, its ack policy is not NONE. */
  datatype State = State(acked: bool, log: seq<Kind>, out: seq<nat>, last: map<nat, nat>,
                         dispatchers: map<nat, Dispatcher>,
                         sending: set<nat>, recording: set<nat>)

  datatype Step =
    | Commit(kind: Kind)
    | Apply(server: nat, index: nat)
    | Restart(server: nat)
    | Lead(d: nat, server: nat)
    | Stop(d: nat)
    | Dispatch(d: nat)
    | Deliver(index: nat)
    | PublishReturns(d: nat, ok: bool)
    | CommitRecord(index: nat)
    | RecordReturns(d: nat, ok: bool)

  predicate IsEvent(s: State, i: nat) { 1 <= i <= |s.log| && s.log[i - 1].Event? }

  function Moved(s: State, d: nat, index: nat, stage: Stage): State {
    s.(dispatchers := s.dispatchers[d := Dispatcher(index, stage)])
  }

  function Next(s: State, step: Step): State {
    match step
    case Commit(kind) => if kind.Published? then s else s.(log := s.log + [kind])
    case Apply(server, index) =>
      if 1 <= index <= |s.log| && s.log[index - 1].Published?
      then s.(last := s.last[server := s.log[index - 1].upTo])
      else s
    case Restart(server) => s.(last := s.last[server := 0])
    case Lead(d, server) =>
      if d in s.dispatchers || server !in s.last then s else Moved(s, d, s.last[server] + 1, Ready)
    case Stop(d) => s.(dispatchers := s.dispatchers - {d})
    case Dispatch(d) =>
      if d !in s.dispatchers || !s.dispatchers[d].stage.Ready? || s.dispatchers[d].index > |s.log| then s
      else
        var i := s.dispatchers[d].index;
        if IsEvent(s, i) then Moved(s, d, i, Publishing).(sending := s.sending + {i}) else Moved(s, d, i + 1, Ready)
    case Deliver(index) => if index in s.sending then s.(out := s.out + [index]) else s
    case PublishReturns(d, ok) =>
      if d !in s.dispatchers || !s.dispatchers[d].stage.Publishing? then s
      else
        var i := s.dispatchers[d].index;
        if !ok then Moved(s, d, i, Ready)
        else if i in s.out || !s.acked then Moved(s, d, i, Recording).(recording := s.recording + {i})
        else s
    case CommitRecord(index) => if index in s.recording then s.(log := s.log + [Published(index)]) else s
    case RecordReturns(d, ok) =>
      if d !in s.dispatchers || !s.dispatchers[d].stage.Recording? then s
      else
        var i := s.dispatchers[d].index;
        if ok then Moved(s, d, i + 1, Ready) else Moved(s, d, i, Ready)
  }

  function Run(s: State, steps: seq<Step>): State {
    if steps == [] then s else Next(Run(s, steps[..|steps| - 1]), steps[|steps| - 1])
  }

  ghost predicate Init(s: State) {
    && s.log == [] && s.out == [] && s.dispatchers == map[] && s.sending == {} && s.recording == {}
    && (forall v :: v in s.last ==> s.last[v] == 0)
  }

  // ----- the invariant -----

  /** Every event up to `k` has been published. */
  ghost predicate Covered(s: State, k: int) {
    k <= |s.log| && forall i :: 1 <= i <= k && IsEvent(s, i) ==> i in s.out
  }

  /** At place `p` of the stream all earlier events are before it. */
  ghost predicate InOrder(s: State, p: nat)
    requires p < |s.out|
  {
    forall i :: 1 <= i < s.out[p] && IsEvent(s, i) ==> i in s.out[..p]
  }

  ghost predicate Sound(s: State, d: Dispatcher) {
    && d.index >= 1 && Covered(s, d.index - 1)
    && (!d.stage.Ready? ==> IsEvent(s, d.index))
    && (d.stage.Recording? ==> d.index in s.out)
  }

  ghost predicate Inv(s: State) {
    && s.acked
    && (forall v :: v in s.last ==> Covered(s, s.last[v]))
    && (forall p :: 0 <= p < |s.log| && s.log[p].Published? ==> Covered(s, s.log[p].upTo))
    && (forall d :: d in s.dispatchers ==> Sound(s, s.dispatchers[d]))
    && (forall i :: i in s.sending ==> IsEvent(s, i) && Covered(s, i - 1))
    && (forall i :: i in s.recording ==> Covered(s, i))
    && (forall p :: 0 <= p < |s.out| ==> IsEvent(s, s.out[p]) && InOrder(s, p))
  }

  /** The log and the stream only grow, so what was covered and in order stays so. */
  ghost predicate Extends(s: State, t: State) { s.log <= t.log && s.out <= t.out }

  lemma CoveredStays(s: State, t: State, k: int)
    requires Covered(s, k) && Extends(s, t)
    ensures Covered(t, k)
  {
    forall i | 1 <= i <= k && IsEvent(t, i) ensures i in t.out {
      assert IsEvent(s, i);
      var p :| 0 <= p < |s.out| && s.out[p] == i;
      assert t.out[p] == i;
    }
  }

  lemma SoundStays(s: State, t: State, d: Dispatcher)
    requires Sound(s, d) && Extends(s, t)
    ensures Sound(t, d)
  {
    CoveredStays(s, t, d.index - 1);
    if d.index in s.out {
      var p :| 0 <= p < |s.out| && s.out[p] == d.index;
      assert t.out[p] == d.index;
    }
  }

  lemma OrderStays(s: State, t: State, p: nat)
    requires Extends(s, t) && p < |s.out| && IsEvent(s, s.out[p]) && InOrder(s, p)
    ensures IsEvent(t, t.out[p]) && InOrder(t, p)
  {
    assert t.out[..p] == s.out[..p];
    assert forall i :: 1 <= i < s.out[p] && IsEvent(t, i) ==> IsEvent(s, i);
  }

  /** A step that adds to the log or the stream, with everything new accounted for. */
  lemma GrowthKeeps(s: State, t: State)
    requires Inv(s) && Extends(s, t) && t.acked
    requires t.last == s.last && t.dispatchers == s.dispatchers && t.sending == s.sending && t.recording == s.recording
    requires forall p :: |s.log| <= p < |t.log| && t.log[p].Published? ==> Covered(s, t.log[p].upTo)
    requires forall p :: |s.out| <= p < |t.out| ==> IsEvent(t, t.out[p]) && InOrder(t, p)
    ensures Inv(t)
  {
    hide Covered;
    hide InOrder;
    hide Sound;
    forall v | v in t.last ensures Covered(t, t.last[v]) { CoveredStays(s, t, s.last[v]); }
    forall p | 0 <= p < |t.log| && t.log[p].Published? ensures Covered(t, t.log[p].upTo) {
      CoveredStays(s, t, t.log[p].upTo);
    }
    forall d | d in t.dispatchers ensures Sound(t, t.dispatchers[d]) { SoundStays(s, t, s.dispatchers[d]); }
    forall i | i in t.sending ensures IsEvent(t, i) && Covered(t, i - 1) { CoveredStays(s, t, i - 1); }
    forall i | i in t.recording ensures Covered(t, i) { CoveredStays(s, t, i); }
    forall p | 0 <= p < |t.out| ensures IsEvent(t, t.out[p]) && InOrder(t, p) {
      if p < |s.out| { OrderStays(s, t, p); }
    }
  }

  lemma DeliverKeeps(s: State, i: nat)
    requires Inv(s) && i in s.sending
    ensures Inv(s.(out := s.out + [i]))
  {
    var t := s.(out := s.out + [i]);
    assert t.out[..|s.out|] == s.out;
    assert InOrder(t, |s.out|);
    GrowthKeeps(s, t);
  }

  /** A step that changes one dispatcher and maybe starts a request. */
  lemma MoveKeeps(s: State, t: State, d: nat, x: Dispatcher)
    requires Inv(s) && Sound(s, x)
    requires t == s.(dispatchers := s.dispatchers[d := x], sending := t.sending, recording := t.recording)
    requires forall i :: i in t.sending ==> i in s.sending || (IsEvent(s, i) && Covered(s, i - 1))
    requires forall i :: i in t.recording ==> i in s.recording || Covered(s, i)
    ensures Inv(t)
  {
    SameCover(s, t);
  }

  lemma SameCover(s: State, t: State)
    requires s.log == t.log && s.out == t.out
    ensures forall k :: Covered(s, k) == Covered(t, k)
    ensures forall d :: Sound(s, d) == Sound(t, d)
    ensures forall p :: 0 <= p < |s.out| ==> InOrder(s, p) == InOrder(t, p)
    ensures forall i :: IsEvent(s, i) == IsEvent(t, i)
  {
    forall k ensures Covered(s, k) == Covered(t, k) {
      assert forall i :: IsEvent(s, i) == IsEvent(t, i);
    }
    forall p | 0 <= p < |s.out| ensures InOrder(s, p) == InOrder(t, p) {
      assert forall i :: IsEvent(s, i) == IsEvent(t, i);
    }
    forall d ensures Sound(s, d) == Sound(t, d) {}
  }

  lemma CoverNext(s: State, i: nat)
    requires i >= 1 && Covered(s, i - 1) && i <= |s.log| && (IsEvent(s, i) ==> i in s.out)
    ensures Covered(s, i)
  {}

  lemma LastCovered(s: State, server: nat)
    requires Inv(s) && server in s.last
    ensures Covered(s, s.last[server])
  {}

  lemma DispatcherSound(s: State, d: nat)
    requires Inv(s) && d in s.dispatchers
    ensures s.acked && Sound(s, s.dispatchers[d])
  {}

  lemma DispatcherKeeps(s: State, step: Step)
    requires Inv(s) && (step.Lead? || step.Dispatch? || step.PublishReturns? || step.RecordReturns?)
    ensures Inv(Next(s, step))
  {
    hide Covered;
    hide InOrder;
    hide Inv;
    var t, d := Next(s, step), step.d;
    if step.Lead? {
      if t != s {
        LastCovered(s, step.server);
        MoveKeeps(s, t, d, t.dispatchers[d]);
      }
    } else if d in s.dispatchers {
      var x := s.dispatchers[d];
      DispatcherSound(s, d);
      if x.index <= |s.log| && (IsEvent(s, x.index) ==> x.index in s.out) { CoverNext(s, x.index); }
      if t != s { MoveKeeps(s, t, d, t.dispatchers[d]); }
    }
  }

  lemma StepKeeps(s: State, step: Step)
    requires Inv(s)
    ensures Inv(Next(s, step))
  {
    hide Covered;
    hide InOrder;
    hide Sound;
    var t := Next(s, step);
    match step
    case Commit(kind) => GrowthKeeps(s, t);
    case Apply(server, index) => SameCover(s, t);
    case Restart(server) => SameCover(s, t); NothingCovered(s);
    case Lead(d, server) => DispatcherKeeps(s, step);
    case Stop(d) => SameCover(s, t);
    case Dispatch(d) => DispatcherKeeps(s, step);
    case Deliver(index) => if index in s.sending { DeliverKeeps(s, index); }
    case PublishReturns(d, ok) => DispatcherKeeps(s, step);
    case CommitRecord(index) => GrowthKeeps(s, t);
    case RecordReturns(d, ok) => DispatcherKeeps(s, step);
  }

  lemma NothingCovered(s: State)
    ensures Covered(s, 0)
  {}

  lemma {:induction false} RunKeeps(s: State, steps: seq<Step>)
    requires Inv(s)
    ensures Inv(Run(s, steps))
  {
    if steps != [] {
      RunKeeps(s, steps[..|steps| - 1]);
      StepKeeps(Run(s, steps[..|steps| - 1]), steps[|steps| - 1]);
    }
  }

  /** Every event at or below a recorded index, in the log or at a server, has been
      published, and wherever an event stands in the stream every earlier event stands
      before it, so first occurrences are in Raft order. */
  ghost predicate PublishedInOrder(t: State) {
    && (forall v, i :: v in t.last && 1 <= i <= t.last[v] && IsEvent(t, i) ==> i in t.out)
    && (forall p, i :: 0 <= p < |t.log| && t.log[p].Published? && 1 <= i <= t.log[p].upTo && IsEvent(t, i) ==>
        i in t.out)
    && (forall p, i :: 0 <= p < |t.out| && 1 <= i < t.out[p] && IsEvent(t, i) ==> i in t.out[..p])
    && (forall p :: 0 <= p < |t.out| ==> IsEvent(t, t.out[p]))
  }

  lemma InvMeans(t: State)
    requires Inv(t)
    ensures PublishedInOrder(t)
  {
    forall v, i | v in t.last && 1 <= i <= t.last[v] && IsEvent(t, i) ensures i in t.out {
      assert Covered(t, t.last[v]);
    }
    forall p, i | 0 <= p < |t.log| && t.log[p].Published? && 1 <= i <= t.log[p].upTo && IsEvent(t, i)
      ensures i in t.out
    {
      assert Covered(t, t.log[p].upTo);
    }
    forall p, i | 0 <= p < |t.out| && 1 <= i < t.out[p] && IsEvent(t, i) ensures i in t.out[..p] {
      assert InOrder(t, p);
    }
  }

  /** Publishing is complete and in order in every run if and only if it waits for
      acknowledgements. */
  lemma PublishedInOrderIff(s: State, server: nat)
    requires Init(s) && server in s.last
    ensures s.acked <==> forall steps :: PublishedInOrder(Run(s, steps))
  {
    if s.acked {
      forall steps ensures PublishedInOrder(Run(s, steps)) {
        RunKeeps(s, steps);
        InvMeans(Run(s, steps));
      }
    } else {
      UnackedIsLost(s, server);
    }
  }

  // ----- nothing is left out -----

  /** A server knows the last record it applied, and nothing after a restart. */
  lemma ServerLearns(s: State, server: nat, index: nat)
    ensures var t := Next(s, Apply(server, index));
            1 <= index <= |s.log| && s.log[index - 1].Published? ==>
              server in t.last && t.last[server] == s.log[index - 1].upTo
    ensures var t := Next(s, Restart(server)); server in t.last && t.last[server] == 0
  {}

  /** A new leader's dispatcher goes on behind what its server knows to be published. */
  lemma TakesOverBehind(s: State, d: nat, server: nat)
    requires d !in s.dispatchers && server in s.last
    ensures var t := Next(s, Lead(d, server));
            d in t.dispatchers && t.dispatchers[d] == Dispatcher(s.last[server] + 1, Ready)
  {}

  ghost predicate Stands(s: State, d: nat, i: nat, stage: Stage, log: seq<Kind>, out: seq<nat>) {
    d in s.dispatchers && s.dispatchers[d] == Dispatcher(i, stage) && s.log == log && s.out == out
  }

  lemma Publishes(s: State, d: nat, i: nat, log: seq<Kind>, out: seq<nat>)
    requires Stands(s, d, i, Ready, log, out) && IsEvent(s, i)
    ensures Stands(Next(Next(s, Dispatch(d)), Deliver(i)), d, i, Publishing, log, out + [i])
  {
    var a := Next(s, Dispatch(d));
    assert Stands(a, d, i, Publishing, log, out) && i in a.sending;
  }

  lemma Records(s: State, d: nat, i: nat, log: seq<Kind>, out: seq<nat>)
    requires Stands(s, d, i, Publishing, log, out) && i in out
    ensures Stands(Next(Next(s, PublishReturns(d, true)), CommitRecord(i)), d, i, Recording, log + [Published(i)], out)
  {
    var a := Next(s, PublishReturns(d, true));
    assert Stands(a, d, i, Recording, log, out) && i in a.recording;
  }

  lemma Passes(s: State, d: nat, i: nat, log: seq<Kind>, out: seq<nat>)
    requires Stands(s, d, i, Recording, log, out)
    ensures Stands(Next(s, RecordReturns(d, true)), d, i + 1, Ready, log, out)
  {}

  lemma Skips(s: State, d: nat, i: nat, log: seq<Kind>, out: seq<nat>)
    requires Stands(s, d, i, Ready, log, out) && 1 <= i <= |s.log| && !IsEvent(s, i)
    ensures Stands(Next(s, Dispatch(d)), d, i + 1, Ready, log, out)
  {}

  /** The entry a ready dispatcher is at is published, recorded and passed, if requests
      succeed, or just passed if it is no event. Nothing else is published. */
  lemma CanPass(s: State, d: nat) returns (steps: seq<Step>)
    requires d in s.dispatchers && s.dispatchers[d].stage.Ready? && 1 <= s.dispatchers[d].index <= |s.log|
    ensures var i := s.dispatchers[d].index;
            Stands(Run(s, steps), d, i + 1, Ready, s.log + (if IsEvent(s, i) then [Published(i)] else []),
                   s.out + (if IsEvent(s, i) then [i] else []))
  {
    hide Next;
    hide Run;
    var i := s.dispatchers[d].index;
    if IsEvent(s, i) {
      steps := [Dispatch(d), Deliver(i), PublishReturns(d, true), CommitRecord(i), RecordReturns(d, true)];
      RunAt(s, steps, 0);
      RunAt(s, steps, 1);
      Publishes(s, d, i, s.log, s.out);
      RunAt(s, steps, 2);
      RunAt(s, steps, 3);
      Records(Run(s, steps[..2]), d, i, s.log, s.out + [i]);
      RunAt(s, steps, 4);
      Passes(Run(s, steps[..4]), d, i, s.log + [Published(i)], s.out + [i]);
      assert steps[..5] == steps;
    } else {
      steps := [Dispatch(d)];
      Skips(s, d, i, s.log, s.out);
      RunAt(s, steps, 0);
      assert steps[..1] == steps && s.log + [] == s.log && s.out + [] == s.out;
    }
  }

  lemma {:induction false} RunConcat(s: State, a: seq<Step>, b: seq<Step>)
    ensures Run(s, a + b) == Run(Run(s, a), b)
  {
    hide Next;
    if b == [] {
      assert a + b == a;
    } else {
      var n := |b| - 1;
      RunConcat(s, a, b[..n]);
      assert (a + b)[..|a + b| - 1] == a + b[..n];
    }
  }

  /** Whatever happened so far, a dispatcher can still publish and record every event that
      is in the log. */
  lemma {:induction false} CanPublishAll(s: State, d: nat, end: nat) returns (steps: seq<Step>)
    requires Inv(s) && d in s.dispatchers && s.dispatchers[d].stage.Ready? && end <= |s.log|
    requires s.dispatchers[d].index <= end + 1
    ensures var t := Run(s, steps);
            s.log <= t.log && s.out <= t.out && forall i :: 1 <= i <= end && IsEvent(s, i) ==> i in t.out
    decreases end + 1 - s.dispatchers[d].index
  {
    hide Next;
    assert Sound(s, s.dispatchers[d]);
    var i := s.dispatchers[d].index;
    if i == end + 1 {
      steps := [];
    } else {
      var first := CanPass(s, d);
      var t := Run(s, first);
      RunKeeps(s, first);
      var rest := CanPublishAll(t, d, end);
      steps := first + rest;
      RunConcat(s, first, rest);
      forall j | 1 <= j <= end && IsEvent(s, j) ensures j in Run(s, steps).out { assert IsEvent(t, j); }
    }
  }

  lemma RunAt(s: State, steps: seq<Step>, i: nat)
    requires i < |steps|
    ensures Run(s, steps[..i + 1]) == Next(Run(s, steps[..i]), steps[i]) && Run(s, steps[..0]) == s
  {
    hide Next;
    assert steps[..i + 1][..i] == steps[..i];
  }

  /** Without acknowledgements an event is recorded as published that never was. */
  lemma UnackedIsLost(s: State, server: nat)
    requires Init(s) && server in s.last && !s.acked
    ensures var steps := [Commit(Event), Lead(0, server), Dispatch(0), PublishReturns(0, true), CommitRecord(1)];
            !PublishedInOrder(Run(s, steps))
  {
    hide Run;
    hide Next;
    hide PublishedInOrder;
    var steps := [Commit(Event), Lead(0, server), Dispatch(0), PublishReturns(0, true), CommitRecord(1)];
    RunAt(s, steps, 0);
    RunAt(s, steps, 1);
    LeadsFirst(s, server);
    RunAt(s, steps, 2);
    RunAt(s, steps, 3);
    RunAt(s, steps, 4);
    RecordsUnsent(Run(s, steps[..2]));
    assert steps[..5] == steps;
    LostIsNot(Run(s, steps));
  }

  lemma LeadsFirst(s: State, server: nat)
    requires Init(s) && server in s.last
    ensures var t := Next(Next(s, Commit(Event)), Lead(0, server));
            Stands(t, 0, 1, Ready, [Event], []) && t.acked == s.acked
  {}

  lemma RecordsUnsent(s: State)
    requires Stands(s, 0, 1, Ready, [Event], []) && !s.acked
    ensures var t := Next(Next(Next(s, Dispatch(0)), PublishReturns(0, true)), CommitRecord(1));
            t.log == [Event, Published(1)] && t.out == []
  {
    var a := Next(s, Dispatch(0));
    assert Stands(a, 0, 1, Publishing, [Event], []) && !a.acked;
    var b := Next(a, PublishReturns(0, true));
    assert b.log == [Event] && b.out == [] && 1 in b.recording;
  }

  lemma LostIsNot(t: State)
    requires t.log == [Event, Published(1)] && t.out == []
    ensures !PublishedInOrder(t)
  {
    assert t.log[1].Published? && t.log[1].upTo == 1 && IsEvent(t, 1);
  }
}
