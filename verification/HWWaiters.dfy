/** Committed readers waiting for the high watermark. A waiter is a channel of capacity
    one; it is woken with `false` when the watermark moves and with `true` when the log
    is readonly and the watermark has reached its end. Everything but the readonly flag
    and the log end is protected by the log's mutex, so one step is one critical section,
    one store of the flag, one append, or one action of a reader. */
module HWWaiters {
  import opened Collections

  type Id = nat

  datatype Waiting = Idle | On(ch: nat, seen: int)

  /** `chans`: the values each channel has been sent. `notifying`: calls that have stored
      the readonly flag and not yet entered the critical section that notifies. */
  datatype State = State(hw: int, leo: int, readonly: bool, notifying: nat,
                         waiters: map<Id, nat>, readers: map<Id, Waiting>, chans: map<nat, seq<bool>>, next: nat)

  datatype Step =
    | Append(leo: int)
    | SetHW(hw: int)
    | StoreReadonly(readonly: bool)
    | NotifyReadonly
    | Wait(r: Id, seen: int)
    | Receive(r: Id)
    | Cancel(r: Id)

  /** Sends a value to every registered channel and forgets them all. */
  function Notified(s: State, value: bool): State {
    s.(chans := Delivered(s.chans, s.waiters.Values, value), waiters := map[])
  }

  function Delivered(chans: map<nat, seq<bool>>, to: set<nat>, value: bool): map<nat, seq<bool>> {
    map c | c in chans :: if c in to then chans[c] + [value] else chans[c]
  }

  lemma DeliverOne(chans: map<nat, seq<bool>>, to: set<nat>, c: nat, value: bool)
    requires c in chans && c !in to
    ensures Delivered(chans, to, value)[c := chans[c] + [value]] == Delivered(chans, to + {c}, value)
    ensures c in Delivered(chans, to, value) && Delivered(chans, to, value)[c] == chans[c]
  {
    SameMap(Delivered(chans, to, value)[c := chans[c] + [value]], Delivered(chans, to + {c}, value));
  }

  lemma DeliverNone(chans: map<nat, seq<bool>>, value: bool)
    ensures Delivered(chans, {}, value) == chans
  {
    SameMap(Delivered(chans, {}, value), chans);
  }

  function Waited(s: State, r: Id, seen: int): State {
    var on := s.(readers := s.readers[r := On(s.next, seen)], next := s.next + 1);
    if s.hw != seen then on.(chans := s.chans[s.next := [false]])
    else if s.hw == s.leo && s.readonly then on.(chans := s.chans[s.next := [true]])
    else on.(chans := s.chans[s.next := []], waiters := s.waiters[r := s.next])
  }

  function Next(s: State, step: Step): State {
    match step
    case Append(leo) => if leo > s.leo then s.(leo := leo) else s
    case SetHW(hw) => if s.hw < hw then Notified(s.(hw := hw), false) else s
    case StoreReadonly(v) => if v then s.(readonly := true, notifying := s.notifying + 1) else s.(readonly := false)
    case NotifyReadonly =>
      if s.notifying == 0 then s
      else if s.hw < s.leo then s.(notifying := s.notifying - 1)
      else Notified(s.(notifying := s.notifying - 1), true)
    case Wait(r, seen) =>
      if r in s.readers && s.readers[r].Idle? && seen <= s.hw then Waited(s, r, seen) else s
    case Receive(r) =>
      if r in s.readers && s.readers[r].On? && s.readers[r].ch in s.chans && s.chans[s.readers[r].ch] != []
      then s.(readers := s.readers[r := Idle]) else s
    case Cancel(r) =>
      if r in s.readers && s.readers[r].On? then s.(readers := s.readers[r := Idle], waiters := s.waiters - {r}) else s
  }

  function Run(s: State, steps: seq<Step>): State {
    if steps == [] then s else Next(Run(s, steps[..|steps| - 1]), steps[|steps| - 1])
  }

  ghost predicate Init(s: State) {
    && s.hw <= s.leo && s.notifying == 0 && s.waiters == map[] && s.chans == map[]
    && (forall r :: r in s.readers ==> s.readers[r].Idle?)
  }

  // ----- the invariant -----

  ghost predicate Registered(s: State, r: Id)
    requires r in s.waiters
  {
    && r in s.readers && s.readers[r] == On(s.waiters[r], s.hw)
    && s.waiters[r] in s.chans && s.chans[s.waiters[r]] == []
  }

  /** A waiting reader's channel is its own; it is registered or has its answer. */
  ghost predicate Served(s: State, r: Id)
    requires r in s.readers && s.readers[r].On?
  {
    && s.readers[r].ch in s.chans && s.readers[r].seen <= s.hw
    && (s.chans[s.readers[r].ch] == [] <==> r in s.waiters)
  }

  ghost predicate Shared(a: Waiting, b: Waiting) { a.On? && b.On? && a.ch == b.ch }

  ghost predicate OwnChannels(s: State) {
    forall q, r :: q in s.readers && r in s.readers && Shared(s.readers[q], s.readers[r]) ==> q == r
  }

  ghost predicate Inv(s: State) {
    && (forall c :: c in s.chans ==> c < s.next && |s.chans[c]| <= 1)
    && (forall r :: r in s.waiters ==> Registered(s, r))
    && (forall r :: r in s.readers && s.readers[r].On? ==> Served(s, r))
    && OwnChannels(s)
  }

  lemma NotifyKeeps(s: State, hw: int, n: nat, value: bool)
    requires Inv(s) && s.hw <= hw
    ensures Inv(Notified(s.(hw := hw, notifying := n), value))
  {
    var t := Notified(s.(hw := hw, notifying := n), value);
    forall c | c in t.chans ensures c < t.next && |t.chans[c]| <= 1 {
      if c in s.waiters.Values {
        var r :| r in s.waiters && s.waiters[r] == c;
        assert Registered(s, r);
      }
    }
    forall r | r in t.readers && t.readers[r].On? ensures Served(t, r) {
      assert Served(s, r);
      if r in s.waiters {
        assert Registered(s, r);
        assert s.waiters[r] in s.waiters.Values;
      }
    }
  }

  lemma WaitKeeps(s: State, r: Id, seen: int)
    requires Inv(s) && r in s.readers && s.readers[r].Idle? && seen <= s.hw
    ensures Inv(Waited(s, r, seen))
  {
    hide OwnChannels;
    hide Waited;
    WaitIs(s, r, seen);
    var t := Waited(s, r, seen);
    WaitOwns(s, r, seen);
    assert r in s.waiters ==> Registered(s, r);
    forall q | q in t.waiters ensures Registered(t, q) {
      if q != r { assert Registered(s, q); }
    }
    forall q | q in t.readers && t.readers[q].On? ensures Served(t, q) {
      if q != r { assert Served(s, q); }
    }
  }

  lemma WaitIs(s: State, r: Id, seen: int)
    requires r in s.readers
    ensures var t := Waited(s, r, seen);
            && t.readers == s.readers[r := On(s.next, seen)] && t.next == s.next + 1
            && t.hw == s.hw && t.leo == s.leo && t.readonly == s.readonly && t.notifying == s.notifying
            && (exists v :: t.chans == s.chans[s.next := v] && |v| <= 1
                            && t.waiters == (if v == [] then s.waiters[r := s.next] else s.waiters))
            && (t.chans[s.next] == [] <==> s.hw == seen && !(s.hw == s.leo && s.readonly))
  {
    assert Waited(s, r, seen).chans == s.chans[s.next := Waited(s, r, seen).chans[s.next]];
  }

  lemma WaitOwns(s: State, r: Id, seen: int)
    requires Inv(s) && r in s.readers
    ensures OwnChannels(Waited(s, r, seen))
  {
    forall q | q in s.readers && s.readers[q].On? ensures s.readers[q].ch < s.next { assert Served(s, q); }
  }

  lemma LeaveKeeps(s: State, t: State, r: Id)
    requires Inv(s) && r in s.readers && s.readers[r].On?
    requires t.readers == s.readers[r := Idle] && t.waiters == s.waiters - {r}
    requires t.chans == s.chans && t.next == s.next && t.hw == s.hw
    ensures Inv(t)
  {
    forall q | q in t.waiters ensures Registered(t, q) { assert Registered(s, q); }
    forall q | q in t.readers && t.readers[q].On? ensures Served(t, q) { assert Served(s, q); }
  }

  lemma StepKeeps(s: State, step: Step)
    requires Inv(s)
    ensures Inv(Next(s, step))
  {
    hide Registered;
    hide OwnChannels;
    match step
    case Append(leo) => SameKeeps(s, Next(s, step));
    case SetHW(hw) => if s.hw < hw { NotifyKeeps(s, hw, s.notifying, false); }
    case StoreReadonly(v) => SameKeeps(s, Next(s, step));
    case NotifyReadonly =>
      if s.notifying > 0 && s.hw >= s.leo { NotifyKeeps(s, s.hw, s.notifying - 1, true); }
      else { SameKeeps(s, Next(s, step)); }
    case Wait(r, seen) =>
      if r in s.readers && s.readers[r].Idle? && seen <= s.hw { WaitKeeps(s, r, seen); }
    case Receive(r) =>
      if r in s.readers && s.readers[r].On? {
        assert Served(s, r);
        if s.chans[s.readers[r].ch] != [] {
          assert s.waiters - {r} == s.waiters;
          LeaveKeeps(s, Next(s, step), r);
        }
      }
    case Cancel(r) => if r in s.readers && s.readers[r].On? { LeaveKeeps(s, Next(s, step), r); }
  }

  lemma SameKeeps(s: State, t: State)
    requires Inv(s) && t.readers == s.readers && t.waiters == s.waiters && t.chans == s.chans && t.next == s.next
    requires t.hw == s.hw
    ensures Inv(t)
  {
    forall q | q in t.waiters ensures Registered(t, q) { assert Registered(s, q); }
    forall q | q in t.readers && t.readers[q].On? ensures Served(t, q) { assert Served(s, q); }
  }

  lemma {:induction false} RunKeeps(s: State, steps: seq<Step>)
    requires Inv(s)
    ensures Inv(Run(s, steps))
  {
    if steps != [] {
      RunKeeps(s, steps[..|steps| - 1]);
      StepKeeps(Run(s, steps[..|steps| - 1]), steps[|steps| - 1]);
    }
  }

  /** In every interleaving: a registered waiter waits at the current watermark, its
      channel is empty, so a send to it never blocks, and no channel gets two values. A
      reader whose watermark has been passed has its answer. */
  lemma NoLostWakeup(s: State, steps: seq<Step>)
    requires Init(s)
    ensures var t := Run(s, steps);
            && (forall r :: r in t.waiters ==> Registered(t, r))
            && (forall c :: c in t.chans ==> |t.chans[c]| <= 1)
            && (forall r :: r in t.readers && t.readers[r].On? && t.readers[r].seen != t.hw ==> Answered(t, r))
  {
    RunKeeps(s, steps);
    var t := Run(s, steps);
    forall r | r in t.readers && t.readers[r].On? && t.readers[r].seen != t.hw ensures Answered(t, r) {
      assert Served(t, r);
      assert r in t.waiters ==> Registered(t, r);
    }
  }

  /** No step is lost: the log end and the watermark rise, and the flag is as it was last
      stored. */
  lemma LogDoes(s: State, step: Step)
    ensures var t := Next(s, step);
            && t.leo == (if step.Append? then Max(s.leo, step.leo) else s.leo)
            && t.hw == (if step.SetHW? then Max(s.hw, step.hw) else s.hw)
            && t.readonly == (if step.StoreReadonly? then step.readonly else s.readonly)
  {
    hide Delivered;
  }

  /** A reader that may wait does, one that has its answer or gives up goes, and the others
      stay as they are. */
  lemma ReadersDo(s: State, step: Step, r: Id)
    requires r in s.readers
    ensures var t := Next(s, step);
            && r in t.readers
            && (!((step.Wait? || step.Receive? || step.Cancel?) && step.r == r) ==> t.readers[r] == s.readers[r])
            && (step.Wait? && step.r == r && s.readers[r].Idle? && step.seen <= s.hw ==>
                  t.readers[r].On? && t.readers[r].seen == step.seen)
            && (step == Receive(r) && s.readers[r].On? && Answered(s, r) ==> t.readers[r].Idle?)
            && (step == Cancel(r) ==> t.readers[r].Idle?)
  {
    hide Delivered;
  }

  // ----- what readers are sent -----

  /** Before step `i` the watermark `seen` was at or past the end of a log set readonly. */
  ghost predicate EndedAt(s: State, steps: seq<Step>, i: nat, seen: int)
    requires i <= |steps|
  {
    var u := Run(s, steps[..i]);
    u.hw == seen && u.hw >= u.leo && (u.readonly || u.notifying > 0)
  }

  /** `false` says the watermark the reader had seen was passed, `true` that it was the end
      of a readonly log. */
  ghost predicate Truthful(s: State, steps: seq<Step>, t: State, r: Id)
    requires r in t.readers && t.readers[r].On? && t.readers[r].ch in t.chans
  {
    var w := t.readers[r];
    t.chans[w.ch] != [] ==>
      if t.chans[w.ch] == [false] then w.seen < t.hw
      else t.chans[w.ch] == [true] && exists i :: 0 <= i <= |steps| && EndedAt(s, steps, i, w.seen)
  }

  lemma NotifySends(s: State, hw: int, n: nat, value: bool, r: Id)
    requires Inv(s) && r in s.readers && s.readers[r].On?
    ensures var w, t := s.readers[r], Notified(s.(hw := hw, notifying := n), value);
            && w.ch in s.chans && w.ch in t.chans
            && (if r in s.waiters then w.seen == s.hw && t.chans[w.ch] == [value] else t.chans[w.ch] == s.chans[w.ch])
  {
    hide OwnChannels;
    assert Served(s, r);
    if r in s.waiters {
      assert Registered(s, r);
      assert s.waiters[r] in s.waiters.Values;
    }
    assert forall q :: q in s.waiters ==> Registered(s, q);
  }

  /** What a reader's channel holds after a step: what it held, or nothing, or the truth. */
  ghost predicate Sends(s: State, t: State, r: Id)
    requires r in t.readers && t.readers[r].On? && t.readers[r].ch in t.chans
  {
    var w := t.readers[r];
    || (r in s.readers && s.readers[r] == w && w.ch in s.chans && t.chans[w.ch] == s.chans[w.ch] && s.hw <= t.hw)
    || t.chans[w.ch] == []
    || (t.chans[w.ch] == [false] && w.seen < t.hw)
    || (t.chans[w.ch] == [true] && w.seen == s.hw && s.hw >= s.leo && (s.readonly || s.notifying > 0))
  }

  lemma WaitSends(s: State, q: Id, seen: int, r: Id)
    requires Inv(s) && q in s.readers && s.readers[q].Idle? && seen <= s.hw
    requires r in s.readers && (r == q || s.readers[r].On?)
    ensures var t := Waited(s, q, seen); t.readers[r].On? && t.readers[r].ch in t.chans && Sends(s, t, r)
  {
    hide OwnChannels;
    if r != q { assert Served(s, r); }
  }

  lemma SentBy(s: State, step: Step, r: Id)
    requires Inv(s)
    ensures var t := Next(s, step);
            r in t.readers && t.readers[r].On? ==> t.readers[r].ch in t.chans && Sends(s, t, r)
  {
    hide Inv;
    hide Notified;
    hide Waited;
    if r in s.readers && s.readers[r].On? {
      InvServed(s, r);
      var n: nat := if step.NotifyReadonly? && s.notifying > 0 then s.notifying - 1 else s.notifying;
      NotifySends(s, if step.SetHW? then step.hw else s.hw, n, step.NotifyReadonly?, r);
    }
    NotifyKeepsReaders();
    if step.Wait? && step.r in s.readers && s.readers[step.r].Idle? && step.seen <= s.hw {
      WaitReaders(s, step.r, step.seen);
      if r in s.readers && (r == step.r || s.readers[r].On?) { WaitSends(s, step.r, step.seen, r); }
    }
  }

  lemma InvServed(s: State, r: Id)
    requires Inv(s) && r in s.readers && s.readers[r].On?
    ensures Served(s, r) && (r in s.waiters ==> Registered(s, r))
  {}

  lemma NotifyKeepsReaders()
    ensures forall t: State, v :: Notified(t, v).readers == t.readers && Notified(t, v).hw == t.hw
  {}

  lemma WaitReaders(s: State, r: Id, seen: int)
    ensures Waited(s, r, seen).readers == s.readers[r := On(s.next, seen)] && Waited(s, r, seen).hw == s.hw
  {}

  /** In every interleaving each reader is sent the truth. */
  lemma {:induction false} SentTruth(s: State, steps: seq<Step>, r: Id)
    requires Inv(s) && forall q :: q in s.readers ==> s.readers[q].Idle?
    ensures var t := Run(s, steps);
            r in t.readers && t.readers[r].On? ==> t.readers[r].ch in t.chans && Truthful(s, steps, t, r)
  {
    hide Inv;
    hide Next;
    if steps != [] {
      var n := |steps| - 1;
      var u, t := Run(s, steps[..n]), Run(s, steps);
      SentTruth(s, steps[..n], r);
      RunKeeps(s, steps[..n]);
      SentBy(u, steps[n], r);
      if r in t.readers && t.readers[r].On? {
        var seen := t.readers[r].seen;
        forall i | 0 <= i <= n ensures EndedAt(s, steps[..n], i, seen) <==> EndedAt(s, steps, i, seen) {
          assert steps[..n][..i] == steps[..i];
        }
        if seen == u.hw && u.hw >= u.leo && (u.readonly || u.notifying > 0) { assert EndedAt(s, steps, n, seen); }
      }
    }
  }

  /** Whoever is registered as the watermark rises is sent `false`, and whoever is as the
      end is announced is sent `true`. */
  lemma WokenWith(s: State, r: Id)
    requires Inv(s) && r in s.waiters
    ensures forall h :: h > s.hw ==>
              s.waiters[r] in Next(s, SetHW(h)).chans && Next(s, SetHW(h)).chans[s.waiters[r]] == [false]
    ensures s.notifying > 0 && s.hw >= s.leo ==>
              s.waiters[r] in Next(s, NotifyReadonly).chans && Next(s, NotifyReadonly).chans[s.waiters[r]] == [true]
  {
    assert Registered(s, r);
    assert s.waiters[r] in s.waiters.Values;
  }

  // ----- the end of a readonly log -----

  /** Once the flag is set, all calls that set it have returned and the watermark is at
      the end of the log, every waiting reader has its answer. */
  ghost predicate EndAnnounced(t: State) {
    t.readonly && t.notifying == 0 && t.hw == t.leo ==>
      t.waiters == map[] && forall r :: r in t.readers && t.readers[r].On? ==> Answered(t, r)
  }

  /** The watermark is never set past the end of the log. */
  ghost predicate Within(s: State, steps: seq<Step>) {
    forall i :: 0 <= i < |steps| && steps[i].SetHW? ==> steps[i].hw <= Run(s, steps[..i]).leo
  }

  ghost predicate Announcing(s: State) {
    s.hw <= s.leo && (s.readonly && s.hw == s.leo && s.waiters != map[] ==> s.notifying > 0)
  }

  lemma StepAnnounces(s: State, step: Step)
    requires Announcing(s) && (step.SetHW? ==> step.hw <= s.leo)
    ensures Announcing(Next(s, step))
  {
    if step.Cancel? && s.waiters - {step.r} != map[] {
      var q :| q in s.waiters - {step.r};
      assert q in s.waiters;
    }
  }

  lemma {:induction false} RunAnnounces(s: State, steps: seq<Step>)
    requires Announcing(s) && Within(s, steps)
    ensures Announcing(Run(s, steps))
  {
    if steps != [] {
      var n := |steps| - 1;
      assert forall i :: 0 <= i < n ==> steps[..n][..i] == steps[..i];
      RunAnnounces(s, steps[..n]);
      StepAnnounces(Run(s, steps[..n]), steps[n]);
    }
  }

  lemma EndIsAnnounced(s: State, steps: seq<Step>)
    requires Init(s) && Within(s, steps)
    ensures EndAnnounced(Run(s, steps))
  {
    RunKeeps(s, steps);
    RunAnnounces(s, steps);
    var t := Run(s, steps);
    forall r | r in t.readers && t.readers[r].On? && t.waiters == map[] ensures Answered(t, r) {
      assert Served(t, r);
    }
  }

  /** The steps of others than `r`. */
  ghost predicate LeavesAlone(steps: seq<Step>, r: Id) {
    forall i :: 0 <= i < |steps| && (steps[i].Wait? || steps[i].Receive? || steps[i].Cancel?) ==> steps[i].r != r
  }

  /** Reader `r` has waited since the watermark was `h`. While it is registered, the end
      is not reached, or not announced yet, or there is nothing to announce. */
  ghost predicate WaitsSince(s: State, r: Id, h: int) {
    && r in s.readers && s.readers[r].On?
    && (r in s.waiters ==> s.hw == h && (s.leo > h || !s.readonly || s.notifying > 0))
  }

  lemma StepWaits(s: State, step: Step, r: Id, h: int)
    requires WaitsSince(s, r, h) && LeavesAlone([step], r)
    ensures WaitsSince(Next(s, step), r, h)
  {
    assert [step][0] == step;
  }

  lemma {:induction false} RunWaits(s: State, steps: seq<Step>, r: Id, h: int)
    requires WaitsSince(s, r, h) && LeavesAlone(steps, r)
    ensures WaitsSince(Run(s, steps), r, h)
  {
    if steps != [] {
      var n := |steps| - 1;
      RunWaits(s, steps[..n], r, h);
      StepWaits(Run(s, steps[..n]), steps[n], r, h);
    }
  }

  /** When the flag is set, the calls that set it have returned and the watermark is at the
      end of the log, `r`, still waiting, has its answer. */
  ghost predicate Told(t: State, r: Id) {
    t.readonly && t.notifying == 0 && t.hw == t.leo ==> r in t.readers && t.readers[r].On? && Answered(t, r)
  }

  /** Exactly which readers are told of the end of a readonly log, whatever else happens
      while they wait: all but those that come, having seen the watermark, when it is past
      the end of a log whose readonly flag has been announced already. */
  lemma EndToldIff(s: State, r: Id, seen: int)
    requires Inv(s) && r in s.readers && s.readers[r].Idle? && seen <= s.hw
    ensures !(seen == s.hw && s.readonly && s.notifying == 0 && s.hw > s.leo) <==>
            forall steps :: LeavesAlone(steps, r) ==> Told(Run(Waited(s, r, seen), steps), r)
  {
    var w := Waited(s, r, seen);
    WaitKeeps(s, r, seen);
    WaitRegisters(s, r, seen);
    if seen == s.hw && s.readonly && s.notifying == 0 && s.hw > s.leo {
      UntoldAtEnd(w, r);
    } else {
      forall steps | LeavesAlone(steps, r) ensures Told(Run(w, steps), r) {
        RunKeeps(w, steps);
        RunWaits(w, steps, r, s.hw);
        ToldIfGone(Run(w, steps), r);
      }
    }
  }

  lemma WaitRegisters(s: State, r: Id, seen: int)
    requires Inv(s) && r in s.readers && s.readers[r].Idle?
    ensures var w := Waited(s, r, seen);
            && w.readers == s.readers[r := On(s.next, seen)] && w.hw == s.hw && w.leo == s.leo
            && w.readonly == s.readonly && w.notifying == s.notifying
            && (r in w.waiters <==> s.hw == seen && !(s.hw == s.leo && s.readonly))
  {
    assert r in s.waiters ==> Registered(s, r);
  }

  lemma ToldIfGone(t: State, r: Id)
    requires Inv(t) && r in t.readers && t.readers[r].On?
    requires t.readonly && t.notifying == 0 && t.hw == t.leo ==> r !in t.waiters
    ensures Told(t, r)
  {
    assert Served(t, r);
  }

  /** The log reaching the watermark tells nobody. */
  lemma UntoldAtEnd(w: State, r: Id)
    requires Inv(w) && r in w.waiters && w.readonly && w.notifying == 0 && w.hw > w.leo
    ensures LeavesAlone([Append(w.hw)], r) && !Told(Run(w, [Append(w.hw)]), r)
  {
    var steps := [Append(w.hw)];
    assert steps[..0] == [];
    assert Run(w, steps) == w.(leo := w.hw);
    assert Registered(w, r);
  }

  ghost predicate Answered(s: State, r: Id)
    requires r in s.readers && s.readers[r].On?
  {
    s.readers[r].ch in s.chans && |s.chans[s.readers[r].ch]| == 1
  }

  // ----- the critical sections -----

  class HighWatermark {
    var hw: int
    var leo: int
    var readonly: bool
    var waiters: map<Id, nat>
    var chans: map<nat, seq<bool>>
    var next: nat

    /** The log's part of the state, beside the readers and the calls in progress. */
    ghost function View(readers: map<Id, Waiting>, notifying: nat): State
      reads this
    {
      State(hw, leo, readonly, notifying, waiters, readers, chans, next)
    }

    ghost predicate Valid() reads this {
      && (forall r :: r in waiters ==> waiters[r] in chans)
      && (forall q, r :: q in waiters && r in waiters && waiters[q] == waiters[r] ==> q == r)
    }

    /** Sends to every waiter and removes it. */
    method NotifyAll(value: bool)
      requires Valid()
      modifies `waiters, `chans
      ensures Valid()
      ensures forall readers, n :: View(readers, n) == Notified(old(View(readers, n)), value)
    {
      hide Delivered;
      hide Gone;
      ghost var to: set<nat> := {};
      DeliverNone(chans, value);
      AllGone(waiters);
      while waiters != map[]
        invariant chans == Delivered(old(chans), to, value)
        invariant forall r :: r in waiters ==> r in old(waiters) && waiters[r] == old(waiters)[r]
        invariant to == Gone(old(waiters), waiters)
        decreases |waiters|
      {
        var r := AnyOf(waiters.Keys);
        var c := waiters[r];
        NotGone(old(waiters), waiters, r);
        DeliverOne(old(chans), to, c, value);
        SentOne(old(waiters), waiters, r, to);
        chans := chans[c := chans[c] + [value]];
        waiters := waiters - {r};
        to := to + {c};
      }
      AllGone(old(waiters));
    }

    method SetHighWatermark(newHW: int)
      requires Valid()
      modifies `hw, `waiters, `chans
      ensures Valid() && forall readers, n :: View(readers, n) == Next(old(View(readers, n)), SetHW(newHW))
    {
      if newHW > hw {
        hw := newHW;
        NotifyAll(false);
      }
    }

    method NotifyReadonlyWaiters()
      requires Valid()
      modifies `waiters, `chans
      ensures Valid()
      ensures forall readers, n: nat :: n > 0 ==>
                View(readers, n - 1) == Next(old(View(readers, n)), NotifyReadonly)
    {
      if hw < leo { return; }
      NotifyAll(true);
    }

    /** Registers a reader that has seen `seen`, or answers it at once. */
    method WaitForHW(r: Id, seen: int) returns (ch: nat)
      requires Valid() && next !in chans
      modifies `waiters, `chans, `next
      ensures ch == old(next)
      ensures forall readers, n :: r in readers ==>
              View(readers[r := On(ch, seen)], n) == Waited(old(View(readers, n)), r, seen)
    {
      ch, next := next, next + 1;
      if hw != seen {
        chans := chans[ch := [false]];
      } else if hw == leo && readonly {
        chans := chans[ch := [true]];
      } else {
        chans, waiters := chans[ch := []], waiters[r := ch];
      }
    }
  }

  /** The channels of waiters no longer registered. */
  ghost function Gone(before: map<Id, nat>, now: map<Id, nat>): set<nat> {
    set r | r in before && r !in now :: before[r]
  }

  lemma SentOne(before: map<Id, nat>, now: map<Id, nat>, r: Id, to: set<nat>)
    requires r in now && r in before && now[r] == before[r] && to == Gone(before, now)
    ensures Gone(before, now - {r}) == to + {now[r]}
  {
    assert r in before && r !in now - {r};
  }

  lemma NotGone(before: map<Id, nat>, now: map<Id, nat>, r: Id)
    requires r in now && r in before && now[r] == before[r]
    requires forall p, q :: p in before && q in before && before[p] == before[q] ==> p == q
    ensures now[r] !in Gone(before, now)
  {}

  lemma AllGone(before: map<Id, nat>)
    ensures Gone(before, map[]) == before.Values && Gone(before, before) == {}
  {
    forall c | c in before.Values ensures c in Gone(before, map[]) { var r :| r in before && before[r] == c; }
  }
}
