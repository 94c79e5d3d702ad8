/** Recovery against live application: a server that replays part of its Raft log and then
    goes on, against one that never stopped. Nothing is asked of the log but that it
    applies live without error. */
module Recovery {
  import opened Wrappers
  import opened Collections
  import opened MetadataSpec

  // ----- equal up to this server's own membership -----

  ghost predicate Has(s: Streams, n: string, id: int) { n in s && !s[n].tombstoned && id in s[n].parts }

  /** The same but for the in-sync membership of `self` and whether it was started. */
  ghost predicate SamePart(p: Part, q: Part, self: string) {
    p == q.(isr := p.isr, recovered := p.recovered) && p.isr - {self} == q.isr - {self}
  }

  /** The same streams and partitions, each the same up to the membership of `self`. A
      tombstoned stream is no stream. */
  ghost predicate UpToSelf(a: Streams, b: Streams, self: string) {
    && (forall n :: n in a && !a[n].tombstoned <==> n in b && !b[n].tombstoned)
    && (forall n :: n in a && !a[n].tombstoned ==> a[n].parts.Keys == b[n].parts.Keys)
    && (forall n, id :: Has(a, n, id) ==> Has(b, n, id) && SamePart(a[n].parts[id], b[n].parts[id], self))
  }

  ghost predicate Untombed(s: Streams) { forall n :: n in s ==> !s[n].tombstoned }

  lemma ChangedSame(p: Part, q: Part, self: string, index: nat, op: Op)
    requires (op.Shrink? || op.Expand? || op.ChangeLeader?) && SamePart(p, q, self)
    ensures var x, y := Changed(p, self, index, op), Changed(q, self, index, op);
            x.Ok? == y.Ok? && (x.Ok? ==> SamePart(x.value, y.value, self))
  {
    if op.Shrink? {
      assert p.isr - {op.replica} - {self} == p.isr - {self} - {op.replica};
      assert q.isr - {op.replica} - {self} == q.isr - {self} - {op.replica};
    } else if op.Expand? {
      assert p.isr + {op.replica} - {self} == p.isr - {self} + ({op.replica} - {self});
      assert q.isr + {op.replica} - {self} == q.isr - {self} + ({op.replica} - {self});
    } else {
      assert p.isr + {self} - {self} == p.isr - {self};
      assert q.isr + {self} - {self} == q.isr - {self};
    }
  }

  lemma PutSame(a: Streams, b: Streams, self: string, name: string, x: Stream, y: Stream)
    requires UpToSelf(a, b, self) && !x.tombstoned && !y.tombstoned && x.parts.Keys == y.parts.Keys
    requires forall id :: id in x.parts ==> SamePart(x.parts[id], y.parts[id], self)
    ensures UpToSelf(a[name := x], b[name := y], self)
  {
    hide SamePart;
    var a', b' := a[name := x], b[name := y];
    forall n, id | Has(a', n, id) ensures Has(b', n, id) && SamePart(a'[n].parts[id], b'[n].parts[id], self) {
      if n != name { assert Has(a, n, id); }
    }
  }

  lemma UpdateSame(a: Store, b: Store, self: string, index: nat, op: Op)
    requires (op.Shrink? || op.Expand? || op.ChangeLeader?) && Untombed(a.streams)
    requires UpToSelf(a.streams, b.streams, self) && UpdatePart(a, self, index, op).Ok?
    ensures UpdatePart(b, self, index, op).Ok?
    ensures UpToSelf(UpdatePart(a, self, index, op).value.streams, UpdatePart(b, self, index, op).value.streams, self)
  {
    hide Changed;
    assert Has(a.streams, op.stream, op.id);
    var x, y := a.streams[op.stream], b.streams[op.stream];
    var p, q := x.parts[op.id], y.parts[op.id];
    ChangedSame(p, q, self, index, op);
    if p.epoch < index {
      var p', q' := Changed(p, self, index, op).value, Changed(q, self, index, op).value;
      forall id | id in x.parts ensures SamePart(x.parts[op.id := p'][id], y.parts[op.id := q'][id], self) {
        assert Has(a.streams, op.stream, id);
      }
      PutSame(a.streams, b.streams, self, op.stream, x.(parts := x.parts[op.id := p']),
              y.(parts := y.parts[op.id := q']));
    }
  }

  lemma NewSame(proto: Proto, self: string, replay: bool)
    ensures SamePart(NewPart(proto, self, false), NewPart(proto, self, replay), self)
  {
    assert ToSet(proto.isr) + {self} - {self} == ToSet(proto.isr) - {self};
  }

  lemma CreateSame(a: Store, b: Store, self: string, name: string, protos: map<int, Proto>, replay: bool)
    requires Untombed(a.streams) && (!replay ==> Untombed(b.streams))
    requires UpToSelf(a.streams, b.streams, self) && AddStream(a, self, name, protos, false).Ok?
    ensures AddStream(b, self, name, protos, replay).Ok?
    ensures UpToSelf(AddStream(a, self, name, protos, false).value.streams,
                     AddStream(b, self, name, protos, replay).value.streams, self)
  {
    hide NewPart;
    hide SamePart;
    var x, y := NewParts(protos, self, false), NewParts(protos, self, replay);
    forall id | id in x ensures SamePart(x[id], y[id], self) { NewSame(protos[id], self, replay); }
    PutSame(a.streams, b.streams, self, name, Stream(x, false), Stream(y, false));
  }

  lemma DeleteSame(a: Store, b: Store, self: string, name: string, replay: bool)
    requires Untombed(a.streams) && (!replay ==> Untombed(b.streams))
    requires UpToSelf(a.streams, b.streams, self) && RemoveStream(a, name, false).Ok?
    ensures RemoveStream(b, name, replay).Ok?
    ensures UpToSelf(RemoveStream(a, name, false).value.streams, RemoveStream(b, name, replay).value.streams, self)
  {
    hide SamePart;
    var a', b' := RemoveStream(a, name, false).value.streams, RemoveStream(b, name, replay).value.streams;
    forall n, id | Has(a', n, id) ensures Has(b', n, id) && SamePart(a'[n].parts[id], b'[n].parts[id], self) {
      assert Has(a.streams, n, id);
    }
  }

  lemma ApplyUntombed(s: Store, self: string, e: Entry)
    requires Untombed(s.streams) && Apply(s, self, e, false).Ok?
    ensures Untombed(Apply(s, self, e, false).value.streams)
  {
    hide Changed;
  }

  /** One entry, applied live on one side and live or in replay on the other. */
  lemma ApplySame(a: Store, b: Store, self: string, e: Entry, replay: bool)
    requires Untombed(a.streams) && (!replay ==> Untombed(b.streams))
    requires UpToSelf(a.streams, b.streams, self) && Apply(a, self, e, false).Ok?
    ensures Apply(b, self, e, replay).Ok?
    ensures UpToSelf(Apply(a, self, e, false).value.streams, Apply(b, self, e, replay).value.streams, self)
    ensures Untombed(Apply(a, self, e, false).value.streams)
    ensures !replay ==> Untombed(Apply(b, self, e, replay).value.streams)
  {
    hide UpToSelf;
    hide Untombed;
    hide AddStream;
    hide RemoveStream;
    hide UpdatePart;
    match e.op {
      case Create(name, protos) => CreateSame(a, b, self, name, At(protos, e.index), replay);
      case Delete(name) => DeleteSame(a, b, self, name, replay);
      case _ => UpdateSame(a, b, self, e.index, e.op);
    }
    ApplyUntombed(a, self, e);
    if !replay { ApplyUntombed(b, self, e); }
  }

  lemma {:induction false} RunSame(a: Store, b: Store, self: string, entries: seq<Entry>, replay: bool)
    requires Untombed(a.streams) && (!replay ==> Untombed(b.streams))
    requires UpToSelf(a.streams, b.streams, self) && Run(a, self, entries, false).Ok?
    ensures Run(b, self, entries, replay).Ok?
    ensures UpToSelf(Run(a, self, entries, false).value.streams, Run(b, self, entries, replay).value.streams, self)
    ensures Untombed(Run(a, self, entries, false).value.streams)
    ensures !replay ==> Untombed(Run(b, self, entries, replay).value.streams)
  {
    hide Apply;
    hide UpToSelf;
    hide Untombed;
    if entries != [] {
      var n := |entries| - 1;
      RunSame(a, b, self, entries[..n], replay);
      ApplySame(Run(a, self, entries[..n], false).value, Run(b, self, entries[..n], replay).value, self, entries[n],
                replay);
    }
  }

  lemma AwakeSame(s: Store, self: string)
    ensures Untombed(Awake(s).streams) && UpToSelf(Awake(s).streams, s.streams, self)
  {}

  lemma FinishSame(a: Store, b: Store, self: string)
    requires Untombed(a.streams) && UpToSelf(a.streams, b.streams, self)
    ensures Untombed(Finish(b, self).streams) && UpToSelf(a.streams, Finish(b, self).streams, self)
  {
    var f := Finish(b, self).streams;
    forall n, id | Has(a.streams, n, id)
      ensures Has(f, n, id) && SamePart(a.streams[n].parts[id], f[n].parts[id], self)
    {
      var q := b.streams[n].parts[id];
      assert q.isr + {self} - {self} == q.isr - {self};
    }
  }

  /** For every log that applies live without error, and every split of it: replaying the
      first part, finishing recovery and applying the rest succeeds, and gives the same
      streams, partitions, leaders, epochs and replicas, and the same in-sync replicas up
      to this server itself. */
  lemma RecoveryEqualsLive(s: Store, self: string, entries: seq<Entry>, k: nat)
    requires k <= |entries| && Run(Awake(s), self, entries, false).Ok?
    ensures Recover(s, self, entries, k).Ok?
    ensures UpToSelf(Run(Awake(s), self, entries, false).value.streams, Recover(s, self, entries, k).value.streams,
                     self)
    ensures Untombed(Recover(s, self, entries, k).value.streams)
  {
    hide UpToSelf;
    hide Untombed;
    hide Finish;
    hide Apply;
    RunSplit(Awake(s), self, entries[..k], entries[k..], false);
    assert entries[..k] + entries[k..] == entries;
    AwakeSame(s, self);
    RunSame(Awake(s), s, self, entries[..k], true);
    var l, r := Run(Awake(s), self, entries[..k], false).value, Run(s, self, entries[..k], true).value;
    FinishSame(l, r, self);
    RunSame(l, Finish(r, self), self, entries[k..], false);
  }

  // ----- this server's own membership, read off the log -----

  /** How `self` came to be, or not to be, among the in-sync replicas of a partition:
      listed or expanded into them, shrunk or left out of them, or put back because it
      was made the leader while out. Replay does not do the last. */
  datatype Touch = Joined | Left | Led

  datatype Track = Gone | Track(leader: string, touch: Touch)

  function TrackStep(t: Track, op: Op, self: string, n: string, id: int): Track {
    match op
    case Create(m, protos) =>
      if m != n then t
      else if id !in protos then Gone
      else Track(protos[id].leader,
                 if self in protos[id].isr then Joined else if protos[id].leader == self then Led else Left)
    case Delete(m) => if m == n then Gone else t
    case Shrink(m, i, x) => if m == n && i == id && x == self && t.Track? then t.(touch := Left) else t
    case Expand(m, i, x) => if m == n && i == id && x == self && t.Track? then t.(touch := Joined) else t
    case ChangeLeader(m, i, x) =>
      if m == n && i == id && t.Track?
      then Track(x, if x == self && t.touch == Left then Led else t.touch)
      else t
  }

  /** The last thing the log did to `self` in one partition. */
  ghost function TrackOf(s: Streams, entries: seq<Entry>, self: string, n: string, id: int): Track {
    if entries == [] then
      if Has(s, n, id) then Track(s[n].parts[id].leader, if self in s[n].parts[id].isr then Joined else Left) else Gone
    else TrackStep(TrackOf(s, entries[..|entries| - 1], self, n, id), entries[|entries| - 1].op, self, n, id)
  }

  /** Finishing recovery puts `self` back where it leads. That is right if it was in
      sync by the log, or if it leads exactly where leading had put it back. */
  predicate Agrees(t: Track, self: string) {
    t.Track? ==> t.touch == Joined || (t.leader == self <==> t.touch == Led)
  }

  /** The log gives `self` in this partition anew: whatever it was before is forgotten. */
  predicate Touches(op: Op, self: string, n: string, id: int) {
    match op
    case Create(m, _) => m == n
    case Delete(m) => m == n
    case Shrink(m, i, x) => m == n && i == id && x == self
    case Expand(m, i, x) => m == n && i == id && x == self
    case ChangeLeader(m, i, x) => m == n && i == id && x == self
  }

  ghost predicate Touched(entries: seq<Entry>, self: string, n: string, id: int) {
    exists i :: 0 <= i < |entries| && Touches(entries[i].op, self, n, id)
  }

  /** What a track says of a partition live, `p`, and replayed, `q`. */
  ghost predicate TracksPart(t: Track, p: Part, q: Part, self: string)
    requires t.Track?
  {
    && p.leader == t.leader && !p.recovered && q.recovered
    && (self in p.isr <==> t.touch != Left) && (self in q.isr <==> t.touch == Joined)
  }

  ghost predicate Tracks(t: Track, a: Streams, b: Streams, self: string, n: string, id: int) {
    && (t.Track? <==> Has(a, n, id)) && (t.Track? <==> Has(b, n, id))
    && (t.Track? ==> TracksPart(t, a[n].parts[id], b[n].parts[id], self))
  }

  /** A restarted server: nothing is started yet. */
  ghost predicate Dormant(s: Streams) { forall n, id :: Has(s, n, id) ==> s[n].parts[id].recovered }

  lemma TracksStart(s: Store, self: string, n: string, id: int)
    requires Dormant(s.streams)
    ensures Tracks(TrackOf(Awake(s).streams, [], self, n, id), Awake(s).streams, s.streams, self, n, id)
  {
    assert Has(s.streams, n, id) <==> Has(Awake(s).streams, n, id);
  }

  lemma ChangedTracks(t: Track, p: Part, q: Part, self: string, index: nat, op: Op)
    requires (op.Shrink? || op.Expand? || op.ChangeLeader?) && t.Track? && TracksPart(t, p, q, self)
    requires Changed(p, self, index, op).Ok? && Changed(q, self, index, op).Ok?
    ensures TrackStep(t, op, self, op.stream, op.id).Track?
    ensures TracksPart(TrackStep(t, op, self, op.stream, op.id), Changed(p, self, index, op).value,
                       Changed(q, self, index, op).value, self)
  {}

  lemma UpdateTracks(t: Track, a: Store, b: Store, self: string, index: nat, op: Op, last: nat, n: string, id: int)
    requires (op.Shrink? || op.Expand? || op.ChangeLeader?) && Untombed(a.streams)
    requires UpToSelf(a.streams, b.streams, self)
    requires EpochsUpTo(a.streams, last) && last < index
    requires Tracks(t, a.streams, b.streams, self, n, id)
    requires UpdatePart(a, self, index, op).Ok? && UpdatePart(b, self, index, op).Ok?
    ensures Tracks(TrackStep(t, op, self, n, id), UpdatePart(a, self, index, op).value.streams,
                   UpdatePart(b, self, index, op).value.streams, self, n, id)
  {
    hide Changed;
    hide TracksPart;
    assert Has(a.streams, op.stream, op.id);
    if op.stream == n && op.id == id {
      ChangedTracks(t, a.streams[n].parts[id], b.streams[n].parts[id], self, index, op);
    }
  }

  lemma NewTracks(t: Track, op: Op, self: string, index: nat, id: int)
    requires op.Create? && id in op.protos
    ensures TrackStep(t, op, self, op.stream, id).Track?
    ensures TracksPart(TrackStep(t, op, self, op.stream, id), NewPart(At(op.protos, index)[id], self, false),
                       NewPart(At(op.protos, index)[id], self, true), self)
  {}

  lemma CreateTracks(t: Track, a: Store, b: Store, self: string, e: Entry, n: string, id: int)
    requires e.op.Create? && Tracks(t, a.streams, b.streams, self, n, id)
    requires Apply(a, self, e, false).Ok? && Apply(b, self, e, true).Ok?
    ensures Tracks(TrackStep(t, e.op, self, n, id), Apply(a, self, e, false).value.streams,
                   Apply(b, self, e, true).value.streams, self, n, id)
  {
    hide NewPart;
    hide TracksPart;
    if e.op.stream == n && id in e.op.protos { NewTracks(t, e.op, self, e.index, id); }
  }

  lemma ApplyTracks(t: Track, a: Store, b: Store, self: string, e: Entry, last: nat, n: string, id: int)
    requires Untombed(a.streams) && UpToSelf(a.streams, b.streams, self) && EpochsUpTo(a.streams, last)
    requires last < e.index
    requires Tracks(t, a.streams, b.streams, self, n, id)
    requires Apply(a, self, e, false).Ok? && Apply(b, self, e, true).Ok?
    ensures Tracks(TrackStep(t, e.op, self, n, id), Apply(a, self, e, false).value.streams,
                   Apply(b, self, e, true).value.streams, self, n, id)
  {
    hide UpToSelf;
    hide EpochsUpTo;
    hide AddStream;
    hide UpdatePart;
    match e.op
    case Create(_, _) => CreateTracks(t, a, b, self, e, n, id);
    case Delete(name) =>
    case _ => UpdateTracks(t, a, b, self, e.index, e.op, last, n, id);
  }

  /** The track after a log describes both the live and the replayed state. */
  lemma {:induction false} RunTracks(s: Store, self: string, entries: seq<Entry>, last: nat, n: string, id: int)
    requires Dormant(s.streams) && EpochsUpTo(s.streams, last) && IndexesIncrease(entries, last)
    requires Run(Awake(s), self, entries, false).Ok?
    ensures Run(s, self, entries, true).Ok?
    ensures Tracks(TrackOf(Awake(s).streams, entries, self, n, id), Run(Awake(s), self, entries, false).value.streams,
                   Run(s, self, entries, true).value.streams, self, n, id)
  {
    hide Apply;
    hide UpToSelf;
    hide Untombed;
    hide Tracks;
    hide TrackStep;
    hide Dormant;
    hide EpochsUpTo;
    AwakeSame(s, self);
    AwakeEpochs(s, last);
    if entries == [] {
      TracksStart(s, self, n, id);
    } else {
      var m := |entries| - 1;
      RunTracks(s, self, entries[..m], last, n, id);
      RunSame(Awake(s), s, self, entries[..m], true);
      RunEpochs(Awake(s), self, entries[..m], false, last);
      var a, b := Run(Awake(s), self, entries[..m], false).value, Run(s, self, entries[..m], true).value;
      ApplySame(a, b, self, entries[m], true);
      ApplyTracks(TrackOf(Awake(s).streams, entries[..m], self, n, id), a, b, self, entries[m],
                  LastIndex(entries[..m], last), n, id);
    }
  }

  lemma AwakeEpochs(s: Store, last: nat)
    requires EpochsUpTo(s.streams, last)
    ensures EpochsUpTo(Awake(s).streams, last)
  {}

  ghost predicate SameHere(a: Streams, b: Streams, n: string, id: int) {
    Has(a, n, id) && Has(b, n, id) ==> a[n].parts[id] == b[n].parts[id]
  }

  /** At the split, a partition comes out of recovery as it is live if and only if its
      track agrees. */
  lemma FinishAgrees(t: Track, a: Store, b: Store, self: string, n: string, id: int)
    requires UpToSelf(a.streams, b.streams, self) && Tracks(t, a.streams, b.streams, self, n, id)
    ensures SameHere(a.streams, Finish(b, self).streams, n, id) <==> Agrees(t, self)
  {
    if t.Track? {
      var p, q := a.streams[n].parts[id], b.streams[n].parts[id];
      assert Has(Finish(b, self).streams, n, id);
      assert Finish(b, self).streams[n].parts[id] == StartRecovered(q, self);
      var r := StartRecovered(q, self);
      assert r.isr - {self} == p.isr - {self};
      if self in r.isr <==> self in p.isr {
        assert r.isr == p.isr by { assert forall x :: x in r.isr <==> x in p.isr by { OneOff(r.isr, p.isr, self); } }
      }
    } else {
      assert !Has(a.streams, n, id);
    }
  }

  lemma OneOff(a: set<string>, b: set<string>, x: string)
    requires a - {x} == b - {x} && (x in a <==> x in b)
    ensures a == b
  {
    forall y ensures y in a <==> y in b {
      if y != x { assert y in a - {x} <==> y in b - {x}; }
    }
  }

  // ----- after the split -----

  ghost predicate Running(s: Streams) { forall n, id :: Has(s, n, id) ==> !s[n].parts[id].recovered }

  lemma ChangedSettles(p: Part, q: Part, self: string, index: nat, op: Op)
    requires (op.Shrink? || op.Expand? || op.ChangeLeader?) && SamePart(p, q, self) && !p.recovered && !q.recovered
    requires Changed(p, self, index, op).Ok? && Changed(q, self, index, op).Ok?
    ensures !Changed(p, self, index, op).value.recovered
    ensures Changed(p, self, index, op) == Changed(q, self, index, op) <==>
            Touches(op, self, op.stream, op.id) || p == q
  {
    var x, y := Changed(p, self, index, op).value, Changed(q, self, index, op).value;
    ChangedSame(p, q, self, index, op);
    if Touches(op, self, op.stream, op.id) {
      OneOff(x.isr, y.isr, self);
    } else {
      assert (self in x.isr <==> self in p.isr) && (self in y.isr <==> self in q.isr);
      if self in p.isr <==> self in q.isr { OneOff(p.isr, q.isr, self); }
    }
  }

  lemma ApplyRunning(s: Store, self: string, e: Entry)
    requires Running(s.streams) && Untombed(s.streams) && Apply(s, self, e, false).Ok?
    ensures Running(Apply(s, self, e, false).value.streams)
  {
    var t := Apply(s, self, e, false).value.streams;
    forall n, id | Has(t, n, id) ensures !t[n].parts[id].recovered {
      if !(e.op.Create? && e.op.stream == n) { assert Has(s.streams, n, id); }
    }
  }

  lemma UpdateSettles(a: Store, b: Store, self: string, index: nat, op: Op, last: nat, n: string, id: int)
    requires (op.Shrink? || op.Expand? || op.ChangeLeader?) && Untombed(a.streams) && Untombed(b.streams)
    requires UpToSelf(a.streams, b.streams, self) && Running(a.streams) && Running(b.streams)
    requires EpochsUpTo(a.streams, last) && last < index
    requires UpdatePart(a, self, index, op).Ok? && UpdatePart(b, self, index, op).Ok?
    ensures SameHere(UpdatePart(a, self, index, op).value.streams, UpdatePart(b, self, index, op).value.streams, n, id)
            <==> Touches(op, self, n, id) || SameHere(a.streams, b.streams, n, id)
  {
    hide Changed;
    assert Has(a.streams, op.stream, op.id);
    assert Has(b.streams, op.stream, op.id);
    if op.stream == n && op.id == id {
      ChangedSettles(a.streams[n].parts[id], b.streams[n].parts[id], self, index, op);
    }
  }

  lemma ApplySettles(a: Store, b: Store, self: string, e: Entry, last: nat, n: string, id: int)
    requires Untombed(a.streams) && Untombed(b.streams) && UpToSelf(a.streams, b.streams, self)
    requires Running(a.streams) && Running(b.streams) && EpochsUpTo(a.streams, last) && last < e.index
    requires Apply(a, self, e, false).Ok? && Apply(b, self, e, false).Ok?
    ensures SameHere(Apply(a, self, e, false).value.streams, Apply(b, self, e, false).value.streams, n, id)
            <==> Touches(e.op, self, n, id) || SameHere(a.streams, b.streams, n, id)
  {
    hide UpToSelf;
    hide EpochsUpTo;
    hide UpdatePart;
    hide Running;
    match e.op
    case Create(name, protos) =>
    case Delete(name) =>
    case _ => UpdateSettles(a, b, self, e.index, e.op, last, n, id);
  }

  lemma TouchedPush(entries: seq<Entry>, self: string, n: string, id: int)
    requires entries != []
    ensures Touched(entries, self, n, id) <==>
            Touches(entries[|entries| - 1].op, self, n, id) || Touched(entries[..|entries| - 1], self, n, id)
  {
    var m := |entries| - 1;
    if Touched(entries[..m], self, n, id) {
      var i :| 0 <= i < m && Touches(entries[..m][i].op, self, n, id);
      assert Touches(entries[i].op, self, n, id);
    }
  }

  /** Two running servers that differ by `self` alone differ in a partition afterwards
      if and only if they did before and the log has not touched `self` there. */
  lemma {:induction false} RunSettles(a: Store, b: Store, self: string, entries: seq<Entry>, last: nat, n: string,
                                      id: int)
    requires Untombed(a.streams) && Untombed(b.streams) && UpToSelf(a.streams, b.streams, self)
    requires Running(a.streams) && Running(b.streams) && EpochsUpTo(a.streams, last) && IndexesIncrease(entries, last)
    requires Run(a, self, entries, false).Ok?
    ensures Run(b, self, entries, false).Ok?
    ensures Running(Run(a, self, entries, false).value.streams) && Running(Run(b, self, entries, false).value.streams)
    ensures SameHere(Run(a, self, entries, false).value.streams, Run(b, self, entries, false).value.streams, n, id)
            <==> Touched(entries, self, n, id) || SameHere(a.streams, b.streams, n, id)
  {
    hide Apply;
    hide UpToSelf;
    hide Untombed;
    hide Running;
    hide Touched;
    hide SameHere;
    hide EpochsUpTo;
    RunSame(a, b, self, entries, false);
    if entries == [] {
      NothingTouched(self, n, id);
    } else {
      var m := |entries| - 1;
      RunSettles(a, b, self, entries[..m], last, n, id);
      RunSame(a, b, self, entries[..m], false);
      RunEpochs(a, self, entries[..m], false, last);
      var x, y := Run(a, self, entries[..m], false).value, Run(b, self, entries[..m], false).value;
      ApplyRunning(x, self, entries[m]);
      ApplyRunning(y, self, entries[m]);
      ApplySettles(x, y, self, entries[m], LastIndex(entries[..m], last), n, id);
      TouchedPush(entries, self, n, id);
    }
  }

  lemma NothingTouched(self: string, n: string, id: int)
    ensures !Touched([], self, n, id)
  {}

  lemma FinishRunning(s: Store, self: string)
    ensures Running(Awake(s).streams) && Running(Finish(s, self).streams)
  {
    var f := Finish(s, self).streams;
    forall n, id | Has(f, n, id) ensures !f[n].parts[id].recovered {
      assert f[n].parts[id] == StartRecovered(s.streams[n].parts[id], self);
    }
  }

  lemma {:induction false} RunRunning(s: Store, self: string, entries: seq<Entry>)
    requires Running(s.streams) && Untombed(s.streams) && Run(s, self, entries, false).Ok?
    ensures Running(Run(s, self, entries, false).value.streams) && Untombed(Run(s, self, entries, false).value.streams)
  {
    hide Apply;
    hide Running;
    hide Untombed;
    if entries != [] {
      var m := |entries| - 1;
      RunRunning(s, self, entries[..m]);
      ApplyRunning(Run(s, self, entries[..m], false).value, self, entries[m]);
      ApplyUntombed(Run(s, self, entries[..m], false).value, self, entries[m]);
    }
  }

  lemma Increasing(entries: seq<Entry>, k: nat, last: nat)
    requires k <= |entries| && IndexesIncrease(entries, last)
    ensures IndexesIncrease(entries[..k], last) && IndexesIncrease(entries[k..], LastIndex(entries[..k], last))
  {}

  /** Exactly when recovery gives a partition what live application gives it, for every
      log and split: the rest of the log touches this server there, or the replayed part
      left it a track that agrees. */
  lemma RecoveryExact(s: Store, self: string, entries: seq<Entry>, k: nat, last: nat, n: string, id: int)
    requires k <= |entries| && Run(Awake(s), self, entries, false).Ok?
    requires Dormant(s.streams) && EpochsUpTo(s.streams, last) && IndexesIncrease(entries, last)
    ensures Recover(s, self, entries, k).Ok?
    ensures SameHere(Run(Awake(s), self, entries, false).value.streams, Recover(s, self, entries, k).value.streams,
                     n, id)
            <==> Touched(entries[k..], self, n, id)
                 || Agrees(TrackOf(Awake(s).streams, entries[..k], self, n, id), self)
  {
    hide Apply;
    hide UpToSelf;
    hide Untombed;
    hide Running;
    hide Touched;
    hide SameHere;
    hide EpochsUpTo;
    hide Finish;
    hide Tracks;
    hide TrackOf;
    hide Agrees;
    hide Dormant;
    RunSplit(Awake(s), self, entries[..k], entries[k..], false);
    assert entries[..k] + entries[k..] == entries;
    Increasing(entries, k, last);
    AwakeSame(s, self);
    AwakeEpochs(s, last);
    RunSame(Awake(s), s, self, entries[..k], true);
    RunTracks(s, self, entries[..k], last, n, id);
    RunEpochs(Awake(s), self, entries[..k], false, last);
    var l, r := Run(Awake(s), self, entries[..k], false).value, Run(s, self, entries[..k], true).value;
    FinishSame(l, r, self);
    FinishRunning(s, self);
    FinishRunning(r, self);
    RunRunning(Awake(s), self, entries[..k]);
    FinishAgrees(TrackOf(Awake(s).streams, entries[..k], self, n, id), l, r, self, n, id);
    RunSettles(l, Finish(r, self), self, entries[k..], LastIndex(entries[..k], last), n, id);
  }

  lemma AllSame(a: Streams, b: Streams, self: string)
    requires UpToSelf(a, b, self) && Untombed(a) && Untombed(b)
    ensures a == b <==> forall n, id :: SameHere(a, b, n, id)
  {
    if forall n, id :: SameHere(a, b, n, id) {
      assert forall n :: n in a.Keys <==> n in b.Keys;
      forall n | n in a ensures a[n] == b[n] {
        forall id | id in a[n].parts ensures a[n].parts[id] == b[n].parts[id] {
          assert SameHere(a, b, n, id) && Has(a, n, id);
        }
        assert a[n].parts == b[n].parts;
      }
      assert a == b;
    }
  }

  /** The whole store: recovery equals live application if and only if every partition
      that the rest of the log leaves alone has a track that agrees. */
  lemma RecoveryEqualsLiveIff(s: Store, self: string, entries: seq<Entry>, k: nat, last: nat)
    requires k <= |entries| && Run(Awake(s), self, entries, false).Ok?
    requires Dormant(s.streams) && EpochsUpTo(s.streams, last) && IndexesIncrease(entries, last)
    ensures Recover(s, self, entries, k).Ok?
    ensures Run(Awake(s), self, entries, false).value.streams == Recover(s, self, entries, k).value.streams <==>
            forall n, id :: Touched(entries[k..], self, n, id)
              || Agrees(TrackOf(Awake(s).streams, entries[..k], self, n, id), self)
  {
    hide Apply;
    hide UpToSelf;
    hide Untombed;
    hide Touched;
    hide SameHere;
    hide EpochsUpTo;
    hide Recover;
    hide TrackOf;
    hide Agrees;
    hide Dormant;
    AwakeSame(s, self);
    FinishRunning(s, self);
    RunRunning(Awake(s), self, entries);
    RecoveryEqualsLive(s, self, entries, k);
    AllSame(Run(Awake(s), self, entries, false).value.streams, Recover(s, self, entries, k).value.streams, self);
    forall n, id { RecoveryExact(s, self, entries, k, last, n, id); }
  }

  // ----- logs as the metadata leader means to write them -----

  /** A leader is chosen in sync and is not shrunk away while it leads. */
  ghost predicate Meant(s: Streams, op: Op) {
    match op
    case Create(_, protos) => forall id :: id in protos ==> protos[id].leader in protos[id].isr
    case Delete(_) => true
    case Shrink(n, id, x) => Has(s, n, id) ==> x != s[n].parts[id].leader
    case Expand(_, _, _) => true
    case ChangeLeader(n, id, x) => Has(s, n, id) ==> x in s[n].parts[id].isr
  }

  ghost predicate AllMeant(s: Store, self: string, entries: seq<Entry>) {
    forall i :: 0 <= i < |entries| && Run(s, self, entries[..i], false).Ok? ==>
      Meant(Run(s, self, entries[..i], false).value.streams, entries[i].op)
  }

  /** In such a log every track agrees, at every point of it. */
  lemma {:induction false} MeantLogsAgree(s: Store, self: string, entries: seq<Entry>, last: nat, n: string, id: int)
    requires Dormant(s.streams) && EpochsUpTo(s.streams, last) && IndexesIncrease(entries, last)
    requires Run(Awake(s), self, entries, false).Ok? && AllMeant(Awake(s), self, entries)
    requires forall m, i :: Has(s.streams, m, i) ==> s.streams[m].parts[i].leader in s.streams[m].parts[i].isr
    ensures var t := TrackOf(Awake(s).streams, entries, self, n, id);
            t.Track? ==> t.touch != Led && (t.leader == self ==> t.touch == Joined)
  {
    hide Apply;
    hide EpochsUpTo;
    hide Dormant;
    if entries == [] {
      assert Has(Awake(s).streams, n, id) ==> Has(s.streams, n, id);
    } else {
      var m := |entries| - 1;
      assert AllMeant(Awake(s), self, entries[..m]) by {
        assert forall i :: 0 <= i < m ==> entries[..m][..i] == entries[..i];
      }
      MeantLogsAgree(s, self, entries[..m], last, n, id);
      RunTracks(s, self, entries[..m], last, n, id);
      assert entries[..m] == entries[..m];
      assert Meant(Run(Awake(s), self, entries[..m], false).value.streams, entries[m].op);
    }
  }
}
