/** What the operations of a consumer group do to its members: who is in it, which streams
    they subscribe to, whose partitions move, and that what moves is shared out fairly. */
module GroupLaws {
  import opened Collections
  import opened GroupSpec

  /** The same members with the same subscriptions, and the same partitions of every stream
      but the touched ones. */
  ghost predicate Reassigned(ms: Members, now: Members, touched: set<string>) {
    && now.Keys == ms.Keys
    && (forall x :: x in ms ==> now[x].streams == ms[x].streams)
    && (forall x, s :: x in ms && s !in touched ==> now[x].Of(s) == ms[x].Of(s))
  }

  lemma ReassignedTwice(a: Members, b: Members, c: Members, one: set<string>, two: set<string>)
    requires Reassigned(a, b, one) && Reassigned(b, c, two)
    ensures Reassigned(a, c, one + two)
  {}

  lemma KeptBut(ms: Members, now: Members, stream: string, s: string)
    requires Reassigned(ms, now, {stream}) && s != stream
    ensures now.Keys == ms.Keys && forall x :: x in ms ==> now[x].Of(s) == ms[x].Of(s)
  {
    var touched := {stream};
    assert s !in touched;
  }

  /** The stream is balanced: among its subscribers in `h`, and fairly. */
  ghost predicate SharedOut(h: Group, stream: string) {
    && stream in h.subs && h.subs[stream] <= h.members.Keys
    && (h.subs[stream] != {} ==> Fair(h.members, h.subs[stream], stream))
  }

  lemma BalanceShares(g: Group, stream: string, n: nat)
    requires Closed(g)
    ensures Reassigned(g.members, Balance(g, stream, n).members, {stream})
    ensures stream in g.subs ==> SharedOut(Balance(g, stream, n), stream)
  {
    hide Balance;
    if stream in g.subs && g.subs[stream] != {} {
      BalancePartitions(g, stream, n);
      BalanceFair(g, stream, n);
    } else {
      BalanceIdle(g, stream, n);
    }
  }

  lemma SubscribeShares(parts: map<string, nat>, g: Group, id: string, stream: string)
    requires Closed(g) && id in g.members
    ensures var h := Subscribe(parts, g, id, stream);
            && Reassigned(g.members, h.members, {stream}) && SharedOut(h, stream)
            && h.subs == g.subs[stream := (if stream in g.subs then g.subs[stream] else {}) + {id}]
  {
    hide Balance;
    hide Reassigned;
    hide SharedOut;
    var subs := if stream in g.subs then g.subs[stream] else {};
    BalanceShares(g.(subs := g.subs[stream := subs + {id}]), stream, PartitionsOf(parts, stream));
  }

  lemma ReassignedNone(ms: Members, touched: set<string>)
    ensures Reassigned(ms, ms, touched)
  {}

  lemma UnsubscribeShares(parts: map<string, nat>, g: Group, id: string, stream: string)
    requires Closed(g) && id in g.members
    ensures var h := Unsubscribe(parts, g, id, stream);
            && Reassigned(g.members, h.members, {stream})
            && (stream in g.subs ==> h.subs == g.subs[stream := g.subs[stream] - {id}])
            && (stream in g.subs && stream in g.members[id].held ==> SharedOut(h, stream))
            && (stream !in g.members[id].held ==> h.members == g.members)
  {
    hide Balance;
    hide Reassigned;
    hide SharedOut;
    ReassignedNone(g.members, {stream});
    if stream in g.subs {
      BalanceShares(g.(subs := g.subs[stream := g.subs[stream] - {id}]), stream, PartitionsOf(parts, stream));
    }
  }

  // ----- joining -----

  lemma {:induction false} SubscribeAllShares(parts: map<string, nat>, g: Group, id: string, streams: seq<string>,
                                              i: nat)
    requires Closed(g) && id in g.members && i < |streams|
    requires forall j, k :: 0 <= j < k < |streams| ==> streams[j] != streams[k]
    ensures SharedOut(SubscribeAll(parts, g, id, streams[..i + 1]), streams[i])
    ensures forall x :: x in g.members ==>
              SubscribeAll(parts, g, id, streams).members[x].Of(streams[i]) ==
              SubscribeAll(parts, g, id, streams[..i + 1]).members[x].Of(streams[i])
  {
    hide Subscribe;
    hide SharedOut;
    hide SubscribeAll;
    hide Reassigned;
    var n := |streams| - 1;
    var h := SubscribeAll(parts, g, id, streams[..n]);
    SubscribeAllStep(parts, g, id, streams, n);
    SubscribeShares(parts, h, id, streams[n]);
    assert streams[..n + 1] == streams;
    if i < n {
      SubscribeAllShares(parts, g, id, streams[..n], i);
      assert streams[..n][..i + 1] == streams[..i + 1] && streams[..n][i] == streams[i];
      KeptBut(h.members, Subscribe(parts, h, id, streams[n]).members, streams[n], streams[i]);
    }
  }

  lemma {:induction false} SubscribeAllTouches(parts: map<string, nat>, g: Group, id: string, streams: seq<string>)
    requires Closed(g) && id in g.members
    ensures Reassigned(g.members, SubscribeAll(parts, g, id, streams).members, ToSet(streams))
  {
    hide Subscribe;
    hide Reassigned;
    if streams == [] {
      ReassignedNone(g.members, ToSet(streams));
    } else {
      var n := |streams| - 1;
      var h := SubscribeAll(parts, g, id, streams[..n]);
      SubscribeAllTouches(parts, g, id, streams[..n]);
      SubscribeShares(parts, h, id, streams[n]);
      var r := Subscribe(parts, h, id, streams[n]);
      ReassignedTwice(g.members, h.members, r.members, ToSet(streams[..n]), {streams[n]});
      assert ToSet(streams[..n]) + {streams[n]} == ToSet(streams);
    }
  }

  /** A join adds exactly the member, with exactly its streams; nobody else's subscriptions
      change, and nobody's partitions of other streams move. */
  lemma JoinIs(parts: map<string, nat>, g: Group, id: string, streams: set<string>)
    requires Closed(g) && id !in g.members
    ensures var r := Join(parts, g, id, streams);
            && r.members.Keys == g.members.Keys + {id} && r.members[id].streams == streams
            && (forall x :: x in g.members ==> r.members[x].streams == g.members[x].streams)
            && (forall x, s :: x in g.members && s !in streams ==> r.members[x].Of(s) == g.members[x].Of(s))
  {
    hide SubscribeAll;
    hide InOrder;
    var e := g.(members := g.members[id := Member(streams, map[], 0)]);
    SubscribeAllTouches(parts, e, id, InOrder(streams));
    InOrderIs(streams);
    assert ToSet(InOrder(streams)) == streams;
  }

  /** Each stream it joins is shared out fairly in its turn, and stays so. */
  lemma JoinShares(parts: map<string, nat>, g: Group, id: string, streams: set<string>, i: nat)
    requires Closed(g) && id !in g.members && i < |InOrder(streams)|
    ensures var order, e := InOrder(streams), g.(members := g.members[id := Member(streams, map[], 0)]);
            var h := SubscribeAll(parts, e, id, order[..i + 1]);
            && SharedOut(h, order[i])
            && forall x :: x in e.members ==>
                 Join(parts, g, id, streams).members[x].Of(order[i]) == h.members[x].Of(order[i])
  {
    hide SubscribeAll;
    hide InOrder;
    hide SharedOut;
    InOrderIs(streams);
    SubscribeAllShares(parts, g.(members := g.members[id := Member(streams, map[], 0)]), id, InOrder(streams), i);
  }

  // ----- leaving -----

  lemma {:induction false} UnsubscribeAllTouches(parts: map<string, nat>, g: Group, id: string, streams: seq<string>)
    requires Closed(g) && id in g.members
    ensures Reassigned(g.members, UnsubscribeAll(parts, g, id, streams).members, ToSet(streams))
  {
    hide Unsubscribe;
    hide Reassigned;
    if streams == [] {
      ReassignedNone(g.members, ToSet(streams));
    } else {
      var n := |streams| - 1;
      var h := UnsubscribeAll(parts, g, id, streams[..n]);
      UnsubscribeAllTouches(parts, g, id, streams[..n]);
      UnsubscribeShares(parts, h, id, streams[n]);
      var r := Unsubscribe(parts, h, id, streams[n]);
      ReassignedTwice(g.members, h.members, r.members, ToSet(streams[..n]), {streams[n]});
      assert ToSet(streams[..n]) + {streams[n]} == ToSet(streams);
    }
  }

  /** A leave takes out exactly the member; nobody else's subscriptions change, and only
      partitions of its streams move. */
  lemma LeaveIs(parts: map<string, nat>, g: Group, id: string)
    requires Closed(g) && id in g.members
    ensures var r := Leave(parts, g, id);
            && r.members.Keys == g.members.Keys - {id}
            && (forall x :: x in g.members && x != id ==> r.members[x].streams == g.members[x].streams)
            && (forall x, s :: x in g.members && x != id && s !in g.members[id].streams ==>
                  r.members[x].Of(s) == g.members[x].Of(s))
  {
    hide UnsubscribeAll;
    hide InOrder;
    var order := InOrder(g.members[id].streams);
    UnsubscribeAllTouches(parts, g, id, order);
    InOrderIs(g.members[id].streams);
    assert ToSet(order) == g.members[id].streams;
  }

  lemma {:induction false} UnsubscribeAllShares(parts: map<string, nat>, g: Group, id: string, streams: seq<string>,
                                                i: nat)
    requires Closed(g) && id in g.members && i < |streams|
    requires forall j, k :: 0 <= j < k < |streams| ==> streams[j] != streams[k]
    ensures var before := UnsubscribeAll(parts, g, id, streams[..i]);
            var after := UnsubscribeAll(parts, g, id, streams[..i + 1]);
            && (streams[i] in before.subs && streams[i] in before.members[id].held ==> SharedOut(after, streams[i]))
            && forall x :: x in g.members ==>
                 UnsubscribeAll(parts, g, id, streams).members[x].Of(streams[i]) == after.members[x].Of(streams[i])
  {
    hide Unsubscribe;
    hide SharedOut;
    hide UnsubscribeAll;
    hide Reassigned;
    var n := |streams| - 1;
    var h := UnsubscribeAll(parts, g, id, streams[..n]);
    UnsubscribeAllStep(parts, g, id, streams, n);
    UnsubscribeShares(parts, h, id, streams[n]);
    assert streams[..n + 1] == streams;
    if i < n {
      UnsubscribeAllShares(parts, g, id, streams[..n], i);
      assert streams[..n][..i + 1] == streams[..i + 1] && streams[..n][..i] == streams[..i];
      assert streams[..n][i] == streams[i];
      KeptBut(h.members, Unsubscribe(parts, h, id, streams[n]).members, streams[n], streams[i]);
    }
  }

  /** Each stream of which it held something is shared out fairly among the others. */
  lemma LeaveShares(parts: map<string, nat>, g: Group, id: string, i: nat)
    requires Closed(g) && id in g.members && i < |InOrder(g.members[id].streams)|
    ensures var order := InOrder(g.members[id].streams);
            var before, after := UnsubscribeAll(parts, g, id, order[..i]), UnsubscribeAll(parts, g, id, order[..i + 1]);
            && (order[i] in before.subs && order[i] in before.members[id].held ==> SharedOut(after, order[i]))
            && forall x :: x in g.members && x != id ==>
                 Leave(parts, g, id).members[x].Of(order[i]) == after.members[x].Of(order[i])
  {
    hide UnsubscribeAll;
    hide InOrder;
    hide SharedOut;
    InOrderIs(g.members[id].streams);
    UnsubscribeAllShares(parts, g, id, InOrder(g.members[id].streams), i);
  }

  // ----- deleting a stream -----

  lemma BalanceAllStep(parts: map<string, nat>, g: Group, streams: seq<string>)
    requires Closed(g) && streams != []
    ensures var n := |streams| - 1;
            BalanceAll(parts, g, streams) ==
            Balance(BalanceAll(parts, g, streams[..n]), streams[n], PartitionsOf(parts, streams[n]))
  {}

  lemma {:induction false} BalanceAllTouches(parts: map<string, nat>, g: Group, streams: seq<string>)
    requires Closed(g)
    ensures Reassigned(g.members, BalanceAll(parts, g, streams).members, ToSet(streams))
  {
    hide Balance;
    if streams != [] {
      var n := |streams| - 1;
      var h := BalanceAll(parts, g, streams[..n]);
      BalanceAllTouches(parts, g, streams[..n]);
      BalanceShares(h, streams[n], PartitionsOf(parts, streams[n]));
      ReassignedTwice(g.members, h.members, BalanceAll(parts, g, streams).members, ToSet(streams[..n]), {streams[n]});
      assert ToSet(streams[..n]) + {streams[n]} == ToSet(streams);
    }
  }

  /** A deletion takes the stream, and what is held of it, from exactly those who
      subscribed to it; only partitions of their other streams move. */
  lemma DeleteIs(parts: map<string, nat>, g: Group, stream: string)
    requires Sound(parts, g)
    ensures var r := DeleteStream(parts, g, stream);
            && r.members.Keys == g.members.Keys
            && (forall x :: x in g.members ==> r.members[x].streams == g.members[x].streams - {stream})
            && (forall x :: x in g.members ==> r.members[x].Of(stream) == [])
            && (forall x, s :: x in g.members && s != stream && Apart(g.members, stream, s) ==>
                  r.members[x].Of(s) == g.members[x].Of(s))
  {
    hide BalanceAll;
    hide InOrder;
    hide Reassigned;
    hide Sound;
    hide Forget;
    hide Affected;
    hide Apart;
    Subscribers(parts, g, stream);
    if stream in g.subs {
      var h := Forget(g, stream);
      var affected := Affected(h.members, g.subs[stream]);
      ForgetIs(g, stream);
      BalanceAllTouches(parts, h, InOrder(affected));
      InOrderIs(affected);
      assert ToSet(InOrder(affected)) == affected;
      Unaffected(h.members, DeleteStream(parts, g, stream).members, affected);
    }
  }

  /** Nobody subscribes to both streams. */
  ghost predicate Apart(ms: Members, one: string, two: string) {
    forall y :: y in ms && two in ms[y].streams ==> one !in ms[y].streams
  }

  lemma Subscribers(parts: map<string, nat>, g: Group, stream: string)
    requires Sound(parts, g)
    ensures Closed(g)
    ensures forall x :: x in g.members ==> (stream in g.members[x].streams <==> stream in g.subs && x in g.subs[stream])
    ensures forall x :: x in g.members && stream !in g.members[x].streams ==> g.members[x].Of(stream) == []
  {
    hide Partitioned;
    hide Counted;
  }

  lemma ForgetIs(g: Group, stream: string)
    requires Closed(g) && stream in g.subs
    requires forall x :: x in g.members ==> (stream in g.members[x].streams <==> x in g.subs[stream])
    requires forall x :: x in g.members && stream !in g.members[x].streams ==> g.members[x].Of(stream) == []
    ensures var h, affected := Forget(g, stream), Affected(Forget(g, stream).members, g.subs[stream]);
            && Closed(h) && h.members.Keys == g.members.Keys && stream !in affected
            && (forall x :: x in g.members ==> h.members[x].streams == g.members[x].streams - {stream})
            && (forall x :: x in g.members ==> h.members[x].Of(stream) == [])
            && (forall x, s :: x in g.members && s != stream ==> h.members[x].Of(s) == g.members[x].Of(s))
            && (forall s :: s != stream && Apart(g.members, stream, s) ==> s !in affected)
  {}

  lemma Unaffected(ms: Members, now: Members, touched: set<string>)
    requires Reassigned(ms, now, touched)
    ensures now.Keys == ms.Keys && forall x :: x in ms ==> now[x].streams == ms[x].streams
    ensures forall x, s :: x in ms && s !in touched ==> now[x].Of(s) == ms[x].Of(s)
  {}

  lemma {:induction false} BalanceAllShares(parts: map<string, nat>, g: Group, streams: seq<string>, i: nat)
    requires Closed(g) && i < |streams| && streams[i] in g.subs
    requires forall j, k :: 0 <= j < k < |streams| ==> streams[j] != streams[k]
    ensures var after := BalanceAll(parts, g, streams[..i + 1]);
            && SharedOut(after, streams[i])
            && forall x :: x in g.members ==>
                 BalanceAll(parts, g, streams).members[x].Of(streams[i]) == after.members[x].Of(streams[i])
  {
    hide Balance;
    hide SharedOut;
    hide Reassigned;
    hide BalanceAll;
    var n := |streams| - 1;
    var h := BalanceAll(parts, g, streams[..n]);
    BalanceAllStep(parts, g, streams);
    BalanceShares(h, streams[n], PartitionsOf(parts, streams[n]));
    assert streams[..n + 1] == streams;
    if i < n {
      BalanceAllShares(parts, g, streams[..n], i);
      assert streams[..n][..i + 1] == streams[..i + 1] && streams[..n][i] == streams[i];
      KeptBut(h.members, BalanceAll(parts, g, streams).members, streams[n], streams[i]);
    }
  }

  /** Each of those streams is shared out fairly again in its turn, and stays so. */
  lemma DeleteShares(parts: map<string, nat>, g: Group, stream: string, i: nat)
    requires Sound(parts, g) && stream in g.subs
    requires i < |InOrder(Affected(Forget(g, stream).members, g.subs[stream]))|
    ensures var h := Forget(g, stream);
            var order := InOrder(Affected(h.members, g.subs[stream]));
            Closed(h) && var after := BalanceAll(parts, h, order[..i + 1]);
            && SharedOut(after, order[i])
            && forall x :: x in g.members ==>
                 DeleteStream(parts, g, stream).members[x].Of(order[i]) == after.members[x].Of(order[i])
  {
    hide BalanceAll;
    hide InOrder;
    hide SharedOut;
    hide Partitioned;
    hide Counted;
    var h := Forget(g, stream);
    var affected := Affected(h.members, g.subs[stream]);
    var order := InOrder(affected);
    InOrderIs(affected);
    assert order[i] in order;
    assert order[i] in h.subs;
    BalanceAllShares(parts, h, order, i);
  }

  // ----- who is in the group -----

  type Roster = map<string, set<string>>

  function Enrolled(g: Group): Roster { map x | x in g.members :: g.members[x].streams }

  /** What an operation with a current epoch does to the members and their streams. */
  function Called(roster: Roster, op: Op): Roster {
    match op
    case JoinOp(id, streams, _) => if id in roster then roster else roster[id := streams]
    case LeaveOp(id, _) => roster - {id}
    case DeleteOp(stream, _) => map x | x in roster :: roster[x] - {stream}
    case _ => roster
  }

  /** The members of a group and their streams are what its operations say, whatever
      happens to the assignments. */
  lemma EnrolledIs(s: State, op: Op)
    requires Good(s)
    ensures Enrolled(Apply(s, op).g) == if op.epoch < s.epoch then Enrolled(s.g) else Called(Enrolled(s.g), op)
  {
    hide Join;
    hide Leave;
    hide DeleteStream;
    hide Sound;
    SoundClosed(s.parts, s.g);
    if op.epoch >= s.epoch {
      match op {
        case JoinOp(id, streams, e) => if id !in s.g.members { JoinEnrolls(s.parts, s.g, id, streams); }
        case LeaveOp(id, e) => LeaveEnrolls(s.parts, s.g, id);
        case DeleteOp(stream, e) => DeleteEnrolls(s.parts, s.g, stream);
        case CoordinatorOp(c, e) =>
        case CreateOp(stream, n, e) =>
      }
    }
  }

  /** An operation with a current epoch that applies sets the epoch of the group; a new
      coordinator is the named one; a created stream has its partitions. A stale one, and
      one that does not apply, changes nothing. */
  lemma OpTakesEffect(s: State, op: Op)
    requires Good(s)
    ensures var applies := op.epoch >= s.epoch && match op {
              case JoinOp(id, _, _) => id !in s.g.members
              case LeaveOp(id, _) => id in s.g.members
              case DeleteOp(stream, _) => stream in s.g.subs
              case CoordinatorOp(_, _) => true
              case CreateOp(stream, _, _) => forall x :: x in s.g.members ==> stream !in s.g.members[x].streams
            };
            var t := Apply(s, op);
            && (!applies ==> t == s)
            && (applies ==>
                  && t.epoch == (if op.CreateOp? then s.epoch else op.epoch)
                  && t.coordinator == (if op.CoordinatorOp? then op.coordinator else s.coordinator)
                  && t.parts == (if op.CreateOp? then s.parts[op.stream := op.n] else s.parts)
                  && (op.CoordinatorOp? || op.CreateOp? ==> t.g == s.g))
  {
    hide Join;
    hide Leave;
    hide DeleteStream;
    hide Partitioned;
    hide Counted;
    if op.CreateOp? && op.stream in s.g.subs && s.g.subs[op.stream] != {} {
      var x :| x in s.g.subs[op.stream];
      assert op.stream in s.g.members[x].streams;
    }
  }

  lemma SoundClosed(parts: map<string, nat>, g: Group)
    requires Sound(parts, g)
    ensures Closed(g)
  {}

  lemma JoinEnrolls(parts: map<string, nat>, g: Group, id: string, streams: set<string>)
    requires Closed(g) && id !in g.members
    ensures Enrolled(Join(parts, g, id, streams)) == Enrolled(g)[id := streams]
  {
    hide Join;
    JoinIs(parts, g, id, streams);
    SameMap(Enrolled(Join(parts, g, id, streams)), Enrolled(g)[id := streams]);
  }

  lemma LeaveEnrolls(parts: map<string, nat>, g: Group, id: string)
    requires Closed(g)
    ensures Enrolled(g) - {id} == if id in g.members then Enrolled(Leave(parts, g, id)) else Enrolled(g)
  {
    hide Leave;
    if id in g.members {
      LeaveIs(parts, g, id);
      SameMap(Enrolled(Leave(parts, g, id)), Enrolled(g) - {id});
    } else {
      SameMap(Enrolled(g), Enrolled(g) - {id});
    }
  }

  lemma DeleteEnrolls(parts: map<string, nat>, g: Group, stream: string)
    requires Sound(parts, g)
    ensures Closed(g)
    ensures Enrolled(DeleteStream(parts, g, stream)) == (map x | x in Enrolled(g) :: Enrolled(g)[x] - {stream})
    ensures stream !in g.subs ==> DeleteStream(parts, g, stream) == g
  {
    SoundClosed(parts, g);
    DeleteIs(parts, g, stream);
    hide DeleteStream;
    hide Sound;
    SameMap(Enrolled(DeleteStream(parts, g, stream)), map x | x in Enrolled(g) :: Enrolled(g)[x] - {stream});
  }
}
