/** The consumer group object: members and one heap of subscribers per stream, the same
    consumer in several heaps. Every operation is tied to its meaning in GroupSpec, which
    mentions no heap, so the outcome does not depend on heap layout or map order. */
module Groups {
  import opened Wrappers
  import opened GroupSpec
  import opened ConsumerHeap
  import opened Collections

  datatype Error = ErrEpoch | ErrNotMember | ErrNotCoordinator | ErrNotActive

  function IdsOf(h: Heap): set<string> { set i | 0 <= i < |h| :: h[i].id }

  class ConsumerGroup {
    const serverID: string
    var members: map<string, Consumer>
    var subscribers: map<string, Heap>
    var partitions: map<string, nat>
    var coordinator: string
    var epoch: nat
    var recovered: bool
    /** The members with a liveness timer. */
    var timers: set<string>
    ghost var consumers: set<Consumer>

    /** Each heap holds distinct members subscribed to its stream. */
    ghost predicate Shaped()
      reads `members, `subscribers, `consumers, consumers
    {
      && (forall x :: x in members ==> members[x].id == x && members[x] in consumers)
      && (forall s, i :: s in subscribers && 0 <= i < |subscribers[s]| ==> InHeap(subscribers[s][i], s))
      && (forall s, i, j :: s in subscribers && 0 <= i < j < |subscribers[s]| ==>
          subscribers[s][i] != subscribers[s][j])
    }

    ghost predicate InHeap(c: Consumer, s: string)
      reads `members, `subscribers, `consumers, consumers
    {
      c in consumers && c.id in members && members[c.id] == c && s in c.streams
    }

    ghost function Members(): (r: GroupSpec.Members)
      requires Shaped()
      reads `members, `subscribers, `consumers, consumers
      ensures r.Keys == members.Keys
    {
      map x | x in members :: members[x].View()
    }

    ghost function Subs(): (r: map<string, set<string>>)
      reads `subscribers
      ensures r.Keys == subscribers.Keys
    {
      map s | s in subscribers :: IdsOf(subscribers[s])
    }

    ghost function View(): Group
      requires Shaped()
      reads `members, `subscribers, `consumers, consumers
    {
      Group(Members(), Subs())
    }

    /** Timers run on the coordinator only, and there for every member unless the group
        is being recovered. */
    ghost predicate Watched()
      reads `members, `timers, `coordinator, `recovered
    {
      && timers <= members.Keys
      && (coordinator != serverID ==> timers == {})
      && (coordinator == serverID && !recovered ==> timers == members.Keys)
    }

    constructor (serverID: string, coordinator: string, epoch: nat, recovered: bool)
      ensures Shaped() && View() == Group(map[], map[]) && fresh(consumers) && Watched() && this.recovered == recovered
      ensures this.serverID == serverID && this.coordinator == coordinator && this.epoch == epoch && partitions == map[]
    {
      this.serverID, this.coordinator, this.epoch := serverID, coordinator, epoch;
      this.recovered, timers := recovered, {};
      members, subscribers, partitions, consumers := map[], map[], map[], {};
    }

    method InitHeap(stream: string)
      requires Shaped() && stream in subscribers
      modifies `subscribers
      ensures Shaped() && View() == old(View())
      ensures subscribers.Keys == old(subscribers.Keys)
      ensures forall s :: s in subscribers && s != stream ==> subscribers[s] == old(subscribers[s])
      ensures OrderedFrom(subscribers[stream], 0)
    {
      var h := ConsumerHeap.Init(subscribers[stream]);
      SamePermutation(subscribers[stream], h);
      SetHeap(stream, h);
      assert Subs() == old(Subs());
    }

    /** Gives a partition to a consumer and restores the order of every heap it is in. */
    method AssignPartition(stream: string, partition: int, c: Consumer)
      requires Shaped() && c.id in members && members[c.id] == c
      modifies `subscribers, c
      ensures Shaped() && c.streams == old(c.streams) && subscribers.Keys == old(subscribers.Keys)
      ensures View() == old(View()).(members := old(Members())[c.id := old(c.View()).Give(stream, partition)])
      ensures forall s :: s in subscribers && s in c.streams ==> OrderedFrom(subscribers[s], 0)
    {
      c.AssignPartition(stream, partition);
      assert Members() == old(Members())[c.id := old(c.View()).Give(stream, partition)];
      RestoreHeaps(c.streams);
    }

    method RestoreHeaps(streams: set<string>)
      requires Shaped()
      modifies `subscribers
      ensures Shaped() && View() == old(View()) && subscribers.Keys == old(subscribers.Keys)
      ensures forall s :: s in subscribers && s in streams ==> OrderedFrom(subscribers[s], 0)
    {
      hide OrderedFrom;
      var rest := streams;
      while rest != {}
        invariant Shaped() && View() == old(View()) && subscribers.Keys == old(subscribers.Keys)
        invariant rest <= streams
        invariant forall s :: s in subscribers && s in streams && s !in rest ==> OrderedFrom(subscribers[s], 0)
        decreases |rest|
      {
        var s :| s in rest;
        if s in subscribers { InitHeap(s); }
        rest := rest - {s};
      }
    }

    /** The root of an ordered heap is the neediest of its consumers. */
    lemma PeekNeediest(stream: string)
      requires Shaped() && stream in subscribers && |subscribers[stream]| > 0 && OrderedFrom(subscribers[stream], 0)
      ensures IsNeediest(Members(), IdsOf(subscribers[stream]), subscribers[stream][0].id)
      ensures var ms, a := Members(), subscribers[stream][0].id;
              forall b :: b in IdsOf(subscribers[stream]) && b != a ==>
                ms[a].count < ms[b].count || (ms[a].count == ms[b].count && Less(a, b))
    {
      var h, ms := subscribers[stream], Members();
      var a := h[0].id;
      forall b | b in IdsOf(h) && b != a ensures Precedes(ms, a, b) {
        var i :| 0 <= i < |h| && h[i].id == b;
        RootFirst(h, i);
        assert InHeap(h[i], stream) && InHeap(h[0], stream);
        LessTotal(a, b);
      }
      forall b | b in IdsOf(h) ensures b in ms {
        var i :| 0 <= i < |h| && h[i].id == b;
        assert InHeap(h[i], stream);
      }
    }

    method ResetAssignments(stream: string)
      requires Shaped() && stream in subscribers
      modifies consumers
      ensures Shaped()
      ensures View() == old(View()).(members := DropAll(old(Members()), IdsOf(subscribers[stream]), stream))
    {
      hide ConsumerGroup.Members;
      var h := subscribers[stream];
      DropNone(Members(), stream);
      for i := 0 to |h|
        invariant Shaped() && Members() == DropAll(old(Members()), IdsOf(h[..i]), stream)
      {
        assert InHeap(h[i], stream);
        DropAt(h[i], stream);
        DropOne(old(Members()), h, i, stream);
      }
      assert h[..|h|] == h;
    }

    method DropAt(c: Consumer, stream: string)
      requires Shaped() && c in consumers && c.id in members && members[c.id] == c
      modifies c
      ensures Shaped() && Members() == old(Members())[c.id := old(Members()[c.id]).Drop(stream)]
    {
      c.RemoveStreamAssignments(stream);
      assert forall s, i :: s in subscribers && 0 <= i < |subscribers[s]| ==> old(InHeap(subscribers[s][i], s));
      assert Members() == old(Members())[c.id := old(Members()[c.id]).Drop(stream)];
    }

    /** Balancing through the heap is balancing by need. */
    method BalanceAssignmentsForStream(stream: string)
      requires Shaped()
      modifies `subscribers, consumers
      ensures Shaped() && subscribers.Keys == old(subscribers.Keys)
      ensures View() == Balance(old(View()), stream, PartitionsOf(partitions, stream))
    {
      hide OrderedFrom;
      hide AssignUpTo;
      if stream !in subscribers || |subscribers[stream]| == 0 {
        assert stream in subscribers ==> Subs()[stream] == {};
        return;
      }
      assert subscribers[stream][0].id in Subs()[stream];
      ResetAssignments(stream);
      InitHeap(stream);
      AssignAll(stream);
    }

    method AssignAll(stream: string)
      requires Shaped() && stream in subscribers && Subs()[stream] != {} && OrderedFrom(subscribers[stream], 0)
      modifies `subscribers, consumers
      ensures Shaped() && subscribers.Keys == old(subscribers.Keys) && Subs() == old(Subs())
      ensures old(Subs()[stream] <= Members().Keys)
      ensures Members() == AssignUpTo(old(Members()), old(Subs()[stream]), stream, PartitionsOf(partitions, stream))
    {
      hide ConsumerGroup.Members;
      hide OrderedFrom;
      hide IsNeediest;
      hide ConsumerGroup.Shaped;
      hide Neediest;
      ghost var ms, ids := Members(), Subs()[stream];
      PeekNeediest(stream);
      NeediestSubset(ms, ids, subscribers[stream][0].id);
      for p := 0 to PartitionsOf(partitions, stream)
        invariant Shaped() && subscribers.Keys == old(subscribers.Keys) && Subs() == old(Subs())
        invariant ids <= ms.Keys && Members() == AssignUpTo(ms, ids, stream, p)
        invariant OrderedFrom(subscribers[stream], 0)
      {
        AssignNext(stream, p, ms, ids);
      }
    }

    method AssignNext(stream: string, p: nat, ghost ms: GroupSpec.Members, ghost ids: set<string>)
      requires Shaped() && stream in subscribers && ids == Subs()[stream] && OrderedFrom(subscribers[stream], 0)
      requires ids != {} && ids <= ms.Keys && Members() == AssignUpTo(ms, ids, stream, p)
      modifies `subscribers, consumers
      ensures Shaped() && subscribers.Keys == old(subscribers.Keys) && Subs() == old(Subs())
      ensures Members() == AssignUpTo(ms, ids, stream, p + 1)
      ensures OrderedFrom(subscribers[stream], 0)
    {
      hide OrderedFrom;
      hide IsNeediest;
      hide ConsumerGroup.Shaped;
      assert IdsOf(subscribers[stream]) == ids;
      var c := Peek(stream);
      NeediestUnique(Members(), ids, c.id, Neediest(Members(), ids));
      AssignPartition(stream, p, c);
    }

    lemma ShapedClosed()
      requires Shaped()
      ensures Closed(View())
    {
      forall s | s in Subs() ensures Subs()[s] <= Members().Keys {
        forall x | x in Subs()[s] ensures x in members {
          var i :| 0 <= i < |subscribers[s]| && subscribers[s][i].id == x;
          assert InHeap(subscribers[s][i], s);
        }
      }
    }

    method PushSubscriber(c: Consumer, stream: string)
      requires Shaped() && c.id in members && members[c.id] == c && stream in c.streams
      requires stream in Subs() ==> c.id !in Subs()[stream]
      modifies `subscribers
      ensures Shaped() && Members() == old(Members())
      ensures Subs() == old(Subs())[stream := (if stream in old(Subs()) then old(Subs())[stream] else {}) + {c.id}]
    {
      hide ConsumerGroup.Members;
      hide ConsumerGroup.Shaped;
      hide OrderedFrom;
      var h := if stream in subscribers then subscribers[stream] else [];
      var h' := ConsumerHeap.Push(h, c);
      Pushed(c, stream, h, h');
      hide ConsumerGroup.Subs;
      hide IdsOf;
      SetHeap(stream, h');
    }

    lemma Pushed(c: Consumer, stream: string, h: Heap, h': Heap)
      requires Shaped() && c.id in members && members[c.id] == c && stream in c.streams
      requires h == (if stream in subscribers then subscribers[stream] else []) && c.id !in IdsOf(h)
      requires multiset(h') == multiset(h) + multiset{c}
      ensures forall i :: 0 <= i < |h'| ==> InHeap(h'[i], stream)
      ensures forall i, j :: 0 <= i < j < |h'| ==> h'[i] != h'[j]
      ensures IdsOf(h') == IdsOf(h) + {c.id} && IdsOf(h) == if stream in Subs() then Subs()[stream] else {}
    {
      hide ConsumerGroup.Members;
      forall i | 0 <= i < |h| ensures h[i] != c && InHeap(h[i], stream) { assert h[i].id in IdsOf(h); }
      SamePermutation(h + [c], h');
      IdsOfPush(h, c);
    }

    /** Replaces one heap. */
    method SetHeap(stream: string, h: Heap)
      requires Shaped()
      requires forall i :: 0 <= i < |h| ==> InHeap(h[i], stream)
      requires forall i, j :: 0 <= i < j < |h| ==> h[i] != h[j]
      modifies `subscribers
      ensures Shaped() && Members() == old(Members())
      ensures subscribers == old(subscribers)[stream := h] && Subs() == old(Subs())[stream := IdsOf(h)]
    {
      subscribers := subscribers[stream := h];
      assert Members() == old(Members());
    }

    method SubscribeTo(c: Consumer, stream: string)
      requires Shaped() && c.id in members && members[c.id] == c && stream in c.streams
      requires stream in Subs() ==> c.id !in Subs()[stream]
      modifies `subscribers, consumers
      ensures Shaped() && Closed(old(View()))
      ensures View() == Subscribe(partitions, old(View()), c.id, stream)
      ensures c.streams == old(c.streams)
      ensures forall s :: s != stream && s in Subs() ==> s in old(Subs()) && Subs()[s] == old(Subs()[s])
    {
      hide ConsumerGroup.Members;
      hide InOrder;
      hide ConsumerGroup.Shaped;
      hide Balance;
      ShapedClosed();
      MemberIs(c.id);
      PushSubscriber(c, stream);
      ShapedClosed();
      BalanceStreams(View(), stream, PartitionsOf(partitions, stream), c.id);
      BalanceAssignmentsForStream(stream);
      MemberIs(c.id);
    }

    /** Joining: the new member enters the heaps of its streams in sorted order, each
        stream balanced in turn. Callers check that it is not a member yet. */
    method AddMember(id: string, streams: set<string>, newEpoch: nat) returns (r: Option<Error>)
      requires Shaped() && (newEpoch < epoch || id !in members)
      modifies `members, `subscribers, `epoch, `timers, `consumers, consumers
      ensures Shaped() && fresh(consumers - old(consumers))
      ensures Closed(old(View())) && (old(Watched()) ==> Watched())
      ensures r == (if newEpoch < old(epoch) then Some(ErrEpoch) else None)
      ensures View() == (if r.Some? then old(View()) else Join(partitions, old(View()), id, streams))
      ensures epoch == if r.Some? then old(epoch) else newEpoch
    {
      hide ConsumerGroup.Members;
      hide ConsumerGroup.Subs;
      hide ConsumerGroup.Shaped;
      hide Closed;
      hide Join;
      ShapedClosed();
      if newEpoch < epoch { return Some(ErrEpoch); }
      if !recovered && coordinator == serverID { timers := timers + {id}; }
      Admit(id, streams);
      epoch := newEpoch;
      r := None;
    }

    method Admit(id: string, streams: set<string>)
      requires Shaped() && id !in members
      modifies `members, `subscribers, `consumers, consumers
      ensures Shaped() && fresh(consumers - old(consumers)) && members.Keys == old(members.Keys) + {id}
      ensures Closed(old(View())) && View() == Join(partitions, old(View()), id, streams)
    {
      hide ConsumerGroup.Members;
      hide InOrder;
      hide Closed;
      hide SubscribeAll;
      hide Subscribe;
      hide ConsumerGroup.Shaped;
      ShapedClosed();
      assert forall s :: s in Subs() ==> id !in Subs()[s];
      var c := NewMember(id, streams);
      SubscribeEverywhere(c);
    }

    method NewMember(id: string, streams: set<string>) returns (c: Consumer)
      requires Shaped() && id !in members
      modifies `members, `consumers
      ensures Shaped() && fresh(c) && consumers == old(consumers) + {c}
      ensures c.id == id && c.streams == streams && members == old(members)[id := c]
      ensures View() == old(View()).(members := old(Members())[id := Member(streams, map[], 0)])
    {
      c := new Consumer(id, streams);
      forall s, i | s in subscribers && 0 <= i < |subscribers[s]| ensures subscribers[s][i].id != id {
        assert InHeap(subscribers[s][i], s);
      }
      forall s, i | s in subscribers && 0 <= i < |subscribers[s]|
        ensures old(InHeap(subscribers[s][i], s)) {}
      members := members[id := c];
      consumers := consumers + {c};
      assert Members() == old(Members())[id := Member(streams, map[], 0)];
    }

    method SubscribeEverywhere(c: Consumer)
      requires Shaped() && c.id in members && members[c.id] == c
      requires forall s :: s in Subs() ==> c.id !in Subs()[s]
      modifies `subscribers, consumers
      ensures Shaped() && Closed(old(View()))
      ensures View() == SubscribeAll(partitions, old(View()), c.id, InOrder(c.streams)) && c.streams == old(c.streams)
    {
      hide ConsumerGroup.Shaped;
      hide ConsumerGroup.Members;
      hide ConsumerGroup.Subs;
      hide InOrder;
      hide Closed;
      hide Subscribe;
      ShapedClosed();
      var order := SortStreams(c.streams);
      InOrderIs(c.streams);
      ghost var g := View();
      for i := 0 to |order|
        invariant Shaped() && c.streams == old(c.streams)
        invariant View() == SubscribeAll(partitions, g, c.id, order[..i])
        invariant forall k :: i <= k < |order| && order[k] in Subs() ==> c.id !in Subs()[order[k]]
      {
        assert order[i] in order;
        SubscribeAllStep(partitions, g, c.id, order, i);
        SubscribeTo(c, order[i]);
      }
      assert order[..|order|] == order;
    }

    method RemoveSubscriber(c: Consumer, stream: string)
      requires Shaped() && c.id in members && members[c.id] == c && stream in subscribers
      modifies `subscribers
      ensures Shaped() && Members() == old(Members())
      ensures Subs() == old(Subs())[stream := old(Subs())[stream] - {c.id}]
    {
      hide ConsumerGroup.Members;
      hide OrderedFrom;
      var h := subscribers[stream];
      forall k | 0 <= k < |h| ensures InHeap(h[k], stream) {}
      var i := 0;
      while i < |h| && h[i] != c
        invariant i <= |h| && forall k :: 0 <= k < i ==> h[k] != c
      {
        i := i + 1;
      }
      if i < |h| {
        var h' := ConsumerHeap.Remove(h, i);
        RemovedIds(h, i, h');
        assert forall k :: 0 <= k < |h'| ==> InHeap(h'[k], stream);
        SetHeap(stream, h');
      } else {
        forall k | 0 <= k < |h| ensures h[k].id != c.id { assert h[k] != c && InHeap(h[k], stream); }
        assert c.id !in IdsOf(h);
        assert Subs()[stream] == Subs()[stream] - {c.id};
        assert Subs() == Subs()[stream := Subs()[stream] - {c.id}];
      }
    }

    method UnsubscribeFrom(c: Consumer, stream: string)
      requires Shaped() && c.id in members && members[c.id] == c
      modifies `subscribers, consumers
      ensures Shaped() && Closed(old(View()))
      ensures View() == Unsubscribe(partitions, old(View()), c.id, stream)
      ensures c.streams == old(c.streams)
      ensures Subs() == map s | s in old(Subs()) :: if s == stream then old(Subs())[s] - {c.id} else old(Subs())[s]
    {
      hide ConsumerGroup.Members;
      hide ConsumerGroup.Subs;
      hide InOrder;
      hide IdsOf;
      hide ConsumerGroup.Shaped;
      hide Balance;
      ShapedClosed();
      MemberIs(c.id);
      if stream !in subscribers { return; }
      RemoveSubscriber(c, stream);
      ShapedClosed();
      MemberIs(c.id);
      if stream in c.assignments {
        BalanceStreams(View(), stream, PartitionsOf(partitions, stream), c.id);
        BalanceAssignmentsForStream(stream);
        MemberIs(c.id);
      }
    }

    method UnsubscribeEverywhere(c: Consumer)
      requires Shaped() && c.id in members && members[c.id] == c
      modifies `subscribers, consumers
      ensures Shaped() && Closed(old(View())) && c.streams == old(c.streams)
      ensures View() == UnsubscribeAll(partitions, old(View()), c.id, InOrder(c.streams))
      ensures forall s :: s in Subs() ==> c.id !in Subs()[s]
    {
      hide ConsumerGroup.Shaped;
      hide ConsumerGroup.Members;
      hide ConsumerGroup.Subs;
      hide InOrder;
      hide Closed;
      hide Unsubscribe;
      ShapedClosed();
      var order := SortStreams(c.streams);
      InOrderIs(c.streams);
      ghost var g := View();
      for i := 0 to |order|
        invariant Shaped() && c.streams == old(c.streams)
        invariant View() == UnsubscribeAll(partitions, g, c.id, order[..i])
        invariant forall k :: 0 <= k < i && order[k] in Subs() ==> c.id !in Subs()[order[k]]
      {
        UnsubscribeAllStep(partitions, g, c.id, order, i);
        UnsubscribeFrom(c, order[i]);
      }
      assert order[..|order|] == order;
      OutOfHeaps(c);
    }

    lemma OutOfHeaps(c: Consumer)
      requires Shaped() && c.id in members && members[c.id] == c
      requires forall s :: s in c.streams && s in Subs() ==> c.id !in Subs()[s]
      ensures forall s :: s in Subs() ==> c.id !in Subs()[s]
    {
      forall s, i | s in subscribers && 0 <= i < |subscribers[s]| ensures subscribers[s][i].id != c.id {
        assert InHeap(subscribers[s][i], s);
        assert subscribers[s][i].id in Subs()[s];
      }
    }

    method DropMember(id: string)
      requires Shaped() && id in members
      requires forall s :: s in Subs() ==> id !in Subs()[s]
      modifies `members
      ensures Shaped() && members == old(members) - {id}
      ensures View() == old(View()).(members := old(Members()) - {id})
    {
      forall s, i | s in subscribers && 0 <= i < |subscribers[s]| ensures subscribers[s][i].id != id {
        assert subscribers[s][i].id in Subs()[s];
      }
      forall s, i | s in subscribers && 0 <= i < |subscribers[s]|
        ensures old(InHeap(subscribers[s][i], s)) {}
      members := members - {id};
      assert Members() == old(Members()) - {id};
    }

    lemma MemberIs(id: string)
      requires Shaped() && id in members
      ensures members[id].id == id && members[id].View() == Members()[id]
    {}

    /** Leaving: out of the heaps in sorted order, balancing each stream the member held
        something of. Reports whether the group is empty now. */
    method RemoveMember(id: string, newEpoch: nat) returns (r: Result<bool, Error>)
      requires Shaped()
      modifies `members, `subscribers, `epoch, `timers, consumers
      ensures Shaped() && Closed(old(View())) && (old(Watched()) ==> Watched())
      ensures r.Err? ==> r.error == (if newEpoch < old(epoch) then ErrEpoch else ErrNotMember)
      ensures r.Ok? <==> newEpoch >= old(epoch) && id in old(members)
      ensures r.Ok? ==> View() == Leave(partitions, old(View()), id)
      ensures r.Ok? ==> r.value == (members == map[])
      ensures r.Err? ==> View() == old(View())
      ensures epoch == if r.Ok? then newEpoch else old(epoch)
    {
      hide ConsumerGroup.Members;
      hide ConsumerGroup.Subs;
      hide ConsumerGroup.Shaped;
      hide Closed;
      hide Leave;
      ShapedClosed();
      if newEpoch < epoch { return Err(ErrEpoch); }
      if id !in members { return Err(ErrNotMember); }
      timers := timers - {id};
      Expel(id);
      epoch := newEpoch;
      r := Ok(members == map[]);
    }

    method Expel(id: string)
      requires Shaped() && id in members
      modifies `members, `subscribers, consumers
      ensures Shaped() && members == old(members) - {id}
      ensures Closed(old(View())) && View() == Leave(partitions, old(View()), id)
    {
      hide ConsumerGroup.Members;
      hide ConsumerGroup.Subs;
      hide InOrder;
      hide Closed;
      hide ConsumerGroup.Shaped;
      hide UnsubscribeAll;
      ShapedClosed();
      var c := members[id];
      MemberIs(id);
      UnsubscribeEverywhere(c);
      DropMember(id);
    }

    /** A stream is deleted: its subscribers drop it, its heap goes, and every other
        stream of those subscribers is balanced again, in order. */
    method StreamDeleted(stream: string, newEpoch: nat) returns (r: Option<Error>)
      requires Shaped()
      modifies `subscribers, `epoch, consumers
      ensures Shaped() && Closed(old(View())) && (old(Watched()) ==> Watched())
      ensures r == (if newEpoch < old(epoch) then Some(ErrEpoch) else None)
      ensures View() == if r.Some? then old(View()) else DeleteStream(partitions, old(View()), stream)
      ensures epoch == if r.None? && stream in old(subscribers) then newEpoch else old(epoch)
    {
      hide ConsumerGroup.Shaped;
      hide ConsumerGroup.Members;
      hide ConsumerGroup.Subs;
      hide InOrder;
      hide Closed;
      hide ForgetIn;
      hide Affected;
      hide BalanceAll;
      ShapedClosed();
      if newEpoch < epoch { return Some(ErrEpoch); }
      r := None;
      if stream !in subscribers { return; }
      var rebalance := ForgetStream(stream);
      BalanceEach(rebalance);
      epoch := newEpoch;
    }

    method ForgetStream(stream: string) returns (rebalance: set<string>)
      requires Shaped() && stream in subscribers
      modifies `subscribers, consumers
      ensures Shaped()
      ensures View() == Forget(old(View()), stream)
      ensures rebalance == Affected(Members(), old(Subs())[stream])
    {
      hide ConsumerGroup.Members;
      var h := subscribers[stream];
      DropStream(stream);
      rebalance := {};
      ghost var ms := Members();
      ForgetNone(ms, stream);
      for i := 0 to |h|
        invariant Shaped() && Subs() == old(Subs()) - {stream}
        invariant forall k :: 0 <= k < |h| ==> h[k] in consumers && h[k].id in members && members[h[k].id] == h[k]
        invariant Members() == ForgetIn(ms, IdsOf(h[..i]), stream)
        invariant rebalance == Affected(Members(), IdsOf(h[..i]))
      {
        ForgetAt(h[i], stream);
        rebalance := rebalance + h[i].streams;
        ForgetOne(ms, h, i, stream);
      }
      assert h[..|h|] == h;
    }

    method DropStream(stream: string)
      requires Shaped() && stream in subscribers
      modifies `subscribers
      ensures Shaped() && Members() == old(Members()) && Subs() == old(Subs()) - {stream}
      ensures forall k :: 0 <= k < |old(subscribers[stream])| ==> InHeap(old(subscribers[stream])[k], stream)
      ensures stream !in subscribers
    {
      forall k | 0 <= k < |subscribers[stream]| ensures InHeap(subscribers[stream][k], stream) {}
      subscribers := subscribers - {stream};
      assert Members() == old(Members());
    }

    method ForgetAt(c: Consumer, stream: string)
      requires Shaped() && c in consumers && c.id in members && members[c.id] == c && stream !in subscribers
      modifies c
      ensures Shaped() && Subs() == old(Subs())
      ensures Members() == old(Members())[c.id := Forgotten(old(Members()[c.id]), stream)]
      ensures c.streams == Members()[c.id].streams
    {
      hide ConsumerGroup.Subs;
      c.streams := c.streams - {stream};
      c.RemoveStreamAssignments(stream);
      assert forall s, i :: s in subscribers && 0 <= i < |subscribers[s]| ==> old(InHeap(subscribers[s][i], s));
      assert Members() == old(Members())[c.id := Forgotten(old(Members()[c.id]), stream)];
    }

    /** Balances streams in order, each heap put in order first. */
    method BalanceEach(streams: set<string>)
      requires Shaped()
      modifies `subscribers, consumers
      ensures Shaped() && Closed(old(View()))
      ensures View() == BalanceAll(partitions, old(View()), InOrder(streams))
    {
      hide ConsumerGroup.Shaped;
      hide ConsumerGroup.Members;
      hide ConsumerGroup.Subs;
      hide InOrder;
      hide Closed;
      hide Balance;
      ShapedClosed();
      var order := SortStreams(streams);
      ghost var g := View();
      for i := 0 to |order|
        invariant Shaped() && View() == BalanceAll(partitions, g, order[..i])
      {
        assert order[..i + 1][..i] == order[..i];
        if order[i] in subscribers { InitHeap(order[i]); }
        BalanceAssignmentsForStream(order[i]);
      }
      assert order[..|order|] == order;
    }

    /** A new coordinator starts a timer for every member, a former one stops them all. */
    method SetCoordinator(coordinator: string, newEpoch: nat) returns (r: Option<Error>)
      requires Shaped()
      modifies `coordinator, `epoch, `timers
      ensures Shaped() && View() == old(View()) && (old(Watched()) ==> Watched())
      ensures r == if newEpoch < old(epoch) then Some(ErrEpoch) else None
      ensures r.Some? ==> this.coordinator == old(this.coordinator) && epoch == old(epoch) && timers == old(timers)
      ensures r.None? ==> this.coordinator == coordinator && epoch == newEpoch
      ensures r.None? && coordinator == serverID ==> timers == members.Keys
    {
      hide ConsumerGroup.Members;
      hide ConsumerGroup.Subs;
      hide ConsumerGroup.Shaped;
      if newEpoch < epoch { return Some(ErrEpoch); }
      var previous := this.coordinator;
      this.coordinator, epoch := coordinator, newEpoch;
      if previous == serverID { timers := {}; }
      if coordinator == serverID { timers := members.Keys; }
      r := None;
    }

    /** The end of recovery. */
    method StartRecovered() returns (started: bool)
      requires Shaped()
      modifies `recovered, `timers
      ensures Shaped() && View() == old(View()) && (old(Watched()) ==> Watched())
      ensures !recovered && started == old(recovered)
    {
      hide ConsumerGroup.Members;
      hide ConsumerGroup.Subs;
      hide ConsumerGroup.Shaped;
      started := recovered;
      if !recovered { return; }
      if coordinator == serverID { timers := members.Keys; }
      recovered := false;
    }

    /** What a member that asks is told: an answer is exactly what it is granted. A member
        without a timer is refused, which happens during recovery only. */
    method GetAssignments(id: string, askedEpoch: nat) returns (r: Result<map<string, seq<int>>, Error>)
      requires Shaped()
      ensures r.Ok? ==> coordinator == serverID && askedEpoch == epoch && id in members
      ensures r.Ok? ==> r.value == Granted(State(View(), partitions, coordinator, epoch), serverID, id, askedEpoch)
      ensures r.Ok? && Sound(partitions, View()) ==> forall stream, p ::
                Owns(View(), id, stream, p) <==> stream in r.value && p in r.value[stream]
      ensures r.Err? && r.error != ErrNotActive ==>
                Granted(State(View(), partitions, coordinator, epoch), serverID, id, askedEpoch) == map[]
      ensures r.Err? && r.error.ErrNotCoordinator? <==> coordinator != serverID
      ensures r.Err? && r.error.ErrEpoch? <==> coordinator == serverID && askedEpoch != epoch
      ensures r.Err? && r.error.ErrNotMember? <==> coordinator == serverID && askedEpoch == epoch && id !in members
      ensures r.Err? && r.error.ErrNotActive? <==>
                coordinator == serverID && askedEpoch == epoch && id in members && id !in timers
      ensures Watched() && !recovered ==> !(r.Err? && r.error.ErrNotActive?)
    {
      if coordinator != serverID { return Err(ErrNotCoordinator); }
      if askedEpoch != epoch { return Err(ErrEpoch); }
      if id !in members { return Err(ErrNotMember); }
      if id !in timers { return Err(ErrNotActive); }
      assert members[id].View() == Members()[id];
      if Sound(partitions, View()) { OwnedIsHeld(partitions, View(), id); }
      return Ok(members[id].assignments);
    }

    method Peek(stream: string) returns (c: Consumer)
      requires Shaped() && stream in subscribers && IdsOf(subscribers[stream]) != {}
      requires OrderedFrom(subscribers[stream], 0)
      ensures c in consumers && c.id in members && members[c.id] == c && stream in c.streams
      ensures IsNeediest(Members(), IdsOf(subscribers[stream]), c.id)
    {
      PeekNeediest(stream);
      c := subscribers[stream][0];
      assert InHeap(c, stream);
    }
  }

  // ----- streams in order -----

  method LeastOf(streams: set<string>) returns (x: string)
    requires streams != {}
    ensures IsLeast(streams, x)
  {
    x :| x in streams;
    var rest := streams - {x};
    while rest != {}
      invariant rest <= streams && x in streams - rest
      invariant forall y :: y in streams - rest && y != x ==> Less(x, y)
      decreases |rest|
    {
      var y :| y in rest;
      LessTotal(x, y);
      if Less(y, x) {
        forall z | z in streams - rest && z != x ensures Less(y, z) { LessTransitive(y, x, z); }
        x := y;
      }
      rest := rest - {y};
    }
  }

  lemma InOrderHead(s: set<string>, x: string)
    requires IsLeast(s, x)
    ensures InOrder(s) == [x] + InOrder(s - {x})
  {
    var y :| IsLeast(s, y) && InOrder(s) == [y] + InOrder(s - {y});
    LeastUnique(s, x, y);
  }

  lemma InOrderNone()
    ensures InOrder({}) == []
  {}

  /** rangeStreamsOrdered visits the streams sorted, whatever order the map gives them in. */
  method SortStreams(streams: set<string>) returns (order: seq<string>)
    ensures order == InOrder(streams)
    ensures ToSet(order) == streams && forall i, j :: 0 <= i < j < |order| ==> Less(order[i], order[j])
  {
    hide InOrder;
    hide Less;
    order := [];
    var rest := streams;
    InOrderNone();
    while rest != {}
      invariant order + InOrder(rest) == InOrder(streams)
      decreases |rest|
    {
      var x := LeastOf(rest);
      InOrderHead(rest, x);
      order, rest := order + [x], rest - {x};
    }
    InOrderIs(streams);
  }

  lemma NeediestSubset(ms: GroupSpec.Members, ids: set<string>, a: string)
    requires IsNeediest(ms, ids, a)
    ensures a in ids && ids <= ms.Keys
  {
  }

  lemma DropOne(ms: GroupSpec.Members, h: Heap, i: nat, stream: string)
    requires i < |h| && h[i].id in ms && h[i].id !in IdsOf(h[..i])
    ensures var before := DropAll(ms, IdsOf(h[..i]), stream);
            before[h[i].id := before[h[i].id].Drop(stream)] == DropAll(ms, IdsOf(h[..i + 1]), stream)
  {
    assert IdsOf(h[..i + 1]) == IdsOf(h[..i]) + {h[i].id};
  }

  /** A permutation of distinct consumers: distinct again, the same ids, the same objects. */
  lemma SamePermutation(h: Heap, h': Heap)
    requires multiset(h) == multiset(h')
    requires forall i, j :: 0 <= i < j < |h| ==> h[i] != h[j]
    ensures |h| == |h'| && IdsOf(h) == IdsOf(h')
    ensures forall i :: 0 <= i < |h'| ==> h'[i] in h
    ensures forall i, j :: 0 <= i < j < |h'| ==> h'[i] != h'[j]
  {
    assert |multiset(h)| == |multiset(h')|;
    forall i | 0 <= i < |h'| ensures h'[i] in h { assert h'[i] in multiset(h'); }
    forall i | 0 <= i < |h| ensures h[i] in h' { assert h[i] in multiset(h); }
    forall i, j | 0 <= i < j < |h'| ensures h'[i] != h'[j] {
      if h'[i] == h'[j] {
        Twice(h', i, j);
        assert multiset(h)[h'[i]] >= 2;
        var k :| 0 <= k < |h| && h[k] == h'[i];
        Once(h, k);
      }
    }
  }

  lemma IdsOfPush(h: Heap, c: Consumer)
    ensures IdsOf(h + [c]) == IdsOf(h) + {c.id}
  {
    forall x | x in IdsOf(h) ensures x in IdsOf(h + [c]) {
      var i :| 0 <= i < |h| && h[i].id == x;
      assert (h + [c])[i].id == x;
    }
    assert (h + [c])[|h|].id == c.id;
  }

  lemma DropNone(ms: GroupSpec.Members, stream: string)
    ensures DropAll(ms, {}, stream) == ms
  {}

  lemma ForgetNone(ms: GroupSpec.Members, stream: string)
    ensures ForgetIn(ms, {}, stream) == ms && Affected(ms, {}) == {}
  {}

  lemma ForgetOne(ms: GroupSpec.Members, h: Heap, i: nat, stream: string)
    requires i < |h| && h[i].id in ms
    requires forall j, k :: 0 <= j < k < |h| ==> h[j].id != h[k].id
    ensures var before := ForgetIn(ms, IdsOf(h[..i]), stream);
            var after := ForgetIn(ms, IdsOf(h[..i + 1]), stream);
            && h[i].id !in IdsOf(h[..i]) && before[h[i].id] == ms[h[i].id]
            && after == before[h[i].id := Forgotten(ms[h[i].id], stream)]
            && Affected(after, IdsOf(h[..i + 1])) == Affected(before, IdsOf(h[..i])) + after[h[i].id].streams
  {
    assert h[..i + 1] == h[..i] + [h[i]];
    IdsOfPush(h[..i], h[i]);
  }

  /** Removing one of several consumers with different ids. */
  lemma RemovedIds(h: Heap, i: nat, h': Heap)
    requires i < |h| && multiset(h') == multiset(h) - multiset{h[i]}
    requires forall j, k :: 0 <= j < k < |h| ==> h[j] != h[k]
    requires forall j, k :: 0 <= j < |h| && 0 <= k < |h| && h[j].id == h[k].id ==> h[j] == h[k]
    ensures IdsOf(h') == IdsOf(h) - {h[i].id}
    ensures forall k :: 0 <= k < |h'| ==> h'[k] in h
    ensures forall j, k :: 0 <= j < k < |h'| ==> h'[j] != h'[k]
  {
    hide IdsOf;
    hide Without;
    var rest := Without(h, i);
    SamePermutation(rest, h');
    WithoutIds(h, i);
  }

  lemma WithoutIds(h: Heap, i: nat)
    requires i < |h|
    requires forall j, k :: 0 <= j < k < |h| ==> h[j] != h[k]
    requires forall j, k :: 0 <= j < |h| && 0 <= k < |h| && h[j].id == h[k].id ==> h[j] == h[k]
    ensures IdsOf(Without(h, i)) == IdsOf(h) - {h[i].id}
  {
    hide Without;
    var rest := Without(h, i);
    forall x | x in IdsOf(h) && x != h[i].id ensures x in IdsOf(rest) {
      var k :| 0 <= k < |h| && h[k].id == x;
      assert rest[if k < i then k else k - 1].id == x;
    }
    forall x | x in IdsOf(rest) ensures x in IdsOf(h) && x != h[i].id {
      var k :| 0 <= k < |rest| && rest[k].id == x;
      assert h[if k < i then k else k + 1].id == x;
    }
  }

  lemma Twice(h: Heap, i: nat, j: nat)
    requires i < j < |h| && h[i] == h[j]
    ensures multiset(h)[h[i]] >= 2
  {
    assert h == h[..i] + [h[i]] + h[i + 1..j] + [h[j]] + h[j + 1..];
  }

  lemma Once(h: Heap, k: nat)
    requires k < |h| && forall i, j :: 0 <= i < j < |h| ==> h[i] != h[j]
    ensures multiset(h)[h[k]] == 1
  {
    assert h == h[..k] + [h[k]] + h[k + 1..];
    assert h[k] !in h[..k] && h[k] !in h[k + 1..];
  }
}
