/** The dispatcher's data: queue objects on two lists behind one lock. Each method is one stretch under that lock. */
module Dispatcher {
  import opened Dispatch

  class MessageQueue {
    const name: Name
    var messages: seq<Message>

    constructor (name: Name)
      ensures this.name == name && messages == []
    {
      this.name, messages := name, [];
    }

    method Push(msg: Message)
      modifies this
      ensures messages == old(messages) + [msg]
    {
      messages := messages + [msg];
    }

    method Pop() returns (msg: Message)
      requires messages != []
      modifies this
      ensures [msg] + messages == old(messages)
    {
      msg, messages := messages[0], messages[1..];
    }
  }

  /** The queues of a list as values. */
  ghost function Views(qs: seq<MessageQueue>): (v: seq<Queue>)
    reads qs
    ensures |v| == |qs| && forall i :: 0 <= i < |qs| ==> v[i] == Queue(qs[i].name, qs[i].messages)
  {
    seq(|qs|, i requires 0 <= i < |qs| reads qs => Queue(qs[i].name, qs[i].messages))
  }

  /** `findQueue`. */
  method FindQueue(name: Name, list: seq<MessageQueue>) returns (queue: MessageQueue?, ghost i: nat)
    ensures i == Index(Views(list), name)
    ensures if i == |list| then queue == null else queue == list[i]
  {
    i := 0;
    var views := Views(list);
    for k := 0 to |list|
      invariant i == k && forall j :: 0 <= j < k ==> list[j].name != name
    {
      if list[k].name == name {
        assert views[k].name == name;
        return list[k], i;
      }
      i := i + 1;
    }
    queue := null;
  }

  /** One queue gets the message, the others keep theirs. */
  method PushAt(queue: MessageQueue, msg: Message, ghost list: seq<MessageQueue>, ghost i: nat,
                ghost others: seq<MessageQueue>)
    requires i < |list| && list[i] == queue && queue.name == msg.queue
    requires Distinct(Views(list)) && Apart(Views(list), Views(others))
    modifies queue
    ensures Views(list) == Pushed(old(Views(list)), i, msg) && Views(others) == old(Views(others))
  {
    ghost var was, were := Views(list), Views(others);
    queue.Push(msg);
    forall k | 0 <= k < |list| ensures Views(list)[k] == Pushed(was, i, msg)[k] {
      assert was[k].name == list[k].name && was[i].name == queue.name;
    }
    forall k | 0 <= k < |others| ensures Views(others)[k] == were[k] {
      assert were[k].name == others[k].name && was[i].name == queue.name;
    }
  }

  /** What the first half of `dispatch` comes to. */
  datatype Outcome = Waits | Stops | Takes(queue: MessageQueue, msg: Message)

  class MessageDispatcher {
    var scheduledList: seq<MessageQueue>
    var pendingList: seq<MessageQueue>
    var stopping: bool
    ghost var state: State

    ghost predicate Valid()
      reads this, scheduledList, pendingList
    {
      && Inv(state) && state.stop == stopping
      && state.scheduled == Views(scheduledList) && state.pending == Views(pendingList)
    }

    ghost function Queues(): set<MessageQueue>
      reads this
    {
      (set q | q in scheduledList) + set q | q in pendingList
    }

    constructor ()
      ensures Valid() && state == INITIAL && scheduledList == [] && pendingList == []
    {
      scheduledList, pendingList, stopping, state := [], [], false, INITIAL;
    }

    /** `schedule`; the signal reaches worker `w` if anyone sleeps. */
    method Schedule(msg: Message, ghost w: nat)
      requires Valid() && Enabled(state, Step.Schedule(msg, w))
      modifies this, scheduledList, pendingList
      ensures Valid() && state == Apply(old(state), Step.Schedule(msg, w))
      ensures pendingList == old(pendingList)
      ensures forall q :: q in scheduledList ==> q in old(scheduledList) || fresh(q)
    {
      Keeps(state, Step.Schedule(msg, w));
      FileMessage(msg, w, state);
      state := Scheduled(state, msg, w);
    }

    method FileMessage(msg: Message, ghost w: nat, ghost s: State)
      requires s.scheduled == Views(scheduledList) && s.pending == Views(pendingList)
      requires Distinct(s.scheduled) && Distinct(s.pending) && Apart(s.scheduled, s.pending)
      modifies this`scheduledList, scheduledList, pendingList
      ensures Views(scheduledList) == Scheduled(s, msg, w).scheduled &&
              Views(pendingList) == Scheduled(s, msg, w).pending
      ensures forall q :: q in scheduledList ==> q in old(scheduledList) || fresh(q)
    {
      var queue;
      ghost var i;
      queue, i := FindQueue(msg.queue, scheduledList);
      if queue != null {
        PushAt(queue, msg, scheduledList, i, pendingList);
      } else {
        queue, i := FindQueue(msg.queue, pendingList);
        if queue != null {
          PushAt(queue, msg, pendingList, i, scheduledList);
        } else {
          Create(msg);
        }
      }
    }

    method Create(msg: Message)
      modifies this`scheduledList
      ensures Views(scheduledList) == old(Views(scheduledList)) + [Queue(msg.queue, [msg])]
      ensures Views(pendingList) == old(Views(pendingList))
      ensures forall q :: q in scheduledList ==> q in old(scheduledList) || fresh(q)
    {
      ghost var was := Views(scheduledList);
      var queue := new MessageQueue(msg.queue);
      queue.Push(msg);
      scheduledList := scheduledList + [queue];
      assert queue.messages == [msg];
      assert Views(scheduledList) == was + [Queue(msg.queue, [msg])];
      assert Views(pendingList) == old(Views(pendingList));
    }

    /** A thread of the pool begins in `threadMain`. */
    method Start()
      requires Valid()
      modifies this`state
      ensures Valid() && state == Apply(old(state), Step.Start)
    {
      Keeps(state, Step.Start);
      state := Apply(state, Step.Start);
    }

    /** A wait returns. */
    method Woken(ghost w: nat)
      requires Valid() && Enabled(state, Wake(w))
      modifies this`state
      ensures Valid() && state == Apply(old(state), Wake(w))
    {
      Keeps(state, Wake(w));
      state := Apply(state, Wake(w));
    }

    /** `stop`. */
    method Stop()
      requires Valid()
      modifies this`state, this`stopping
      ensures Valid() && state == Apply(old(state), Step.Stop)
    {
      Keeps(state, Step.Stop);
      state := Apply(state, Step.Stop);
      stopping := true;
    }

    /** `dispatch` by worker `w` up to the unlock: one check of the wait condition, and the queue if there is work. */
    method Take(ghost w: nat) returns (outcome: Outcome)
      requires Valid() && Enabled(state, Look(w))
      modifies this, scheduledList
      ensures Valid() && state == Apply(old(state), Look(w))
      ensures match outcome
              case Waits => state.workers[w] == Sleeping && scheduledList == old(scheduledList) &&
                  pendingList == old(pendingList)
              case Stops => state.workers[w] == Exited && scheduledList == old(scheduledList) &&
                  pendingList == old(pendingList)
              case Takes(queue, msg) =>
                && state.workers[w] == Running(msg) && queue in pendingList && queue.name == msg.queue
                && queue == old(scheduledList)[0] && [msg] + queue.messages == old(scheduledList[0].messages)
                && scheduledList == old(scheduledList)[1..] && pendingList == old(pendingList) + [queue]
    {
      Keeps(state, Look(w));
      if scheduledList == [] {
        outcome := if stopping then Stops else Waits;
      } else {
        var queue := scheduledList[0];
        assert state.scheduled[0] == Queue(queue.name, queue.messages);
        var msg := PopFront();
        outcome := Takes(queue, msg);
      }
      state := Looked(state, w);
    }

    method PopFront() returns (msg: Message)
      requires scheduledList != [] && scheduledList[0].messages != []
      requires Distinct(Views(scheduledList)) && Apart(Views(scheduledList), Views(pendingList))
      modifies this`scheduledList, this`pendingList, scheduledList[0]
      ensures var q := old(scheduledList[0]);
              && [msg] + q.messages == old(scheduledList[0].messages)
              && Views(scheduledList) == old(Views(scheduledList))[1..]
              && Views(pendingList) == old(Views(pendingList)) + [Queue(q.name, q.messages)]
              && pendingList == old(pendingList) + [q] && scheduledList == old(scheduledList)[1..]
    {
      ghost var was, were := Views(scheduledList), Views(pendingList);
      var queue := scheduledList[0];
      scheduledList, pendingList := scheduledList[1..], pendingList + [queue];
      msg := queue.Pop();
      forall k | 0 <= k < |scheduledList| ensures Views(scheduledList)[k] == was[k + 1] {
        assert was[k + 1].name == scheduledList[k].name && was[0].name == queue.name;
      }
      forall k | 0 <= k < |were| ensures Views(pendingList)[k] == were[k] {
        assert were[k].name == pendingList[k].name && was[0].name == queue.name;
      }
    }

    /** `dispatch` from the second lock on: the queue leaves the pending list and goes on or goes away. */
    method GiveBack(queue: MessageQueue, ghost w: nat)
      requires Valid() && Enabled(state, Finish(w)) && queue in pendingList && queue.name == state.workers[w].msg.queue
      modifies this
      ensures Valid() && state == Apply(old(state), Finish(w))
      ensures forall q :: q in pendingList <==> q in old(pendingList) && q != queue
      ensures scheduledList == old(scheduledList) + if queue.messages == [] then [] else [queue]
    {
      Keeps(state, Finish(w));
      var i := Erase(queue);
      IndexIs(state.pending, i);
      ErasedOne(old(pendingList), i, queue, pendingList);
      if queue.messages != [] {
        scheduledList := scheduledList + [queue];
      }
      state := Finished(state, w);
    }

    /** `erase`, by identity. */
    method Erase(queue: MessageQueue) returns (ghost i: nat)
      requires queue in pendingList && Distinct(Views(pendingList))
      modifies this`pendingList
      ensures i < |old(pendingList)| && old(pendingList)[i] == queue
      ensures pendingList == old(pendingList)[..i] + old(pendingList)[i + 1..] && queue !in pendingList
      ensures Views(pendingList) == Without(old(Views(pendingList)), i)
    {
      var k := 0;
      while pendingList[k] != queue
        invariant k < |pendingList| && queue in pendingList[k..]
        decreases |pendingList| - k
      {
        k := k + 1;
      }
      i := k;
      ghost var was := Views(pendingList);
      ghost var list := pendingList;
      pendingList := pendingList[..k] + pendingList[k + 1..];
      forall j | 0 <= j < |list| && j != k ensures list[j] != queue {
        assert was[j].name == list[j].name && was[k].name == queue.name;
      }
      assert Views(pendingList) == Without(was, i);
    }

    // ----- whole runs -----

    /** Every running worker has the queue it took in hand. */
    ghost predicate Holds(held: map<nat, MessageQueue>)
      reads this
    {
      forall w: nat :: w < |state.workers| && state.workers[w].Running? ==>
        w in held && held[w] in pendingList && held[w].name == state.workers[w].msg.queue
    }

    /** Two running workers do not hold the same queue. */
    lemma HeldApart(held: map<nat, MessageQueue>, v: nat, w: nat)
      requires Valid() && Holds(held) && v < |state.workers| && w < |state.workers| && v != w
      requires state.workers[v].Running? && state.workers[w].Running?
      ensures held[v] != held[w]
    {
      var name := state.workers[w].msg.queue;
      assert SerialOn(state, name) && Runs(state.workers[w], name);
      assert !Runs(state.workers[v], name);
    }

    method DoSchedule(msg: Message, w: nat, ghost held: map<nat, MessageQueue>)
      requires Valid() && Enabled(state, Step.Schedule(msg, w)) && Holds(held)
      modifies this, Queues()
      ensures Valid() && state == Apply(old(state), Step.Schedule(msg, w)) && Holds(held)
      ensures forall q :: q in Queues() ==> q in old(Queues()) || fresh(q)
    {
      Schedule(msg, w);
      assert forall v :: 0 <= v < |state.workers| && state.workers[v].Running? ==>
               state.workers[v] == old(state).workers[v];
    }

    method DoLook(w: nat, held: map<nat, MessageQueue>) returns (now: map<nat, MessageQueue>)
      requires Valid() && Enabled(state, Look(w)) && Holds(held)
      modifies this, Queues()
      ensures Valid() && state == Apply(old(state), Look(w)) && Holds(now)
      ensures Queues() == old(Queues())
    {
      var outcome := Take(w);
      now := if outcome.Takes? then held[w := outcome.queue] else held;
      assert forall v :: 0 <= v < |state.workers| && v != w ==> state.workers[v] == old(state).workers[v];
      assert outcome.Takes? ==> old(scheduledList) == [outcome.queue] + scheduledList;
    }

    method DoFinish(w: nat, held: map<nat, MessageQueue>)
      requires Valid() && Enabled(state, Finish(w)) && Holds(held)
      modifies this, Queues()
      ensures Valid() && state == Apply(old(state), Finish(w)) && Holds(held)
      ensures Queues() <= old(Queues())
    {
      forall v: nat | v < |state.workers| && v != w && state.workers[v].Running? ensures held[v] != held[w] {
        HeldApart(held, v, w);
      }
      GiveBack(held[w], w);
      assert forall v :: 0 <= v < |state.workers| && state.workers[v].Running? ==>
               v != w && state.workers[v] == old(state).workers[v];
    }

    /** One step of a run, by the method that takes it; `held` is the queue each running worker has in hand. */
    method Do(step: Step, held: map<nat, MessageQueue>) returns (now: map<nat, MessageQueue>)
      requires Valid() && Enabled(state, step) && Holds(held)
      modifies this, Queues()
      ensures Valid() && state == Apply(old(state), step) && Holds(now)
      ensures forall q :: q in Queues() ==> q in old(Queues()) || fresh(q)
    {
      now := held;
      match step {
        case Schedule(msg, w) => DoSchedule(msg, w, held);
        case Start => Start();
        case Stop => Stop();
        case Wake(w) => Woken(w);
        case Look(w) => now := DoLook(w, held);
        case Finish(w) => DoFinish(w, held);
      }
    }
  }

  lemma ErasedOne(was: seq<MessageQueue>, i: nat, queue: MessageQueue, now: seq<MessageQueue>)
    requires i < |was| && was[i] == queue && now == was[..i] + was[i + 1..] && queue !in now
    ensures forall q :: q in now <==> q in was && q != queue
  {
    forall q | q in was && q != queue ensures q in now {
      var k :| 0 <= k < |was| && was[k] == q;
      assert now[if k < i then k else k - 1] == q;
    }
  }

  lemma LeadsOn(s: State, steps: seq<Step>, i: nat, t: State)
    requires i < |steps| && Leads(s, steps[i..], t)
    ensures Enabled(s, steps[i]) && Leads(Apply(s, steps[i]), steps[i + 1..], t)
  {
    assert steps[i..][0] == steps[i] && steps[i..][1..] == steps[i + 1..];
  }

  /** Every run of the protocol is one the dispatcher's methods can take, and they do what the protocol says. */
  method Run(steps: seq<Step>, ghost t: State) returns (d: MessageDispatcher)
    requires Leads(INITIAL, steps, t)
    ensures d.Valid() && d.state == t
  {
    d := new MessageDispatcher();
    var held: map<nat, MessageQueue> := map[];
    var i := 0;
    while i < |steps|
      invariant i <= |steps| && d.Valid() && Leads(d.state, steps[i..], t) && d.Holds(held)
      invariant fresh(d) && forall q :: q in d.Queues() ==> fresh(q)
    {
      LeadsOn(d.state, steps, i, t);
      held := d.Do(steps[i], held);
      i := i + 1;
    }
  }
}
