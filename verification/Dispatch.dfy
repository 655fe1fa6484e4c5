/** The message dispatcher as a protocol: the atomic steps of producers and workers, and what every run keeps. */
module Dispatch {
  import Bytes

  /** Queue names are only ever compared for equality. */
  type Name = int

  datatype Message = Message(queue: Name, id: int)

  /** A queue in one of the two lists. */
  datatype Queue = Queue(name: Name, messages: seq<Message>)

  /** Awake is outside the lock or on the way back into it, with no queue in hand. */
  datatype Worker = Awake | Sleeping | Running(msg: Message) | Exited

  datatype Event = Sent(msg: Message) | Begun(worker: nat, msg: Message) | Ended(worker: nat, msg: Message)

  /**
   * `late` records that a message came in when every worker had exited and none was started since.
   * `log` records what was sent, begun and ended, in order.
   */
  datatype State = State(scheduled: seq<Queue>, pending: seq<Queue>, stop: bool, workers: seq<Worker>, late: bool,
                         log: seq<Event>)

  const INITIAL: State := State([], [], false, [], false, [])

  // ----- lists of queues -----

  predicate Has(qs: seq<Queue>, name: Name) {
    exists i :: 0 <= i < |qs| && qs[i].name == name
  }

  /** `findQueue`: the position of the first queue of that name, or the length of the list. */
  function Index(qs: seq<Queue>, name: Name): (i: nat)
    ensures i <= |qs| && (i < |qs| <==> Has(qs, name))
    ensures i < |qs| ==> qs[i].name == name
    ensures forall j :: 0 <= j < i ==> qs[j].name != name
  {
    if qs == [] then 0
    else if qs[0].name == name then 0
    else
      var i := Index(qs[1..], name);
      assert i < |qs| - 1 ==> qs[1..][i] == qs[i + 1];
      i + 1
  }

  predicate Distinct(qs: seq<Queue>) {
    forall i, j :: 0 <= i < j < |qs| ==> qs[i].name != qs[j].name
  }

  predicate Apart(qs: seq<Queue>, ps: seq<Queue>) {
    forall i, j :: 0 <= i < |qs| && 0 <= j < |ps| ==> qs[i].name != ps[j].name
  }

  function Pushed(qs: seq<Queue>, i: nat, msg: Message): seq<Queue>
    requires i < |qs|
  {
    qs[i := Queue(qs[i].name, qs[i].messages + [msg])]
  }

  function Without(qs: seq<Queue>, i: nat): seq<Queue>
    requires i < |qs|
  {
    qs[..i] + qs[i + 1..]
  }

  /** What waits in the queue of that name. */
  function Waiting(qs: seq<Queue>, name: Name): seq<Message> {
    var i := Index(qs, name);
    if i < |qs| then qs[i].messages else []
  }

  function Backlog(s: State, name: Name): seq<Message> {
    Waiting(s.scheduled, name) + Waiting(s.pending, name)
  }

  // ----- workers -----

  function Count(ws: seq<Worker>, w: Worker): nat {
    if ws == [] then 0 else Count(ws[..|ws| - 1], w) + if ws[|ws| - 1] == w then 1 else 0
  }

  function Roused(ws: seq<Worker>): (r: seq<Worker>)
    ensures |r| == |ws|
    ensures forall i :: 0 <= i < |ws| ==> r[i] == if ws[i] == Sleeping then Awake else ws[i]
  {
    seq(|ws|, i requires 0 <= i < |ws| => if ws[i] == Sleeping then Awake else ws[i])
  }

  predicate AllExited(ws: seq<Worker>) {
    forall i :: 0 <= i < |ws| ==> ws[i] == Exited
  }

  // ----- steps -----

  /**
   * Schedule: under the lock, a producer files a message; a new queue is signalled, which wakes `worker`
   * if anyone sleeps. Start: a thread begins. Stop: the flag and the broadcast. Look: under the lock, a
   * worker checks for work and takes a queue, falls asleep or exits. Wake: a wait that returns on its own.
   * Finish: under the lock again, a worker gives back its queue.
   */
  datatype Step =
    | Schedule(msg: Message, worker: nat)
    | Start
    | Stop
    | Look(worker: nat)
    | Wake(worker: nat)
    | Finish(worker: nat)

  predicate IsWorker(s: State, i: nat, w: Worker) {
    i < |s.workers| && s.workers[i] == w
  }

  ghost predicate Enabled(s: State, step: Step) {
    match step
    case Schedule(msg, w) => (exists i :: IsWorker(s, i, Sleeping)) ==> IsWorker(s, w, Sleeping)
    case Start => true
    case Stop => true
    case Look(w) => IsWorker(s, w, Awake)
    case Wake(w) => IsWorker(s, w, Sleeping)
    case Finish(w) => w < |s.workers| && s.workers[w].Running?
  }

  /** `schedule`. */
  function Scheduled(s: State, msg: Message, w: nat): State {
    var t := s.(log := s.log + [Sent(msg)], late := s.late || AllExited(s.workers));
    var i := Index(s.scheduled, msg.queue);
    if i < |s.scheduled| then t.(scheduled := Pushed(s.scheduled, i, msg))
    else
      var j := Index(s.pending, msg.queue);
      if j < |s.pending| then t.(pending := Pushed(s.pending, j, msg))
      else
        t.(scheduled := s.scheduled + [Queue(msg.queue, [msg])],
        workers := if IsWorker(s, w, Sleeping) then s.workers[w := Awake] else s.workers)
  }

  /** `dispatch` up to the unlock. */
  function Looked(s: State, w: nat): State
    requires w < |s.workers|
  {
    if s.scheduled == [] && !s.stop then s.(workers := s.workers[w := Sleeping])
    else if s.scheduled == [] then s.(workers := s.workers[w := Exited])
    else
      var q := s.scheduled[0];
      if q.messages == [] then s
      else
        var msg := q.messages[0];
        s.(scheduled := s.scheduled[1..], pending := s.pending + [Queue(q.name, q.messages[1..])],
        workers := s.workers[w := Running(msg)], log := s.log + [Begun(w, msg)])
  }

  /** `dispatch` from the second lock on. */
  function Finished(s: State, w: nat): State
    requires w < |s.workers| && s.workers[w].Running?
  {
    var msg := s.workers[w].msg;
    var i := Index(s.pending, msg.queue);
    if i == |s.pending| then s
    else
      var q := s.pending[i];
      s.(pending := Without(s.pending, i), scheduled := if q.messages == [] then s.scheduled else s.scheduled + [q],
      workers := s.workers[w := Awake], log := s.log + [Ended(w, msg)])
  }

  ghost function Apply(s: State, step: Step): State
    requires Enabled(s, step)
  {
    match step
    case Schedule(msg, w) => Scheduled(s, msg, w)
    case Start => s.(workers := s.workers + [Awake], late := false)
    case Stop => s.(stop := true, workers := Roused(s.workers))
    case Look(w) => Looked(s, w)
    case Wake(w) => s.(workers := s.workers[w := Awake])
    case Finish(w) => Finished(s, w)
  }

  /** `t` comes out of `s` by these steps, each one enabled where it is taken. */
  ghost predicate Leads(s: State, steps: seq<Step>, t: State)
    decreases |steps|
  {
    if steps == [] then s == t
    else Enabled(s, steps[0]) && Leads(Apply(s, steps[0]), steps[1..], t)
  }

  // ----- reading the log -----

  function SentOn(log: seq<Event>, name: Name): seq<Message> {
    if log == [] then []
    else
      var e := log[|log| - 1];
      SentOn(log[..|log| - 1], name) + if e.Sent? && e.msg.queue == name then [e.msg] else []
  }

  function BegunOn(log: seq<Event>, name: Name): seq<Message> {
    if log == [] then []
    else
      var e := log[|log| - 1];
      BegunOn(log[..|log| - 1], name) + if e.Begun? && e.msg.queue == name then [e.msg] else []
  }

  /** A queue name as the log shows it: nothing running, one message running on one worker, or an overlap. */
  datatype Lane = Free | Busy(worker: nat, msg: Message) | Broken

  function LaneOf(log: seq<Event>, name: Name): Lane {
    if log == [] then Free
    else
      var e, before := log[|log| - 1], LaneOf(log[..|log| - 1], name);
      if e.msg.queue != name then before
      else match e
        case Sent(_) => before
        case Begun(w, msg) => if before.Free? then Busy(w, msg) else Broken
        case Ended(w, msg) => if before == Busy(w, msg) then Free else Broken
  }

  lemma LogStep(log: seq<Event>, e: Event, name: Name)
    ensures SentOn(log + [e], name) == SentOn(log, name) + if e.Sent? && e.msg.queue == name then [e.msg] else []
    ensures BegunOn(log + [e], name) == BegunOn(log, name) + if e.Begun? && e.msg.queue == name then [e.msg] else []
    ensures LaneOf(log + [e], name) ==
            if e.msg.queue != name || e.Sent? then LaneOf(log, name)
            else if e.Begun? then (if LaneOf(log, name).Free? then Busy(e.worker, e.msg) else Broken)
            else if LaneOf(log, name) == Busy(e.worker, e.msg) then Free
            else Broken
  {
    assert (log + [e])[..|log|] == log;
  }

  // ----- what every reachable state keeps -----

  ghost predicate Proper(q: Queue) {
    forall k :: 0 <= k < |q.messages| ==> q.messages[k].queue == q.name
  }

  /** One queue a name, in one of the two lists, and no scheduled queue without a message. */
  ghost predicate OneQueueEach(s: State) {
    && Distinct(s.scheduled) && Distinct(s.pending) && Apart(s.scheduled, s.pending)
    && (forall i :: 0 <= i < |s.scheduled| ==> Proper(s.scheduled[i]) && s.scheduled[i].messages != [])
    && (forall j :: 0 <= j < |s.pending| ==> Proper(s.pending[j]))
  }

  predicate Runs(worker: Worker, name: Name) {
    worker.Running? && worker.msg.queue == name
  }

  /** Never an overlap, and the log says who runs what; the pending list is what is being run. */
  ghost predicate SerialOn(s: State, name: Name) {
    var lane := LaneOf(s.log, name);
    && lane != Broken
    && (lane.Busy? ==> IsWorker(s, lane.worker, Running(lane.msg)) && lane.msg.queue == name)
    && (forall w :: 0 <= w < |s.workers| && Runs(s.workers[w], name) ==> lane == Busy(w, s.workers[w].msg))
    && (lane.Busy? <==> Has(s.pending, name))
  }

  /** What was sent to a queue is what was begun followed by what waits, in the order sent. */
  ghost predicate FifoOn(s: State, name: Name) {
    SentOn(s.log, name) == BegunOn(s.log, name) + Backlog(s, name)
  }

  /** While someone sleeps there is an awake worker for every scheduled queue. */
  ghost predicate NoLostWakeup(s: State) {
    Count(s.workers, Sleeping) > 0 ==> Count(s.workers, Awake) >= |s.scheduled|
  }

  ghost predicate Stopping(s: State) {
    && (s.stop ==> Count(s.workers, Sleeping) == 0)
    && (!s.stop ==> Count(s.workers, Exited) == 0)
    && (AllExited(s.workers) ==> (s.late <==> s.scheduled != []))
    && (s.late ==> AllExited(s.workers))
  }

  ghost predicate Inv(s: State) {
    OneQueueEach(s) && NoLostWakeup(s) && Stopping(s) && forall name :: SerialOn(s, name) && FifoOn(s, name)
  }

  // ----- lemmas on lists of queues and on counting -----

  lemma IndexIs(qs: seq<Queue>, i: nat)
    requires Distinct(qs) && i < |qs|
    ensures Index(qs, qs[i].name) == i && Waiting(qs, qs[i].name) == qs[i].messages
  {
    var k := Index(qs, qs[i].name);
    assert Has(qs, qs[i].name);
  }

  lemma Absent(qs: seq<Queue>, name: Name)
    requires !Has(qs, name)
    ensures Waiting(qs, name) == []
  {
  }

  lemma WaitingPushed(qs: seq<Queue>, i: nat, msg: Message, name: Name)
    requires Distinct(qs) && i < |qs| && qs[i].name == msg.queue
    ensures Distinct(Pushed(qs, i, msg)) && (Has(Pushed(qs, i, msg), name) <==> Has(qs, name))
    ensures Waiting(Pushed(qs, i, msg), name) == Waiting(qs, name) + if name == msg.queue then [msg] else []
  {
    var ps := Pushed(qs, i, msg);
    forall k | 0 <= k < |qs| ensures ps[k].name == qs[k].name {}
    if Has(qs, name) {
      var k := Index(qs, name);
      assert ps[k].name == name;
      IndexIs(qs, k);
      IndexIs(ps, k);
      IndexIs(qs, i);
    }
  }

  lemma WaitingAppended(qs: seq<Queue>, q: Queue, name: Name)
    requires Distinct(qs) && !Has(qs, q.name)
    ensures Distinct(qs + [q]) && (Has(qs + [q], name) <==> Has(qs, name) || name == q.name)
    ensures Waiting(qs + [q], name) == if name == q.name then q.messages else Waiting(qs, name)
  {
    var ps := qs + [q];
    if Has(qs, name) {
      var k := Index(qs, name);
      assert ps[k].name == name;
      IndexIs(ps, k);
    } else if name == q.name {
      assert ps[|qs|].name == name;
      IndexIs(ps, |qs|);
    }
  }

  lemma WaitingWithout(qs: seq<Queue>, i: nat, name: Name)
    requires Distinct(qs) && i < |qs|
    ensures Distinct(Without(qs, i)) && (Has(Without(qs, i), name) <==> Has(qs, name) && name != qs[i].name)
    ensures Waiting(Without(qs, i), name) == if name == qs[i].name then [] else Waiting(qs, name)
  {
    var ps := Without(qs, i);
    forall k | 0 <= k < |ps| ensures ps[k] == if k < i then qs[k] else qs[k + 1] {}
    if Has(qs, name) && name != qs[i].name {
      var k := Index(qs, name);
      var j := if k < i then k else k - 1;
      assert ps[j] == qs[k];
      IndexIs(ps, j);
    }
  }

  lemma {:induction false} CountUpdate(ws: seq<Worker>, i: nat, now: Worker, w: Worker)
    requires i < |ws|
    ensures Count(ws[i := now], w) == Count(ws, w) - (if ws[i] == w then 1 else 0) + (if now == w then 1 else 0)
  {
    var last := |ws| - 1;
    if i < last {
      CountUpdate(ws[..last], i, now, w);
      assert ws[i := now][..last] == ws[..last][i := now];
    } else {
      assert ws[i := now][..last] == ws[..last];
    }
  }

  lemma CountAppend(ws: seq<Worker>, now: Worker, w: Worker)
    ensures Count(ws + [now], w) == Count(ws, w) + if now == w then 1 else 0
  {
    assert (ws + [now])[..|ws|] == ws;
  }

  lemma {:induction false} CountPositive(ws: seq<Worker>, i: nat, w: Worker)
    requires i < |ws| && ws[i] == w
    ensures Count(ws, w) > 0
  {
    if i < |ws| - 1 {
      CountPositive(ws[..|ws| - 1], i, w);
    }
  }

  lemma {:induction false} SomeCounted(ws: seq<Worker>, w: Worker) returns (i: nat)
    requires Count(ws, w) > 0
    ensures i < |ws| && ws[i] == w
  {
    if ws[|ws| - 1] == w {
      i := |ws| - 1;
    } else {
      i := SomeCounted(ws[..|ws| - 1], w);
    }
  }

  // ----- every step keeps the invariant -----

  /** Moving a queue from one list to the end of the other. */
  lemma Flipped(qs: seq<Queue>, ps: seq<Queue>)
    requires Apart(qs, ps)
    ensures Apart(ps, qs)
  {
  }

  lemma Moved(qs: seq<Queue>, i: nat, ps: seq<Queue>, q: Queue)
    requires Distinct(qs) && Distinct(ps) && Apart(qs, ps) && i < |qs| && q.name == qs[i].name
    ensures Distinct(Without(qs, i)) && Distinct(ps + [q]) && Apart(Without(qs, i), ps + [q])
    ensures Apart(ps + [q], Without(qs, i)) && Apart(ps, Without(qs, i))
  {
    var rest := Without(qs, i);
    forall k | 0 <= k < |rest| ensures rest[k] == qs[if k < i then k else k + 1] {}
  }

  lemma ScheduleWaiting(s: State, msg: Message, w: nat, name: Name)
    requires OneQueueEach(s)
    ensures Has(Scheduled(s, msg, w).pending, name) <==> Has(s.pending, name)
    ensures Backlog(Scheduled(s, msg, w), name) == Backlog(s, name) + if name == msg.queue then [msg] else []
  {
    var i, j := Index(s.scheduled, msg.queue), Index(s.pending, msg.queue);
    if i < |s.scheduled| {
      WaitingPushed(s.scheduled, i, msg, name);
      Absent(s.pending, msg.queue);
    } else if j < |s.pending| {
      WaitingPushed(s.pending, j, msg, name);
      Bytes.Assoc(Waiting(s.scheduled, name), Waiting(s.pending, name), if name == msg.queue then [msg] else []);
    } else {
      WaitingAppended(s.scheduled, Queue(msg.queue, [msg]), name);
      Absent(s.scheduled, msg.queue);
      Absent(s.pending, msg.queue);
    }
  }

  lemma ScheduleQueues(s: State, msg: Message, w: nat)
    requires OneQueueEach(s)
    ensures OneQueueEach(Scheduled(s, msg, w))
  {
    var i, j := Index(s.scheduled, msg.queue), Index(s.pending, msg.queue);
    if i < |s.scheduled| {
      WaitingPushed(s.scheduled, i, msg, msg.queue);
    } else if j < |s.pending| {
      WaitingPushed(s.pending, j, msg, msg.queue);
    } else {
      WaitingAppended(s.scheduled, Queue(msg.queue, [msg]), msg.queue);
    }
  }

  lemma ScheduleWorkers(s: State, msg: Message, w: nat)
    requires Inv(s) && Enabled(s, Schedule(msg, w))
    ensures NoLostWakeup(Scheduled(s, msg, w)) && Stopping(Scheduled(s, msg, w))
  {
    if s.pending != [] {
      assert SerialOn(s, s.pending[0].name) && Has(s.pending, s.pending[0].name);
    }
    if IsWorker(s, w, Sleeping) {
      CountPositive(s.workers, w, Sleeping);
      CountUpdate(s.workers, w, Awake, Awake);
      CountUpdate(s.workers, w, Awake, Sleeping);
      CountUpdate(s.workers, w, Awake, Exited);
    } else if Count(s.workers, Sleeping) > 0 {
      var i := SomeCounted(s.workers, Sleeping);
      assert IsWorker(s, i, Sleeping);
    }
  }

  lemma ScheduleLogged(s: State, t: State, msg: Message, w: nat, name: Name)
    requires SerialOn(s, name) && FifoOn(s, name) && t.log == s.log + [Sent(msg)]
    requires Backlog(t, name) == Backlog(s, name) + if name == msg.queue then [msg] else []
    requires Has(t.pending, name) <==> Has(s.pending, name)
    requires t.workers == s.workers || (IsWorker(s, w, Sleeping) && t.workers == s.workers[w := Awake])
    ensures SerialOn(t, name) && FifoOn(t, name)
  {
    LogStep(s.log, Sent(msg), name);
    Bytes.Assoc(BegunOn(s.log, name), Backlog(s, name), if name == msg.queue then [msg] else []);
    ScheduleSerial(s, t, w, name);
  }

  lemma ScheduleOn(s: State, msg: Message, w: nat, name: Name)
    requires OneQueueEach(s) && SerialOn(s, name) && FifoOn(s, name)
    ensures SerialOn(Scheduled(s, msg, w), name) && FifoOn(Scheduled(s, msg, w), name)
  {
    ScheduleWaiting(s, msg, w, name);
    ScheduleLogged(s, Scheduled(s, msg, w), msg, w, name);
  }

  /** Only a sleeping worker changed, if any. */
  lemma ScheduleSerial(s: State, t: State, w: nat, name: Name)
    requires SerialOn(s, name)
    requires LaneOf(t.log, name) == LaneOf(s.log, name) && (Has(t.pending, name) <==> Has(s.pending, name))
    requires t.workers == s.workers || (IsWorker(s, w, Sleeping) && t.workers == s.workers[w := Awake])
    ensures SerialOn(t, name)
  {
  }

  lemma LookQueues(s: State, w: nat)
    requires OneQueueEach(s) && w < |s.workers|
    ensures OneQueueEach(Looked(s, w))
  {
    if s.scheduled != [] {
      var q := s.scheduled[0];
      var p := Queue(q.name, q.messages[1..]);
      assert Without(s.scheduled, 0) == s.scheduled[1..];
      assert Proper(q) && q.messages != [];
      assert Proper(p);
      Moved(s.scheduled, 0, s.pending, p);
    }
  }

  lemma LookWorkers(s: State, w: nat)
    requires Inv(s) && Enabled(s, Look(w))
    ensures NoLostWakeup(Looked(s, w)) && Stopping(Looked(s, w))
  {
    var now := Looked(s, w).workers[w];
    CountUpdate(s.workers, w, now, Awake);
    CountUpdate(s.workers, w, now, Sleeping);
    CountUpdate(s.workers, w, now, Exited);
  }

  lemma LookWaiting(s: State, w: nat, name: Name)
    requires OneQueueEach(s) && w < |s.workers| && s.scheduled != []
    ensures var msg := s.scheduled[0].messages[0]; var t := Looked(s, w);
            && (Has(t.pending, name) <==> Has(s.pending, name) || name == msg.queue)
            && (name == msg.queue ==> !Has(s.pending, name))
            && Backlog(s, name) == (if name == msg.queue then [msg] else []) + Backlog(t, name)
  {
    var q := s.scheduled[0];
    assert Without(s.scheduled, 0) == s.scheduled[1..];
    IndexIs(s.scheduled, 0);
    WaitingWithout(s.scheduled, 0, name);
    WaitingAppended(s.pending, Queue(q.name, q.messages[1..]), name);
    Absent(s.pending, q.name);
  }

  lemma LookOn(s: State, w: nat, name: Name)
    requires OneQueueEach(s) && SerialOn(s, name) && FifoOn(s, name) && Enabled(s, Look(w))
    ensures SerialOn(Looked(s, w), name) && FifoOn(Looked(s, w), name)
  {
    if s.scheduled != [] {
      var t, msg := Looked(s, w), s.scheduled[0].messages[0];
      LookWaiting(s, w, name);
      LogStep(s.log, Begun(w, msg), name);
      Bytes.Assoc(BegunOn(s.log, name), if name == msg.queue then [msg] else [], Backlog(t, name));
      assert FifoOn(t, name);
      BeginSerial(s, t, w, msg, name);
    }
  }

  /** An awake worker takes a message of a queue nobody runs. */
  lemma BeginSerial(s: State, t: State, w: nat, msg: Message, name: Name)
    requires SerialOn(s, name) && IsWorker(s, w, Awake) && t.workers == s.workers[w := Running(msg)]
    requires LaneOf(t.log, name) ==
             if msg.queue != name then LaneOf(s.log, name)
             else if LaneOf(s.log, name).Free? then Busy(w, msg)
             else Broken
    requires Has(t.pending, name) <==> Has(s.pending, name) || name == msg.queue
    requires name == msg.queue ==> !Has(s.pending, name)
    ensures SerialOn(t, name)
  {
  }

  /** What a running worker holds is in the pending list. */
  lemma HeldIsPending(s: State, w: nat)
    requires Inv(s) && w < |s.workers| && s.workers[w].Running?
    ensures Has(s.pending, s.workers[w].msg.queue)
  {
    var name := s.workers[w].msg.queue;
    assert SerialOn(s, name) && Runs(s.workers[w], name);
  }

  lemma FinishQueues(s: State, w: nat)
    requires OneQueueEach(s) && Enabled(s, Finish(w)) && Has(s.pending, s.workers[w].msg.queue)
    ensures OneQueueEach(Finished(s, w))
  {
    var name := s.workers[w].msg.queue;
    var i := Index(s.pending, name);
    Flipped(s.scheduled, s.pending);
    Moved(s.pending, i, s.scheduled, s.pending[i]);
    hide Distinct, Apart;
  }

  lemma FinishWorkers(s: State, w: nat)
    requires Inv(s) && Enabled(s, Finish(w)) && Has(s.pending, s.workers[w].msg.queue)
    ensures NoLostWakeup(Finished(s, w)) && Stopping(Finished(s, w))
  {
    CountUpdate(s.workers, w, Awake, Awake);
    CountUpdate(s.workers, w, Awake, Sleeping);
    CountUpdate(s.workers, w, Awake, Exited);
    assert Finished(s, w).workers[w] == Awake;
  }

  lemma FinishWaiting(s: State, w: nat, name: Name)
    requires OneQueueEach(s) && Enabled(s, Finish(w)) && Has(s.pending, s.workers[w].msg.queue)
    ensures Has(Finished(s, w).pending, name) <==> Has(s.pending, name) && name != s.workers[w].msg.queue
    ensures Backlog(Finished(s, w), name) == Backlog(s, name)
  {
    var held := s.workers[w].msg.queue;
    var i := Index(s.pending, held);
    assert !Has(s.scheduled, held);
    Absent(s.scheduled, held);
    IndexIs(s.pending, i);
    WaitingWithout(s.pending, i, name);
    WaitingAppended(s.scheduled, s.pending[i], name);
  }

  lemma FinishLogged(s: State, t: State, w: nat, msg: Message, name: Name)
    requires SerialOn(s, name) && FifoOn(s, name) && t.log == s.log + [Ended(w, msg)]
    requires IsWorker(s, w, Running(msg)) && t.workers == s.workers[w := Awake]
    requires Backlog(t, name) == Backlog(s, name)
    requires Has(t.pending, name) <==> Has(s.pending, name) && name != msg.queue
    ensures SerialOn(t, name) && FifoOn(t, name)
  {
    LogStep(s.log, Ended(w, msg), name);
    EndSerial(s, t, w, msg, name);
  }

  lemma FinishOn(s: State, w: nat, name: Name)
    requires OneQueueEach(s) && Enabled(s, Finish(w)) && Has(s.pending, s.workers[w].msg.queue)
    requires SerialOn(s, name) && FifoOn(s, name)
    ensures SerialOn(Finished(s, w), name) && FifoOn(Finished(s, w), name)
  {
    var t := Finished(s, w);
    FinishWaiting(s, w, name);
    FinishLogged(s, t, w, s.workers[w].msg, name);
  }

  /** A running worker gives its queue back. */
  lemma EndSerial(s: State, t: State, w: nat, msg: Message, name: Name)
    requires SerialOn(s, name) && IsWorker(s, w, Running(msg)) && t.workers == s.workers[w := Awake]
    requires LaneOf(t.log, name) ==
             if msg.queue != name then LaneOf(s.log, name)
             else if LaneOf(s.log, name) == Busy(w, msg) then Free
             else Broken
    requires Has(t.pending, name) <==> Has(s.pending, name) && name != msg.queue
    ensures SerialOn(t, name)
  {
    assert Runs(s.workers[w], msg.queue);
  }

  /** Steps that touch neither the lists nor the log nor who runs what. */
  lemma OthersOn(s: State, t: State, name: Name)
    requires SerialOn(s, name) && FifoOn(s, name)
    requires t.scheduled == s.scheduled && t.pending == s.pending && t.log == s.log && |t.workers| >= |s.workers|
    requires forall i :: 0 <= i < |s.workers| && s.workers[i].Running? ==> t.workers[i] == s.workers[i]
    requires forall i :: 0 <= i < |t.workers| && t.workers[i].Running? ==>
               i < |s.workers| && t.workers[i] == s.workers[i]
    ensures SerialOn(t, name) && FifoOn(t, name)
  {
  }

  lemma {:induction false} RousedCounts(ws: seq<Worker>)
    ensures Count(Roused(ws), Sleeping) == 0 && Count(Roused(ws), Exited) == Count(ws, Exited)
  {
    if ws != [] {
      RousedCounts(ws[..|ws| - 1]);
      assert Roused(ws)[..|ws| - 1] == Roused(ws[..|ws| - 1]);
    }
  }

  lemma OthersWorkers(s: State, step: Step)
    requires Inv(s) && Enabled(s, step) && (step.Start? || step.Stop? || step.Wake?)
    ensures NoLostWakeup(Apply(s, step)) && Stopping(Apply(s, step))
  {
    match step
    case Start =>
      CountAppend(s.workers, Awake, Awake);
      CountAppend(s.workers, Awake, Sleeping);
      CountAppend(s.workers, Awake, Exited);
      assert Apply(s, step).workers[|s.workers|] == Awake;
    case Stop =>
      RousedCounts(s.workers);
    case Wake(w) =>
      CountUpdate(s.workers, w, Awake, Awake);
      CountUpdate(s.workers, w, Awake, Sleeping);
      CountUpdate(s.workers, w, Awake, Exited);
      assert Apply(s, step).workers[w] == Awake;
  }

  lemma ScheduleKeeps(s: State, msg: Message, w: nat)
    requires Inv(s) && Enabled(s, Schedule(msg, w))
    ensures Inv(Scheduled(s, msg, w))
  {
    var t := Scheduled(s, msg, w);
    ScheduleQueues(s, msg, w);
    ScheduleWorkers(s, msg, w);
    forall name ensures SerialOn(t, name) && FifoOn(t, name) { ScheduleOn(s, msg, w, name); }
  }

  lemma LookKeeps(s: State, w: nat)
    requires Inv(s) && Enabled(s, Look(w))
    ensures Inv(Looked(s, w))
  {
    var t := Looked(s, w);
    LookQueues(s, w);
    LookWorkers(s, w);
    forall name ensures SerialOn(t, name) && FifoOn(t, name) { LookOn(s, w, name); }
  }

  lemma FinishKeeps(s: State, w: nat)
    requires Inv(s) && Enabled(s, Finish(w))
    ensures Inv(Finished(s, w))
  {
    var t := Finished(s, w);
    HeldIsPending(s, w);
    FinishQueues(s, w);
    FinishWorkers(s, w);
    forall name ensures SerialOn(t, name) && FifoOn(t, name) { FinishOn(s, w, name); }
  }

  lemma OthersKeep(s: State, step: Step)
    requires Inv(s) && Enabled(s, step) && (step.Start? || step.Stop? || step.Wake?)
    ensures Inv(Apply(s, step))
  {
    var t := Apply(s, step);
    OthersWorkers(s, step);
    forall name ensures SerialOn(t, name) && FifoOn(t, name) { OthersOn(s, t, name); }
  }

  /** Every step keeps the invariant. */
  lemma Keeps(s: State, step: Step)
    requires Inv(s) && Enabled(s, step)
    ensures Inv(Apply(s, step))
  {
    match step
    case Schedule(msg, w) => ScheduleKeeps(s, msg, w);
    case Look(w) => LookKeeps(s, w);
    case Finish(w) => FinishKeeps(s, w);
    case _ => OthersKeep(s, step);
  }

  // ----- whole runs -----

  lemma {:induction false} RunKeeps(s: State, steps: seq<Step>, t: State)
    requires Inv(s) && Leads(s, steps, t)
    ensures Inv(t)
    decreases |steps|
  {
    if steps != [] {
      Keeps(s, steps[0]);
      RunKeeps(Apply(s, steps[0]), steps[1..], t);
    }
  }

  /** Whatever the interleaving: a queue's messages run one at a time, in the order sent, each once. */
  lemma Serialises(steps: seq<Step>, t: State)
    requires Leads(INITIAL, steps, t)
    ensures forall name :: LaneOf(t.log, name) != Broken && BegunOn(t.log, name) <= SentOn(t.log, name)
    ensures forall v, w :: 0 <= v < w < |t.workers| && t.workers[v].Running? && t.workers[w].Running? ==>
              t.workers[v].msg.queue != t.workers[w].msg.queue
    ensures OneQueueEach(t)
  {
    RunKeeps(INITIAL, steps, t);
    forall name ensures LaneOf(t.log, name) != Broken && BegunOn(t.log, name) <= SentOn(t.log, name) {
      assert SerialOn(t, name) && FifoOn(t, name);
    }
    forall v, w | 0 <= v < w < |t.workers| && t.workers[v].Running? && t.workers[w].Running?
      ensures t.workers[v].msg.queue != t.workers[w].msg.queue
    {
      var name := t.workers[v].msg.queue;
      assert SerialOn(t, name) && Runs(t.workers[v], name);
    }
  }

  /** In every reachable state work that waits has an awake worker to take it, unless all are running or gone. */
  lemma NoWakeupLost(steps: seq<Step>, t: State, w: nat)
    requires Leads(INITIAL, steps, t)
    ensures Count(t.workers, Sleeping) > 0 ==> Count(t.workers, Awake) >= |t.scheduled|
    ensures t.scheduled != [] && IsWorker(t, w, Sleeping) ==>
              exists v: nat :: Enabled(t, Look(v)) && Looked(t, v).workers[v].Running?
  {
    RunKeeps(INITIAL, steps, t);
    if t.scheduled != [] && IsWorker(t, w, Sleeping) {
      CountPositive(t.workers, w, Sleeping);
      var v := SomeCounted(t.workers, Awake);
      assert Enabled(t, Look(v)) && Looked(t, v).workers[v].Running?;
    }
  }

  lemma FirstIsHad(qs: seq<Queue>)
    ensures qs != [] ==> Has(qs, qs[0].name)
  {
  }

  /** With every worker gone no queue is held. */
  lemma NoneHeld(s: State)
    requires Inv(s) && AllExited(s.workers)
    ensures s.pending == []
  {
    FirstIsHad(s.pending);
    forall name ensures !Has(s.pending, name) {
      assert SerialOn(s, name);
    }
  }

  /** Nothing is left of a queue. */
  ghost predicate Done(s: State, name: Name) {
    LaneOf(s.log, name) == Free && BegunOn(s.log, name) == SentOn(s.log, name)
  }

  /** Once all workers have exited, everything sent was dispatched, exactly unless something was sent after that. */
  lemma AfterLastExit(steps: seq<Step>, t: State)
    requires Leads(INITIAL, steps, t) && AllExited(t.workers)
    ensures !t.late <==> t.scheduled == [] && t.pending == []
    ensures !t.late <==> forall name :: Done(t, name)
  {
    RunKeeps(INITIAL, steps, t);
    NoneHeld(t);
    forall name ensures Done(t, name) <==> Waiting(t.scheduled, name) == [] { DoneIfIdle(t, name); }
    if t.scheduled != [] {
      IndexIs(t.scheduled, 0);
      assert !Done(t, t.scheduled[0].name);
    }
  }

  lemma DoneIfIdle(t: State, name: Name)
    requires SerialOn(t, name) && FifoOn(t, name) && t.pending == []
    ensures Done(t, name) <==> Waiting(t.scheduled, name) == []
  {
    Absent(t.pending, name);
    assert Backlog(t, name) == Waiting(t.scheduled, name);
  }

  function Weight(ws: seq<Worker>): nat {
    if ws == [] then 0
    else
      Weight(ws[..|ws| - 1]) + match ws[|ws| - 1] case Running(_) => 2 case Exited => 0 case _ => 1
  }

  lemma {:induction false} WeightUpdate(ws: seq<Worker>, i: nat, now: Worker)
    requires i < |ws|
    ensures Weight(ws[i := now]) == Weight(ws) - Weight([ws[i]]) + Weight([now])
  {
    var last := |ws| - 1;
    assert [ws[i]][..0] == [] && [now][..0] == [];
    if i < last {
      WeightUpdate(ws[..last], i, now);
      assert ws[i := now][..last] == ws[..last][i := now];
    } else {
      assert ws[i := now][..last] == ws[..last];
    }
  }

  function Total(qs: seq<Queue>): nat {
    if qs == [] then 0 else |qs[0].messages| + Total(qs[1..])
  }

  lemma {:induction false} TotalOf(qs: seq<Queue>, ps: seq<Queue>)
    ensures Total(qs + ps) == Total(qs) + Total(ps)
  {
    if qs == [] {
      assert qs + ps == ps;
    } else {
      TotalOf(qs[1..], ps);
      assert (qs + ps)[1..] == qs[1..] + ps;
    }
  }

  lemma TotalMoved(qs: seq<Queue>, i: nat)
    requires i < |qs|
    ensures Total(Without(qs, i)) + |qs[i].messages| == Total(qs)
  {
    TotalOf(qs[..i], qs[i + 1..]);
    TotalOf(qs[..i], [qs[i]] + qs[i + 1..]);
    assert qs == qs[..i] + ([qs[i]] + qs[i + 1..]);
  }

  /** How many more times the workers can take the lock after a stop. */
  function Remaining(s: State): nat {
    2 * (Total(s.scheduled) + Total(s.pending)) + Weight(s.workers)
  }

  lemma StopStep(s: State, step: Step)
    requires Inv(s) && s.stop && Enabled(s, step) && (step.Look? || step.Finish?)
    ensures Apply(s, step).stop && Remaining(Apply(s, step)) == Remaining(s) - 1 && Apply(s, step).late == s.late
  {
    var t, w := Apply(s, step), step.worker;
    assert [s.workers[w]][..0] == [] && [t.workers[w]][..0] == [];
    if step.Finish? {
      HeldIsPending(s, w);
      var i := Index(s.pending, s.workers[w].msg.queue);
      TotalMoved(s.pending, i);
      TotalOf(s.scheduled, [s.pending[i]]);
    } else if s.scheduled != [] {
      var q := s.scheduled[0];
      TotalOf(s.pending, [Queue(q.name, q.messages[1..])]);
    }
    WeightUpdate(s.workers, w, t.workers[w]);
  }

  /** After a stop nobody is stuck: until all have exited, some worker can go on. */
  lemma SomeoneGoesOn(s: State) returns (step: Step)
    requires Inv(s) && s.stop && !AllExited(s.workers)
    ensures (step.Look? || step.Finish?) && Enabled(s, step)
  {
    var w :| 0 <= w < |s.workers| && s.workers[w] != Exited;
    if s.workers[w] == Sleeping {
      CountPositive(s.workers, w, Sleeping);
      assert false;
    }
    step := if s.workers[w].Running? then Finish(w) else Look(w);
  }

  /**
   * `stop` drains: from then on the workers take the lock a bounded number of times however they interleave,
   * and when none can go on, all have exited with every message dispatched.
   */
  lemma {:induction false} StopDrains(s: State, steps: seq<Step>, t: State)
    requires Inv(s) && s.stop && !s.late && Leads(s, steps, t)
    requires forall i :: 0 <= i < |steps| ==> steps[i].Look? || steps[i].Finish?
    ensures |steps| + Remaining(t) == Remaining(s)
    ensures (forall step: Step :: step.Look? || step.Finish? ==> !Enabled(t, step)) ==>
              AllExited(t.workers) && t.scheduled == [] && t.pending == [] && forall name :: Done(t, name)
    decreases |steps|
  {
    if steps != [] {
      Keeps(s, steps[0]);
      StopStep(s, steps[0]);
      StopDrains(Apply(s, steps[0]), steps[1..], t);
    } else if forall step: Step :: step.Look? || step.Finish? ==> !Enabled(s, step) {
      if !AllExited(s.workers) {
        var step := SomeoneGoesOn(s);
        assert false;
      }
      NoneHeld(s);
      forall name ensures Done(s, name) {
        assert SerialOn(s, name) && FifoOn(s, name);
      }
    }
  }

  // ----- queues are taken in turn -----

  /** How many messages have been begun. */
  function AllBegun(log: seq<Event>): nat {
    if log == [] then 0 else AllBegun(log[..|log| - 1]) + if log[|log| - 1].Begun? then 1 else 0
  }

  lemma AllBegunStep(log: seq<Event>, e: Event)
    ensures AllBegun(log + [e]) == AllBegun(log) + if e.Begun? then 1 else 0
  {
    assert (log + [e])[..|log|] == log;
  }

  lemma {:induction false} IndexAppended(qs: seq<Queue>, q: Queue, name: Name)
    requires Index(qs, name) < |qs|
    ensures Index(qs + [q], name) == Index(qs, name)
  {
    if qs[0].name != name {
      assert (qs + [q])[1..] == qs[1..] + [q];
      IndexAppended(qs[1..], q, name);
    }
  }

  lemma {:induction false} IndexPushed(qs: seq<Queue>, i: nat, msg: Message, name: Name)
    requires i < |qs|
    ensures Index(Pushed(qs, i, msg), name) == Index(qs, name)
  {
    var ps := Pushed(qs, i, msg);
    if qs[0].name != name {
      if i > 0 {
        assert ps[1..] == Pushed(qs[1..], i - 1, msg);
        IndexPushed(qs[1..], i - 1, msg, name);
      } else {
        assert ps[1..] == qs[1..];
      }
    }
  }

  /** From one state to another a scheduled queue moves up by one for each message begun, until it is its own turn. */
  predicate MovesUp(s: State, t: State, name: Name)
    requires AllBegun(s.log) <= AllBegun(t.log)
  {
    var k, taken := Index(s.scheduled, name), AllBegun(t.log) - AllBegun(s.log);
    if taken <= k then Index(t.scheduled, name) == k - taken && k - taken < |t.scheduled|
    else |BegunOn(t.log, name)| > |BegunOn(s.log, name)|
  }

  /** The queues keep their places, no message is begun. */
  predicate StaysPut(s: State, t: State, name: Name) {
    && AllBegun(s.log) == AllBegun(t.log) && BegunOn(s.log, name) == BegunOn(t.log, name)
    && (Index(s.scheduled, name) < |s.scheduled| ==>
        Index(t.scheduled, name) == Index(s.scheduled, name) < |t.scheduled|)
  }

  lemma FinishStaysPut(s: State, w: nat, name: Name)
    requires w < |s.workers| && s.workers[w].Running?
    ensures StaysPut(s, Finished(s, w), name)
  {
    var msg := s.workers[w].msg;
    AllBegunStep(s.log, Ended(w, msg));
    LogStep(s.log, Ended(w, msg), name);
    var i := Index(s.pending, msg.queue);
    if i < |s.pending| && Index(s.scheduled, name) < |s.scheduled| {
      IndexAppended(s.scheduled, s.pending[i], name);
    }
  }

  lemma ScheduleStaysPut(s: State, msg: Message, w: nat, name: Name)
    ensures StaysPut(s, Scheduled(s, msg, w), name)
  {
    AllBegunStep(s.log, Sent(msg));
    LogStep(s.log, Sent(msg), name);
    var i := Index(s.scheduled, msg.queue);
    if Index(s.scheduled, name) < |s.scheduled| {
      if i < |s.scheduled| {
        IndexPushed(s.scheduled, i, msg, name);
      } else {
        IndexAppended(s.scheduled, Queue(msg.queue, [msg]), name);
      }
    }
  }

  lemma LookMovesUp(s: State, w: nat, name: Name)
    requires Inv(s) && IsWorker(s, w, Awake)
    ensures var t := Looked(s, w);
            && AllBegun(s.log) <= AllBegun(t.log) && |BegunOn(s.log, name)| <= |BegunOn(t.log, name)|
            && (Index(s.scheduled, name) < |s.scheduled| ==> MovesUp(s, t, name))
  {
    if s.scheduled != [] {
      var q := s.scheduled[0];
      var msg := q.messages[0];
      AllBegunStep(s.log, Begun(w, msg));
      LogStep(s.log, Begun(w, msg), name);
      assert Proper(q) && msg.queue == q.name;
    }
  }

  lemma StepMovesUp(s: State, step: Step, name: Name)
    requires Inv(s) && Enabled(s, step)
    ensures var t := Apply(s, step);
            && AllBegun(s.log) <= AllBegun(t.log) && |BegunOn(s.log, name)| <= |BegunOn(t.log, name)|
            && (Index(s.scheduled, name) < |s.scheduled| ==> MovesUp(s, t, name))
  {
    match step {
      case Schedule(msg, w) => ScheduleStaysPut(s, msg, w, name);
      case Look(w) => LookMovesUp(s, w, name);
      case Finish(w) => FinishStaysPut(s, w, name);
      case _ =>
        assert Apply(s, step).log == s.log && Apply(s, step).scheduled == s.scheduled;
    }
  }

  /**
   * No queue is passed over: in every run, a queue that is scheduled behind k others is taken at the latest as the
   * k + 1st message from then on is begun.
   */
  lemma {:induction false} TakenInTurn(s: State, steps: seq<Step>, t: State, name: Name)
    requires Inv(s) && Leads(s, steps, t)
    ensures AllBegun(s.log) <= AllBegun(t.log) && |BegunOn(s.log, name)| <= |BegunOn(t.log, name)|
    ensures Index(s.scheduled, name) < |s.scheduled| ==> MovesUp(s, t, name)
    decreases |steps|
  {
    if steps != [] {
      var m := Apply(s, steps[0]);
      StepMovesUp(s, steps[0], name);
      Keeps(s, steps[0]);
      TakenInTurn(m, steps[1..], t, name);
    }
  }
}
