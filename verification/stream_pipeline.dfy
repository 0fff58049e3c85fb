/**
 The stream processor's bounded queue between one consumer thread and its workers, as
 interleaved steps. A step is one atomic queue operation or one message processed.
*/
module StreamPipeline {
  /** A Kafka message; its contents play no part here. */
  datatype Message = Message(payload: string)

  /** Where the consumer thread is: waiting for a message, or holding one it has yet to put. */
  datatype Consumer = Polling | Holding(m: Message)

  /**
   Where a worker is: at the top of its loop, past the test of the running flag and
   waiting for a message, with a message, past processing it, or out of the loop.
  */
  datatype Worker = Looping | Waiting | Took(m: Message) | Processed(m: Message) | Exited

  /**
   `put`, `taken` and `handled` record all messages ever put, taken and marked done;
   `unfinished` is the queue's own task counter.
  */
  datatype State = State(running: bool, bound: int, queue: seq<Message>, unfinished: nat,
                         consumer: Consumer, workers: seq<Worker>, consumed: nat,
                         put: seq<Message>, taken: seq<Message>, handled: seq<Message>)

  datatype Step =
    | Consume(m: Message)   // the consumer counts a message and is about to put it
    | Put                   // it puts the message, once there is room
    | Enter(w: nat)         // a worker finds the running flag raised and asks for a message
    | Take(w: nat)          // it gets the next message
    | TimeOut(w: nat)       // its get times out on an empty queue
    | Process(w: nat)       // process_message returns, whatever happened inside
    | TaskDone(w: nat)      // it marks the message done
    | Leave(w: nat)         // it finds the running flag lowered
    | Stop                  // the running flag is lowered

  /** `queue.Queue(maxsize)`: no bound when `maxsize` is not positive. */
  predicate HasRoom(s: State) {
    s.bound <= 0 || |s.queue| < s.bound
  }

  function Initial(bound: int, workers: nat): State {
    State(true, bound, [], 0, Polling, seq(workers, _ => Looping), 0, [], [], [])
  }

  predicate Enabled(s: State, step: Step) {
    match step
    case Consume(_) => s.consumer.Polling?
    case Put => s.consumer.Holding? && HasRoom(s)
    case Enter(w) => w < |s.workers| && s.workers[w].Looping? && s.running
    case Take(w) => w < |s.workers| && s.workers[w].Waiting? && s.queue != []
    case TimeOut(w) => w < |s.workers| && s.workers[w].Waiting? && s.queue == []
    case Process(w) => w < |s.workers| && s.workers[w].Took?
    case TaskDone(w) => w < |s.workers| && s.workers[w].Processed?
    case Leave(w) => w < |s.workers| && s.workers[w].Looping? && !s.running
    case Stop => s.running
  }

  function Next(s: State, step: Step): State
    requires Enabled(s, step)
  {
    match step
    case Consume(m) => s.(consumer := Holding(m), consumed := s.consumed + 1)
    case Put =>
      s.(consumer := Polling, queue := s.queue + [s.consumer.m], unfinished := s.unfinished + 1,
         put := s.put + [s.consumer.m])
    case Enter(w) => s.(workers := s.workers[w := Waiting])
    case Take(w) =>
      s.(queue := s.queue[1..], workers := s.workers[w := Took(s.queue[0])], taken := s.taken + [s.queue[0]])
    case TimeOut(w) => s.(workers := s.workers[w := Looping])
    case Process(w) => s.(workers := s.workers[w := Processed(s.workers[w].m)])
    case TaskDone(w) =>
      s.(unfinished := if s.unfinished > 0 then s.unfinished - 1 else 0,
         workers := s.workers[w := Looping], handled := s.handled + [s.workers[w].m])
    case Leave(w) => s.(workers := s.workers[w := Exited])
    case Stop => s.(running := false)
  }

  ghost predicate Reaches(s: State, steps: seq<Step>, t: State)
    decreases |steps|
  {
    if steps == [] then s == t
    else Enabled(s, steps[0]) && Reaches(Next(s, steps[0]), steps[1..], t)
  }

  predicate HasMessage(w: Worker) {
    w.Took? || w.Processed?
  }

  /** How many copies of a message are in workers' hands, and how many workers hold a message. */
  function InHand(workers: seq<Worker>, m: Message): nat {
    if workers == [] then 0 else
    var rest, w := InHand(workers[..|workers| - 1], m), workers[|workers| - 1];
    if HasMessage(w) && w.m == m then rest + 1 else rest
  }

  function Busy(workers: seq<Worker>): nat {
    if workers == [] then 0 else
    var rest, w := Busy(workers[..|workers| - 1]), workers[|workers| - 1];
    if HasMessage(w) then rest + 1 else rest
  }

  function Copies(s: seq<Message>, m: Message): nat {
    multiset(s)[m]
  }

  function One(yes: bool): nat {
    if yes then 1 else 0
  }

  lemma {:induction false} WorkerMoves(workers: seq<Worker>, w: nat, x: Worker, m: Message)
    requires w < |workers|
    ensures InHand(workers[w := x], m) + One(HasMessage(workers[w]) && workers[w].m == m)
         == InHand(workers, m) + One(HasMessage(x) && x.m == m)
    ensures Busy(workers[w := x]) + One(HasMessage(workers[w])) == Busy(workers) + One(HasMessage(x))
  {
    var n := |workers| - 1;
    if w < n {
      WorkerMoves(workers[..n], w, x, m);
      assert workers[w := x][..n] == workers[..n][w := x];
    } else {
      assert workers[w := x][..n] == workers[..n];
    }
  }

  lemma CopiesAppend(s: seq<Message>, x: Message, m: Message)
    ensures Copies(s + [x], m) == Copies(s, m) + One(x == m)
  {
    assert multiset(s + [x]) == multiset(s) + multiset{x};
  }

  /** Every copy of a message taken from the queue has been handled or is in a worker's hands. */
  ghost predicate Conserved(taken: seq<Message>, handled: seq<Message>, workers: seq<Worker>) {
    |taken| == |handled| + Busy(workers) &&
    forall m: Message :: Copies(taken, m) == Copies(handled, m) + InHand(workers, m)
  }

  /** A step of one worker keeps this when what it takes and what it hands back fit what it holds. */
  lemma ConservedByMove(taken: seq<Message>, handled: seq<Message>, workers: seq<Worker>, w: nat, x: Worker)
    requires w < |workers| && Conserved(taken, handled, workers)
    ensures !HasMessage(workers[w]) && HasMessage(x) ==> Conserved(taken + [x.m], handled, workers[w := x])
    ensures HasMessage(workers[w]) && !HasMessage(x) ==> Conserved(taken, handled + [workers[w].m], workers[w := x])
    ensures HasMessage(workers[w]) == HasMessage(x) && (HasMessage(x) ==> workers[w].m == x.m) ==>
              Conserved(taken, handled, workers[w := x])
  {
    WorkerMoves(workers, w, x, Message(""));
    forall m: Message
      ensures InHand(workers[w := x], m) + One(HasMessage(workers[w]) && workers[w].m == m)
           == InHand(workers, m) + One(HasMessage(x) && x.m == m)
      ensures HasMessage(x) ==> Copies(taken + [x.m], m) == Copies(taken, m) + One(x.m == m)
      ensures HasMessage(workers[w]) ==>
                Copies(handled + [workers[w].m], m) == Copies(handled, m) + One(workers[w].m == m)
    {
      WorkerMoves(workers, w, x, m);
      if HasMessage(x) { CopiesAppend(taken, x.m, m); }
      if HasMessage(workers[w]) { CopiesAppend(handled, workers[w].m, m); }
    }
  }

  /**
   The queue is first in, first out and never over its bound; what was taken is conserved;
   and the task counter counts the messages queued or in hand.
  */
  ghost predicate Invariant(s: State) {
    s.put == s.taken + s.queue &&
    (s.bound > 0 ==> |s.queue| <= s.bound) &&
    Conserved(s.taken, s.handled, s.workers) &&
    s.unfinished == |s.queue| + Busy(s.workers) &&
    s.consumed == |s.put| + One(s.consumer.Holding?)
  }

  lemma {:induction false} NobodyHolds(workers: seq<Worker>, m: Message)
    requires forall w :: 0 <= w < |workers| ==> !HasMessage(workers[w])
    ensures InHand(workers, m) == 0 && Busy(workers) == 0
  {
    if workers != [] { NobodyHolds(workers[..|workers| - 1], m); }
  }

  lemma InvariantInitially(bound: int, workers: nat)
    ensures Invariant(Initial(bound, workers))
  {
    var s := Initial(bound, workers);
    NobodyHolds(s.workers, Message(""));
    forall m: Message ensures InHand(s.workers, m) == 0 {
      NobodyHolds(s.workers, m);
    }
  }

  lemma TakePreserves(s: State, w: nat)
    requires Invariant(s) && Enabled(s, Take(w))
    ensures Invariant(Next(s, Take(w)))
  {
    var x := Took(s.queue[0]);
    ConservedByMove(s.taken, s.handled, s.workers, w, x);
    WorkerMoves(s.workers, w, x, x.m);
    assert (s.taken + [x.m]) + s.queue[1..] == s.taken + s.queue;
  }

  lemma TaskDonePreserves(s: State, w: nat)
    requires Invariant(s) && Enabled(s, TaskDone(w))
    ensures Invariant(Next(s, TaskDone(w)))
  {
    ConservedByMove(s.taken, s.handled, s.workers, w, Looping);
    WorkerMoves(s.workers, w, Looping, s.workers[w].m);
  }

  lemma PutPreserves(s: State)
    requires Invariant(s) && Enabled(s, Put)
    ensures Invariant(Next(s, Put))
  {
    assert s.taken + (s.queue + [s.consumer.m]) == (s.taken + s.queue) + [s.consumer.m];
  }

  lemma EnterPreserves(s: State, w: nat)
    requires Invariant(s) && Enabled(s, Enter(w))
    ensures Invariant(Next(s, Enter(w)))
  {
    ConservedByMove(s.taken, s.handled, s.workers, w, Waiting);
    WorkerMoves(s.workers, w, Waiting, Message(""));
  }

  lemma TimeOutPreserves(s: State, w: nat)
    requires Invariant(s) && Enabled(s, TimeOut(w))
    ensures Invariant(Next(s, TimeOut(w)))
  {
    ConservedByMove(s.taken, s.handled, s.workers, w, Looping);
    WorkerMoves(s.workers, w, Looping, Message(""));
  }

  lemma ProcessPreserves(s: State, w: nat)
    requires Invariant(s) && Enabled(s, Process(w))
    ensures Invariant(Next(s, Process(w)))
  {
    var x := Processed(s.workers[w].m);
    ConservedByMove(s.taken, s.handled, s.workers, w, x);
    WorkerMoves(s.workers, w, x, x.m);
  }

  lemma LeavePreserves(s: State, w: nat)
    requires Invariant(s) && Enabled(s, Leave(w))
    ensures Invariant(Next(s, Leave(w)))
  {
    ConservedByMove(s.taken, s.handled, s.workers, w, Exited);
    WorkerMoves(s.workers, w, Exited, Message(""));
  }

  lemma InvariantPreserved(s: State, step: Step)
    requires Invariant(s) && Enabled(s, step)
    ensures Invariant(Next(s, step))
  {
    match step
    case Consume(_) =>
    case Put => PutPreserves(s);
    case Enter(w) => EnterPreserves(s, w);
    case Take(w) => TakePreserves(s, w);
    case TimeOut(w) => TimeOutPreserves(s, w);
    case Process(w) => ProcessPreserves(s, w);
    case TaskDone(w) => TaskDonePreserves(s, w);
    case Leave(w) => LeavePreserves(s, w);
    case Stop =>
  }

  lemma {:induction false} InvariantOverRuns(s: State, steps: seq<Step>, t: State)
    requires Invariant(s) && Reaches(s, steps, t)
    ensures Invariant(t) && t.bound == s.bound
    decreases |steps|
  {
    if steps != [] {
      InvariantPreserved(s, steps[0]);
      InvariantOverRuns(Next(s, steps[0]), steps[1..], t);
    }
  }

  lemma {:induction false} InHandAtMostBusy(workers: seq<Worker>, m: Message)
    ensures InHand(workers, m) <= Busy(workers)
  {
    if workers != [] { InHandAtMostBusy(workers[..|workers| - 1], m); }
  }

  /** The unfinished count is what has been put and not yet handled; it is zero exactly when nothing is left. */
  lemma UnfinishedIsTheRest(s: State)
    requires Invariant(s)
    ensures s.unfinished == |s.put| - |s.handled|
    ensures s.unfinished == 0 <==> multiset(s.put) == multiset(s.handled)
  {
    if s.unfinished == 0 {
      assert s.put == s.taken;
      forall m: Message ensures multiset(s.put)[m] == multiset(s.handled)[m] {
        InHandAtMostBusy(s.workers, m);
        assert Copies(s.taken, m) == Copies(s.handled, m);
      }
    } else {
      assert |multiset(s.put)| == |s.put| && |multiset(s.handled)| == |s.handled|;
    }
  }

  /**
   Under every interleaving: of every message, the copies put are the copies handled, in a
   worker's hands and still queued; messages leave in the order they were put; the bound
   holds; and the unfinished count is zero exactly when everything put has been handled.
  */
  lemma EveryRun(bound: int, workers: nat, steps: seq<Step>, t: State, m: Message)
    requires Reaches(Initial(bound, workers), steps, t)
    ensures Copies(t.put, m) == Copies(t.handled, m) + InHand(t.workers, m) + Copies(t.queue, m)
    ensures t.put == t.taken + t.queue
    ensures bound > 0 ==> |t.queue| <= bound
    ensures t.unfinished == 0 <==> multiset(t.put) == multiset(t.handled)
  {
    InvariantInitially(bound, workers);
    InvariantOverRuns(Initial(bound, workers), steps, t);
    UnfinishedIsTheRest(t);
    assert Copies(t.taken, m) == Copies(t.handled, m) + InHand(t.workers, m);
    assert multiset(t.taken + t.queue)[m] == multiset(t.taken)[m] + multiset(t.queue)[m];
  }

  // ------------------------------------------------------------------ stopping

  /** How many workers are past the test of the running flag and waiting for a message. */
  function WaitingCount(workers: seq<Worker>): nat {
    if workers == [] then 0 else
    var rest := WaitingCount(workers[..|workers| - 1]);
    if workers[|workers| - 1].Waiting? then rest + 1 else rest
  }

  /** Steps left for the workers to be done with the messages they hold. */
  function Effort(w: Worker): nat {
    if w.Took? then 2 else if w.Processed? then 1 else 0
  }

  function Work(workers: seq<Worker>): nat {
    if workers == [] then 0 else Work(workers[..|workers| - 1]) + Effort(workers[|workers| - 1])
  }

  lemma {:induction false} CountsMove(workers: seq<Worker>, w: nat, x: Worker)
    requires w < |workers|
    ensures WaitingCount(workers[w := x]) + One(workers[w].Waiting?) == WaitingCount(workers) + One(x.Waiting?)
    ensures Work(workers[w := x]) + Effort(workers[w]) == Work(workers) + Effort(x)
  {
    var n := |workers| - 1;
    if w < n {
      CountsMove(workers[..n], w, x);
      assert workers[w := x][..n] == workers[..n][w := x];
    } else {
      assert workers[w := x][..n] == workers[..n];
    }
  }

  lemma {:induction false} FindWaiting(workers: seq<Worker>) returns (w: nat)
    requires WaitingCount(workers) > 0
    ensures w < |workers| && workers[w].Waiting?
  {
    w := |workers| - 1;
    if !workers[w].Waiting? {
      w := FindWaiting(workers[..w]);
    }
  }

  lemma {:induction false} FindBusy(workers: seq<Worker>) returns (w: nat)
    requires Busy(workers) > 0
    ensures w < |workers| && HasMessage(workers[w])
  {
    w := |workers| - 1;
    if !HasMessage(workers[w]) {
      w := FindBusy(workers[..w]);
    }
  }

  /** Waiting for the queue in `stop`: the join can return after some further steps. */
  ghost predicate CanFinish(s: State) {
    exists steps: seq<Step>, t: State :: Reaches(s, steps, t) && t.unfinished == 0
  }

  lemma StillTooMany(s: State, step: Step)
    requires !s.running && |s.queue| > WaitingCount(s.workers) && Enabled(s, step)
    ensures !Next(s, step).running && |Next(s, step).queue| > WaitingCount(Next(s, step).workers)
  {
    match step
    case Consume(_) =>
    case Put =>
    case Enter(_) =>
    case Take(w) => CountsMove(s.workers, w, Took(s.queue[0]));
    case TimeOut(_) =>
    case Process(w) => CountsMove(s.workers, w, Processed(s.workers[w].m));
    case TaskDone(w) => CountsMove(s.workers, w, Looping);
    case Leave(w) => CountsMove(s.workers, w, Exited);
    case Stop =>
  }

  /** With more messages queued than workers waiting, some message is never taken. */
  lemma {:induction false} AlwaysTooMany(s: State, steps: seq<Step>, t: State)
    requires !s.running && |s.queue| > WaitingCount(s.workers) && Reaches(s, steps, t)
    ensures |t.queue| > WaitingCount(t.workers)
    decreases |steps|
  {
    if steps != [] {
      StillTooMany(s, steps[0]);
      AlwaysTooMany(Next(s, steps[0]), steps[1..], t);
    }
  }

  lemma OneStepFirst(s: State, step: Step, steps: seq<Step>, t: State)
    requires Enabled(s, step) && Reaches(Next(s, step), steps, t)
    ensures Reaches(s, [step] + steps, t)
  {
    assert ([step] + steps)[1..] == steps;
  }

  /** With a waiting worker for every queued message, the workers can take and finish everything. */
  lemma {:induction false} Drain(s: State) returns (steps: seq<Step>, t: State)
    requires Invariant(s) && |s.queue| <= WaitingCount(s.workers)
    ensures Reaches(s, steps, t) && t.unfinished == 0 && t.put == s.put && t.running == s.running
    decreases |s.queue|, Work(s.workers)
  {
    if s.unfinished == 0 {
      steps, t := [], s;
    } else {
      var step := NextToDrain(s);
      InvariantPreserved(s, step);
      steps, t := Drain(Next(s, step));
      OneStepFirst(s, step, steps, t);
      steps := [step] + steps;
    }
  }

  lemma NextToDrain(s: State) returns (step: Step)
    requires Invariant(s) && |s.queue| <= WaitingCount(s.workers) && s.unfinished > 0
    ensures Enabled(s, step)
    ensures var t := Next(s, step);
            t.put == s.put && t.running == s.running && |t.queue| <= WaitingCount(t.workers) &&
            (|t.queue| < |s.queue| || (t.queue == s.queue && Work(t.workers) < Work(s.workers)))
  {
    if s.queue != [] {
      var w := FindWaiting(s.workers);
      CountsMove(s.workers, w, Took(s.queue[0]));
      step := Take(w);
    } else {
      var w := FindBusy(s.workers);
      if s.workers[w].Took? {
        CountsMove(s.workers, w, Processed(s.workers[w].m));
        step := Process(w);
      } else {
        CountsMove(s.workers, w, Looping);
        step := TaskDone(w);
      }
    }
  }

  /**
   Once the running flag is lowered, the join in `stop` can return if and only if there
   is a waiting worker for every message queued: nobody else will ask for one.
  */
  lemma JoinCanReturnIff(s: State)
    requires Invariant(s) && !s.running
    ensures CanFinish(s) <==> |s.queue| <= WaitingCount(s.workers)
  {
    if |s.queue| <= WaitingCount(s.workers) {
      var steps, t := Drain(s);
    } else if CanFinish(s) {
      var steps: seq<Step>, t: State :| Reaches(s, steps, t) && t.unfinished == 0;
      AlwaysTooMany(s, steps, t);
      InvariantOverRuns(s, steps, t);
    }
  }

  /** So a call of `stop` on a running pipeline can return exactly when that holds at the call. */
  lemma StopCanReturnIff(s: State)
    requires Invariant(s) && s.running
    ensures CanFinish(Next(s, Stop)) <==> |s.queue| <= WaitingCount(s.workers)
  {
    InvariantPreserved(s, Stop);
    JoinCanReturnIff(Next(s, Stop));
  }

  // ------------------------------------------------------------------ while running

  lemma {:induction false} OneStepMore(s: State, steps: seq<Step>, t: State, step: Step)
    requires Reaches(s, steps, t) && Enabled(t, step)
    ensures Reaches(s, steps + [step], Next(t, step))
    decreases |steps|
  {
    if steps == [] {
      assert ([] + [step])[1..] == [] && steps + [step] == [step];
      assert Reaches(Next(t, step), [step][1..], Next(t, step));
    } else {
      OneStepMore(Next(s, steps[0]), steps[1..], t, step);
      assert (steps + [step])[1..] == steps[1..] + [step];
    }
  }

  /** The queue can be filled up to its bound, and without limit when it has none. */
  lemma {:induction false} QueueFills(bound: int, workers: nat, n: nat, m: Message) returns (steps: seq<Step>, t: State)
    requires bound <= 0 || n <= bound
    ensures Reaches(Initial(bound, workers), steps, t) && |t.queue| == n && t.consumer.Polling? && t.bound == bound
  {
    steps, t := [], Initial(bound, workers);
    if n > 0 {
      steps, t := QueueFills(bound, workers, n - 1, m);
      OneStepMore(Initial(bound, workers), steps, t, Consume(m));
      steps, t := steps + [Consume(m)], Next(t, Consume(m));
      OneStepMore(Initial(bound, workers), steps, t, Put);
      steps, t := steps + [Put], Next(t, Put);
    }
  }

  /** Workers leave their loops only once the running flag is lowered, and it is not raised again. */
  lemma {:induction false} NobodyLeavesEarly(s: State, steps: seq<Step>, t: State)
    requires Reaches(s, steps, t) && t.running && Exited !in s.workers
    ensures s.running && Exited !in t.workers && |t.workers| == |s.workers|
    decreases |steps|
  {
    if steps != [] {
      var next := Next(s, steps[0]);
      if Exited !in next.workers {
        NobodyLeavesEarly(next, steps[1..], t);
      } else {
        StaysStopped(next, steps[1..], t);
      }
    }
  }

  lemma {:induction false} StaysStopped(s: State, steps: seq<Step>, t: State)
    requires Reaches(s, steps, t) && !s.running
    ensures !t.running
    decreases |steps|
  {
    if steps != [] { StaysStopped(Next(s, steps[0]), steps[1..], t); }
  }

  /** Steps a worker that stays has to take until it asks for a message. */
  function Distance(w: Worker): nat {
    if w.Took? then 3 else if w.Processed? then 2 else if w.Looping? then 1 else 0
  }

  /** What the first worker does next. */
  function OwnStep(s: State): Step
    requires s.workers != []
  {
    match s.workers[0]
    case Looping => Enter(0)
    case Waiting => Take(0)
    case Took(_) => Process(0)
    case Processed(_) => TaskDone(0)
    case Exited => Leave(0)
  }

  lemma {:induction false} Serve(s: State) returns (steps: seq<Step>, t: State)
    requires Invariant(s) && s.running && s.workers != [] && s.workers[0] != Exited
    ensures Reaches(s, steps, t) && t.unfinished == 0 && t.put == s.put && t.running
    decreases |s.queue|, Distance(if s.workers == [] then Exited else s.workers[0])
  {
    if s.queue == [] {
      steps, t := Drain(s);
    } else {
      var step := OwnStep(s);
      InvariantPreserved(s, step);
      steps, t := Serve(Next(s, step));
      OneStepFirst(s, step, steps, t);
      steps := [step] + steps;
    }
  }

  /**
   While the pipeline runs nothing is ever stuck: from every state reachable with at least
   one worker and the running flag up, everything put so far can be handled with the flag
   still up.
  */
  lemma NothingStuckWhileRunning(bound: int, workers: nat, steps: seq<Step>, s: State)
    returns (more: seq<Step>, t: State)
    requires workers >= 1 && Reaches(Initial(bound, workers), steps, s) && s.running
    ensures Reaches(s, more, t) && t.running && t.put == s.put && multiset(t.put) == multiset(t.handled)
  {
    InvariantInitially(bound, workers);
    InvariantOverRuns(Initial(bound, workers), steps, s);
    NobodyLeavesEarly(Initial(bound, workers), steps, s);
    more, t := Serve(s);
    InvariantOverRuns(s, more, t);
    UnfinishedIsTheRest(t);
  }

  lemma {:induction false} NobodyWaits(workers: seq<Worker>)
    requires forall w :: 0 <= w < |workers| ==> workers[w].Exited?
    ensures WaitingCount(workers) == 0
  {
    if workers != [] { NobodyWaits(workers[..|workers| - 1]); }
  }

  /** In particular, once all workers have left their loops, exactly when the queue is empty. */
  lemma JoinAfterWorkersExit(s: State)
    requires Invariant(s) && !s.running && forall w :: 0 <= w < |s.workers| ==> s.workers[w].Exited?
    ensures CanFinish(s) <==> s.queue == []
  {
    NobodyWaits(s.workers);
    JoinCanReturnIff(s);
  }

  /** They can leave a message behind: a run after which `stop` waits forever. */
  lemma StopCanHang(m: Message) returns (steps: seq<Step>, t: State)
    ensures Reaches(Initial(1, 1), steps, t) && !CanFinish(t)
  {
    var s0 := Initial(1, 1);
    steps := [Consume(m), Put, Stop, Leave(0)];
    var s1 := Next(s0, Consume(m));
    var s2 := Next(s1, Put);
    var s3 := Next(s2, Stop);
    t := Next(s3, Leave(0));
    assert Reaches(t, steps[4..], t);
    assert Reaches(s3, steps[3..], t) by { assert steps[3..][1..] == steps[4..]; }
    assert Reaches(s2, steps[2..], t) by { assert steps[2..][1..] == steps[3..]; }
    assert Reaches(s1, steps[1..], t) by { assert steps[1..][1..] == steps[2..]; }
    InvariantInitially(1, 1);
    InvariantOverRuns(s0, steps, t);
    JoinAfterWorkersExit(t);
  }
}
