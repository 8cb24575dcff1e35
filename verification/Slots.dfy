/** The request slots of the transport: callers that may give up at any await race their blocking
    workers for a shared job, and a semaphore bounds how many requests hold a slot. */
module Slots {
  const MAX_BLOCKING_REQUESTS: nat := 32

  /** What a caller and its worker share: the slot and the request, each until someone takes it. */
  datatype Job = Job(permit: bool, request: bool)

  const EMPTY: Job := Job(false, false)

  /** Taking the job, as either side does under the lock: all that is left, and nothing stays. */
  function Taken(job: Job): (Job, Job) {
    (job, EMPTY)
  }

  datatype Caller =
    | Fresh
    | Waiting
    | Holding
    | Pending
    | Aborted
    | Releasing(permit: bool)
    | Gone

  datatype Worker = Absent | Queued | Running(permit: bool) | Over

  /** What a worker becomes with what it took: it runs only with both slot and request. */
  function WorkerWith(taken: Job): Worker {
    if taken.permit && taken.request then Running(taken.permit) else Over
  }

  /** A slot taken without the request is given back at once. */
  function GivenBack(taken: Job): bool {
    taken.permit && !taken.request
  }

  /** The job behind its lock. */
  class PendingJob {
    var permit: bool
    var request: bool

    ghost function View(): Job
      reads this
    {
      Job(permit, request)
    }

    constructor ()
      ensures View() == Job(true, true)
    {
      permit, request := true, true;
    }

    /** Whoever comes second finds nothing. */
    method Take() returns (taken: Job)
      modifies this
      ensures (taken, View()) == Taken(old(View()))
    {
      var slot := permit;
      permit := false;
      var what := request;
      request := false;
      taken := Job(slot, what);
    }

    /** The worker's side: run with what was taken, or give a lone slot back. */
    method Begin() returns (worker: Worker, freed: bool)
      modifies this
      ensures (worker, freed) == (WorkerWith(Taken(old(View())).0), GivenBack(Taken(old(View())).0))
      ensures View() == Taken(old(View())).1
    {
      var taken := Take();
      if !taken.permit || !taken.request {
        return Over, taken.permit;
      }
      return Running(true), false;
    }

    /** The caller's side: drop the request, then release the slot if there was one. */
    method Withdraw() returns (caller: Caller, withdrawn: bool)
      modifies this
      ensures (caller, withdrawn) ==
              (Releasing(Taken(old(View())).0.permit), Taken(old(View())).0.request)
      ensures View() == Taken(old(View())).1
    {
      var taken := Take();
      return Releasing(taken.permit), taken.request;
    }
  }

  /** One request: its two sides, their job, what each side has taken of it, how often the request
      started, and whether its caller took it back while it was queued. */
  datatype Send = Send(
    caller: Caller,
    worker: Worker,
    job: Job,
    callerGot: Job,
    workerGot: Job,
    starts: nat,
    withdrawn: bool)

  const NEW: Send := Send(Fresh, Absent, EMPTY, EMPTY, EMPTY, 0, false)

  datatype State = State(free: nat, sends: seq<Send>)

  const START: State := State(MAX_BLOCKING_REQUESTS, [])

  datatype Action =
    | Arrive
    | Wait(i: nat)
    | GiveUp(i: nat)
    | Acquire(i: nat)
    | Submit(i: nat)
    | Abort(i: nat)
    | Withdraw(i: nat)
    | Release(i: nat)
    | Discard(i: nat)
    | Begin(i: nat)
    | Exit(i: nat)

  /** Whether an action can happen. A caller leaves its pending request for any reason at any
      time: the worker answered, the deadline passed, or its future was dropped. */
  predicate Enabled(s: State, a: Action) {
    a.Arrive? ||
    (a.i < |s.sends| &&
     var r := s.sends[a.i];
     match a
     case Wait(_) => r.caller == Fresh
     case GiveUp(_) => r.caller == Fresh || r.caller == Waiting
     case Acquire(_) => r.caller == Waiting && s.free > 0
     case Submit(_) => r.caller == Holding
     case Abort(_) => r.caller == Pending
     case Withdraw(_) => r.caller == Aborted
     case Release(_) => r.caller.Releasing?
     case Discard(_) => r.worker == Queued && r.caller != Pending
     case Begin(_) => r.worker == Queued
     case Exit(_) => r.worker.Running?)
  }

  function Freed(free: nat, permit: bool): nat {
    if permit then free + 1 else free
  }

  function One(held: bool): nat {
    if held then 1 else 0
  }

  function Both(a: Job, b: Job): Job {
    Job(a.permit || b.permit, a.request || b.request)
  }

  function With(s: State, i: nat, r: Send): State
    requires i < |s.sends|
  {
    s.(sends := s.sends[i := r])
  }

  /** One atomic step of one caller or worker. */
  function Step(s: State, a: Action): State
    requires Enabled(s, a)
  {
    if a.Arrive? then s.(sends := s.sends + [NEW])
    else
      var r := s.sends[a.i];
      match a
      case Wait(i) => With(s, i, r.(caller := Waiting))
      case GiveUp(i) => With(s, i, r.(caller := Gone))
      case Acquire(i) => With(s, i, r.(caller := Holding)).(free := s.free - 1)
      case Submit(i) => With(s, i, r.(caller := Pending, worker := Queued, job := Job(true, true)))
      case Abort(i) => With(s, i, r.(caller := Aborted))
      case Withdraw(i) =>
        var (taken, left) := Taken(r.job);
        With(s, i, r.(caller := Releasing(taken.permit), job := left,
                      callerGot := Both(r.callerGot, taken),
                      withdrawn := r.withdrawn || taken.request))
      case Release(i) => With(s, i, r.(caller := Gone)).(free := Freed(s.free, r.caller.permit))
      case Discard(i) => With(s, i, r.(worker := Over))
      case Begin(i) =>
        var (taken, left) := Taken(r.job);
        var worker := WorkerWith(taken);
        With(s, i, r.(worker := worker, job := left, workerGot := Both(r.workerGot, taken),
                      starts := r.starts + One(worker.Running?)))
        .(free := Freed(s.free, GivenBack(taken)))
      case Exit(i) => With(s, i, r.(worker := Over)).(free := Freed(s.free, r.worker.permit))
  }

  predicate Possible(s: State, actions: seq<Action>)
    decreases |actions|
  {
    actions == [] || (Enabled(s, actions[0]) && Possible(Step(s, actions[0]), actions[1..]))
  }

  function Run(s: State, actions: seq<Action>): State
    requires Possible(s, actions)
    decreases |actions|
  {
    if actions == [] then s else Run(Step(s, actions[0]), actions[1..])
  }

  // What one request holds.

  function QueuedSlots(r: Send): nat {
    One(r.job.permit)
  }

  function RunningSlots(r: Send): nat {
    One(r.worker.Running? && r.worker.permit)
  }

  function PassingSlots(r: Send): nat {
    One(r.caller == Holding || (r.caller.Releasing? && r.caller.permit))
  }

  function Total(f: Send -> nat, sends: seq<Send>): nat {
    if sends == [] then 0 else Total(f, sends[..|sends| - 1]) + f(sends[|sends| - 1])
  }

  lemma {:induction false} TotalUpdated(f: Send -> nat, sends: seq<Send>, i: nat, r: Send)
    requires i < |sends|
    ensures Total(f, sends[i := r]) == Total(f, sends) - f(sends[i]) + f(r)
  {
    var last := |sends| - 1;
    if i < last {
      TotalUpdated(f, sends[..last], i, r);
      assert sends[i := r][..last] == sends[..last][i := r];
    } else {
      assert sends[i := r][..last] == sends[..last];
    }
  }

  lemma TotalAppended(f: Send -> nat, sends: seq<Send>, r: Send)
    ensures Total(f, sends + [r]) == Total(f, sends) + f(r)
  {
    assert (sends + [r])[..|sends|] == sends;
  }

  lemma {:induction false} TotalZero(f: Send -> nat, sends: seq<Send>)
    requires forall r <- sends :: f(r) == 0
    ensures Total(f, sends) == 0
  {
    if sends != [] {
      TotalZero(f, sends[..|sends| - 1]);
    }
  }

  /** Slot and request are in the job, or were taken by one side, never by both. */
  predicate OneTaker(r: Send) {
    && !(r.callerGot.permit && r.workerGot.permit) && !(r.callerGot.request && r.workerGot.request)
    && (r.job.permit ==> !r.callerGot.permit && !r.workerGot.permit)
    && (r.job.request ==> !r.callerGot.request && !r.workerGot.request)
    && (r.withdrawn <==> r.callerGot.request) && (r.starts == One(r.workerGot.request))
    && r.callerGot.permit == r.callerGot.request && r.workerGot.permit == r.workerGot.request
    && (r.worker == Absent ==> r.callerGot == EMPTY && r.workerGot == EMPTY)
  }

  /** The two sides of a request agree on its job: while it is queued and not withdrawn the job is
      whole, and once either side took it the job is empty. */
  predicate Agreed(r: Send) {
    && OneTaker(r)
    && r.job.permit == r.job.request
    && (r.worker.Running? ==> r.worker.permit && r.starts == 1)
    && (r.job.request ==>
         r.starts == 0 && !r.withdrawn && (r.caller == Pending || r.caller == Aborted))
    && (r.withdrawn ==> r.starts == 0)
    && r.starts <= 1
    && (r.caller == Fresh || r.caller == Waiting || r.caller == Holding ==>
         r.worker == Absent && r.starts == 0 && !r.withdrawn)
    && (r.worker == Queued && (r.caller == Pending || r.caller == Aborted) ==> r.job.request)
    && (r.worker == Queued ==> r.starts == 0)
    && (r.worker == Absent ==> r.starts == 0 && !r.job.request)
  }

  predicate Sound(s: State) {
    && (forall r <- s.sends :: Agreed(r))
    && s.free + Total(QueuedSlots, s.sends) + Total(RunningSlots, s.sends)
         + Total(PassingSlots, s.sends) == MAX_BLOCKING_REQUESTS
  }

  lemma StepAgrees(s: State, a: Action)
    requires Enabled(s, a) && forall r <- s.sends :: Agreed(r)
    ensures forall r <- Step(s, a).sends :: Agreed(r)
  {
    var next := Step(s, a);
    forall k | 0 <= k < |next.sends| ensures Agreed(next.sends[k]) {
      if k < |s.sends| {
        assert Agreed(s.sends[k]);
      }
    }
  }

  /** Every step conserves the slots. */
  lemma StepKeeps(s: State, a: Action)
    requires Sound(s) && Enabled(s, a)
    ensures Sound(Step(s, a))
  {
    hide Total;
    StepAgrees(s, a);
    var next := Step(s, a);
    if a.Arrive? {
      TotalAppended(QueuedSlots, s.sends, NEW);
      TotalAppended(RunningSlots, s.sends, NEW);
      TotalAppended(PassingSlots, s.sends, NEW);
    } else {
      assert Agreed(s.sends[a.i]);
      TotalUpdated(QueuedSlots, s.sends, a.i, next.sends[a.i]);
      TotalUpdated(RunningSlots, s.sends, a.i, next.sends[a.i]);
      TotalUpdated(PassingSlots, s.sends, a.i, next.sends[a.i]);
    }
  }

  lemma {:induction false} RunKeeps(s: State, actions: seq<Action>)
    requires Sound(s) && Possible(s, actions)
    ensures Sound(Run(s, actions))
    decreases |actions|
  {
    hide Sound, Step, Enabled;
    if actions != [] {
      StepKeeps(s, actions[0]);
      RunKeeps(Step(s, actions[0]), actions[1..]);
    }
  }

  // The theorems, over every interleaving.

  /** Free slots, slots of queued jobs, slots of running workers and slots changing hands always
      make up all of them, so no more than that many requests run at once. */
  lemma SlotsConserved(actions: seq<Action>)
    requires Possible(START, actions)
    ensures var s := Run(START, actions);
            && s.free + Total(QueuedSlots, s.sends) + Total(RunningSlots, s.sends)
                 + Total(PassingSlots, s.sends) == 32
            && Total(RunningSlots, s.sends) <= 32
            && forall r <- s.sends :: r.worker.Running? ==> RunningSlots(r) == 1
  {
    RunKeeps(START, actions);
  }

  /** In no run do caller and worker both obtain a request's slot, or both its request: whoever takes
      the job first has both, and the other nothing. */
  lemma OneSideTakes(actions: seq<Action>, i: nat)
    requires Possible(START, actions) && i < |Run(START, actions).sends|
    ensures var r := Run(START, actions).sends[i];
            && (r.callerGot == EMPTY || r.callerGot == Job(true, true))
            && (r.workerGot == EMPTY || r.workerGot == Job(true, true))
            && (r.callerGot == EMPTY || r.workerGot == EMPTY)
            && (r.job != EMPTY ==> r.callerGot == EMPTY && r.workerGot == EMPTY)
  {
    RunKeeps(START, actions);
    assert Agreed(Run(START, actions).sends[i]);
  }

  /** A request starts at most once, and never when its caller withdrew it from the queue. */
  lemma StartsAtMostOnce(actions: seq<Action>, i: nat)
    requires Possible(START, actions) && i < |Run(START, actions).sends|
    ensures var r := Run(START, actions).sends[i];
            r.starts <= 1 && (r.withdrawn ==> r.starts == 0)
  {
    RunKeeps(START, actions);
    assert Agreed(Run(START, actions).sends[i]);
  }

  predicate CallerDone(r: Send) {
    r.caller == Fresh || r.caller == Waiting || r.caller == Gone
  }

  lemma QuietIsFree(s: State)
    requires Sound(s) && forall r <- s.sends :: CallerDone(r) && !r.worker.Running?
    ensures s.free == MAX_BLOCKING_REQUESTS
  {
    assert forall r <- s.sends :: Agreed(r);
    TotalZero(QueuedSlots, s.sends);
    TotalZero(RunningSlots, s.sends);
    TotalZero(PassingSlots, s.sends);
  }

  /** Once no caller holds a request and no worker runs, every slot is free, even if workers of
      withdrawn requests are still stalled in the queue. */
  lemma QuietMeansFree(actions: seq<Action>)
    requires Possible(START, actions)
    requires forall r <- Run(START, actions).sends :: CallerDone(r) && !r.worker.Running?
    ensures Run(START, actions).free == 32
  {
    RunKeeps(START, actions);
    QuietIsFree(Run(START, actions));
  }

  /** How many steps a request still has before it holds nothing. */
  function Work(r: Send): nat {
    (match r.caller
     case Holding => 4
     case Pending => 3
     case Aborted => 2
     case Releasing(_) => 1
     case _ => 0)
    + One(r.worker.Running?)
  }

  /** The next of those steps. */
  function NextStep(r: Send, i: nat): Action
    requires Work(r) > 0
  {
    match r.caller
    case Holding => Submit(i)
    case Pending => Abort(i)
    case Aborted => Withdraw(i)
    case Releasing(_) => Release(i)
    case _ => Exit(i)
  }

  lemma NextStepWorks(s: State, i: nat)
    requires Sound(s) && i < |s.sends| && Work(s.sends[i]) > 0
    ensures Enabled(s, NextStep(s.sends[i], i))
    ensures Total(Work, Step(s, NextStep(s.sends[i], i)).sends) < Total(Work, s.sends)
  {
    hide Total;
    assert Agreed(s.sends[i]);
    var next := Step(s, NextStep(s.sends[i], i));
    TotalUpdated(Work, s.sends, i, next.sends[i]);
  }

  /** No slot is ever lost: from every reachable state, letting the callers give up and the running
      transfers exit brings all of them back, without any worker having to leave the queue. */
  lemma {:induction false} SlotsComeBack(s: State) returns (actions: seq<Action>)
    requires Sound(s)
    ensures Possible(s, actions) && Run(s, actions).free == 32
    ensures forall a <- actions :: !a.Begin? && !a.Discard?
    decreases Total(Work, s.sends)
  {
    hide Sound, Step, Enabled, Total;
    if i: nat :| i < |s.sends| && Work(s.sends[i]) > 0 {
      var a := NextStep(s.sends[i], i);
      NextStepWorks(s, i);
      StepKeeps(s, a);
      var more := SlotsComeBack(Step(s, a));
      actions := [a] + more;
      assert actions[1..] == more;
    } else {
      actions := [];
      forall r | r in s.sends ensures CallerDone(r) && !r.worker.Running? {
        var i :| 0 <= i < |s.sends| && s.sends[i] == r;
        assert Work(s.sends[i]) == 0;
      }
      QuietIsFree(s);
    }
  }

  /** Whoever takes a queued job first has it: after a caller withdrew, its worker never starts. */
  lemma WithdrawnNeverStarts(s: State, i: nat, actions: seq<Action>)
    requires Sound(s) && i < |s.sends| && s.sends[i].withdrawn && Possible(s, actions)
    ensures i < |Run(s, actions).sends|
    ensures Run(s, actions).sends[i].withdrawn && Run(s, actions).sends[i].starts == 0
    decreases |actions|
  {
    RunKeeps(s, actions);
    if actions == [] {
      assert Agreed(s.sends[i]);
    } else {
      StepKeeps(s, actions[0]);
      WithdrawnNeverStarts(Step(s, actions[0]), i, actions[1..]);
    }
  }
}
