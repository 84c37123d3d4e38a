/**
  Background jobs (src/bio.c): one worker with its mutex, condition variable and queue,
  and any number of threads that submit, count and drain, interleaved step by step.
  Job types are split among the workers, so each worker is such a system of its own.
  A signal wakes one waiter of the signaller's choice; any wait can also end by itself.
*/
module Bio {

  datatype JobType = CloseFile | AofFsync | CloseAof | LazyFree

  datatype Job = Job(jobType: JobType, offset: int)

  /** What a client thread is about to do; Locked to Signalled and Draining and Reading hold the mutex. */
  datatype ClientPc =
    | Idle
    | WantSubmit(job: Job) | Locked(job: Job) | Appended(job: Job) | Counted | Signalled
    | WantDrain | Draining | DrainWait
    | WantRead(t: JobType) | Reading(t: JobType)

  /** What the worker is about to do; Top, Taken and Holding to Signalling hold the mutex. */
  datatype WorkerPc =
    | Want | Top | Waiting
    | Taken(job: Job) | Running(job: Job) | Ran(job: Job) | Holding(job: Job) | Removed(job: Job) | Signalling

  /** Who is woken by a signal. */
  datatype Waiter = Nobody | TheWorker | Drainer(drainer: int)

  datatype Owner = Free | ByWorker | ByClient(id: int)

  /**
    queue is bio_jobs, counter is bio_jobs_counter, pending is fsynced_reploff_pending.
    submitted and executed are the history: jobs in the order in which they were added
    to the queue, and in the order in which they were run.
  */
  datatype State = State(queue: seq<Job>, counter: map<JobType, int>, owner: Owner, worker: WorkerPc,
                         clients: map<int, ClientPc>, pending: int, submitted: seq<Job>, executed: seq<Job>)

  datatype Event =
    | Begin(id: int, pc: ClientPc) | Acquire(id: int) | Append(id: int) | Count(id: int) | Signal(id: int, to: Waiter)
    | Release(id: int) | Check(id: int) | Wake(id: int) | Read(id: int)
    | WorkerAcquire | WorkerLook | WorkerRelease | WorkerRun(ok: bool) | WorkerDelete | WorkerDecrement
    | WorkerSignal(to: Waiter) | WorkerWake

  function Pc(s: State, id: int): ClientPc {
    if id in s.clients then s.clients[id] else Idle
  }

  function Counter(s: State, t: JobType): int {
    if t in s.counter then s.counter[t] else 0
  }

  function Set(s: State, id: int, pc: ClientPc): State {
    s.(clients := s.clients[id := pc])
  }

  /** listDelNode of the node the job came from. */
  function Delete(queue: seq<Job>, job: Job): seq<Job> {
    if queue == [] then [] else if queue[0] == job then queue[1..] else [queue[0]] + Delete(queue[1..], job)
  }

  function Add(s: State, t: JobType, n: int): State {
    s.(counter := s.counter[t := Counter(s, t) + n])
  }

  predicate IsRequest(pc: ClientPc) {
    pc.WantSubmit? || pc.WantDrain? || pc.WantRead?
  }

  predicate Syncs(t: JobType) {
    t == AofFsync || t == CloseAof
  }

  /** pthread_cond_signal: somebody who waits, if anybody does. */
  predicate CanWake(s: State, to: Waiter) {
    match to
    case Nobody => !s.worker.Waiting? && forall id :: id in s.clients ==> !s.clients[id].DrainWait?
    case TheWorker => s.worker.Waiting?
    case Drainer(id) => Pc(s, id).DrainWait?
  }

  function Woken(s: State, to: Waiter): State {
    match to
    case Nobody => s
    case TheWorker => s.(worker := Want)
    case Drainer(id) => Set(s, id, WantDrain)
  }

  predicate Enabled(s: State, e: Event) {
    match e
    case Begin(id, pc) => Pc(s, id).Idle? && IsRequest(pc)
    case Acquire(id) => s.owner.Free? && IsRequest(Pc(s, id))
    case Append(id) => Pc(s, id).Locked?
    case Count(id) => Pc(s, id).Appended?
    case Signal(id, to) => Pc(s, id).Counted? && CanWake(s, to)
    case Release(id) => Pc(s, id).Signalled?
    case Check(id) => Pc(s, id).Draining?
    case Wake(id) => Pc(s, id).DrainWait?
    case Read(id) => Pc(s, id).Reading?
    case WorkerAcquire => s.owner.Free? && (s.worker.Want? || s.worker.Ran?)
    case WorkerLook => s.worker.Top?
    case WorkerRelease => s.worker.Taken?
    case WorkerRun(_) => s.worker.Running?
    case WorkerDelete => s.worker.Holding?
    case WorkerDecrement => s.worker.Removed?
    case WorkerSignal(to) => s.worker.Signalling? && CanWake(s, to)
    case WorkerWake => s.worker.Waiting?
  }

  function AfterAcquire(pc: ClientPc): ClientPc
    requires IsRequest(pc)
  {
    match pc
    case WantSubmit(job) => Locked(job)
    case WantDrain => Draining
    case WantRead(t) => Reading(t)
  }

  /** One step of a client thread: bioSubmitJob, bioDrainWorker or bioPendingJobsOfType. */
  function ClientStep(s: State, e: Event): State
    requires Enabled(s, e) && IsClient(e)
  {
    match e
    case Begin(id, pc) => Set(s, id, pc)
    case Acquire(id) => Set(s, id, AfterAcquire(Pc(s, id))).(owner := ByClient(id))
    case Append(id) =>
      var job := Pc(s, id).job;
      Set(s, id, Appended(job)).(queue := s.queue + [job], submitted := s.submitted + [job])
    case Count(id) => Add(Set(s, id, Counted), Pc(s, id).job.jobType, 1)
    case Signal(id, to) => Woken(Set(s, id, Signalled), to)
    case Release(id) => Set(s, id, Idle).(owner := Free)
    case Check(id) => Set(s, id, if s.queue == [] then Idle else DrainWait).(owner := Free)
    case Wake(id) => Set(s, id, WantDrain)
    case Read(id) => Set(s, id, Idle).(owner := Free)
  }

  predicate IsClient(e: Event) {
    e.Begin? || e.Acquire? || e.Append? || e.Count? || e.Signal? || e.Release? || e.Check? || e.Wake? || e.Read?
  }

  /** One step of bioProcessBackgroundJobs. A failed fsync leaves the offset alone. */
  function WorkerStep(s: State, e: Event): State
    requires Enabled(s, e) && !IsClient(e)
  {
    match e
    case WorkerAcquire => s.(worker := if s.worker.Want? then Top else Holding(s.worker.job), owner := ByWorker)
    case WorkerLook => if s.queue == [] then s.(worker := Waiting, owner := Free) else s.(worker := Taken(s.queue[0]))
    case WorkerRelease => s.(worker := Running(s.worker.job), owner := Free)
    case WorkerRun(ok) =>
      var job := s.worker.job;
      s.(worker := Ran(job), executed := s.executed + [job],
         pending := if Syncs(job.jobType) && ok then job.offset else s.pending)
    case WorkerDelete => s.(worker := Removed(s.worker.job), queue := Delete(s.queue, s.worker.job))
    case WorkerDecrement => Add(s.(worker := Signalling), s.worker.job.jobType, -1)
    case WorkerSignal(to) => Woken(s.(worker := Top), to)
    case WorkerWake => s.(worker := Want)
  }

  function Next(s: State, e: Event): State {
    if !Enabled(s, e) then s else if IsClient(e) then ClientStep(s, e) else WorkerStep(s, e)
  }

  function Run(s: State, events: seq<Event>): State
    decreases events
  {
    if events == [] then s else Run(Next(s, events[0]), events[1..])
  }

  /** bioInit: the worker starts by locking its mutex. */
  function Start(pending: int): State {
    State([], map[], Free, Want, map[], pending, [], [])
  }

  // ------------------------------------------------------------------ the invariant

  predicate ClientHolds(pc: ClientPc) {
    pc.Locked? || pc.Appended? || pc.Counted? || pc.Signalled? || pc.Draining? || pc.Reading?
  }

  predicate WorkerHolds(pc: WorkerPc) {
    pc.Top? || pc.Taken? || pc.Holding? || pc.Removed? || pc.Signalling?
  }

  /** The mutex is held by the one thread that is between lock and unlock. */
  ghost predicate Exclusive(s: State) {
    && (WorkerHolds(s.worker) <==> s.owner.ByWorker?)
    && forall id {:trigger Pc(s, id)} :: ClientHolds(Pc(s, id)) <==> s.owner == ByClient(id)
  }

  /** The job has been run but is still in the queue. */
  predicate Stale(pc: WorkerPc) {
    pc.Ran? || pc.Holding?
  }

  /** Jobs run in the order of submission, each once; the queue holds the rest and maybe the last one run. */
  ghost predicate InOrder(s: State) {
    && (Stale(s.worker) ==> s.executed != [] && s.executed[|s.executed| - 1] == s.worker.job)
    && s.submitted == (if Stale(s.worker) then s.executed[..|s.executed| - 1] else s.executed) + s.queue
    && (s.worker.Taken? || s.worker.Running? || Stale(s.worker) ==> s.queue != [] && s.queue[0] == s.worker.job)
  }

  function CountOf(queue: seq<Job>, t: JobType): nat {
    if queue == [] then 0 else CountOf(queue[..|queue| - 1], t) + if queue[|queue| - 1].jobType == t then 1 else 0
  }

  /** What the thread holding the mutex has done to the queue but not yet to the counter. */
  function Owed(s: State, t: JobType): int {
    if s.worker.Removed? && s.worker.job.jobType == t then 1
    else if s.owner.ByClient? && Pc(s, s.owner.id).Appended? && Pc(s, s.owner.id).job.jobType == t then -1
    else 0
  }

  ghost predicate CountersOk(s: State) {
    forall t {:trigger Counter(s, t)} :: Counter(s, t) == CountOf(s.queue, t) + Owed(s, t)
  }

  ghost predicate Invariant(s: State) {
    Exclusive(s) && InOrder(s) && CountersOk(s)
  }

  lemma {:induction false} CountFirst(queue: seq<Job>, t: JobType)
    requires queue != []
    ensures CountOf(queue, t) == CountOf(queue[1..], t) + if queue[0].jobType == t then 1 else 0
  {
    var n := |queue| - 1;
    if n == 0 {
      assert queue[..n] == [] && queue[1..] == [];
    } else {
      CountFirst(queue[..n], t);
      assert queue[..n][1..] == queue[1..][..n - 1];
    }
  }

  lemma CountSnoc(queue: seq<Job>, job: Job, t: JobType)
    ensures CountOf(queue + [job], t) == CountOf(queue, t) + if job.jobType == t then 1 else 0
  {
    assert (queue + [job])[..|queue|] == queue;
  }

  lemma ClientExclusive(s: State, e: Event)
    requires Exclusive(s) && Enabled(s, e) && IsClient(e)
    ensures Exclusive(ClientStep(s, e))
  {
    var n := ClientStep(s, e);
    forall id
      ensures ClientHolds(Pc(n, id)) <==> n.owner == ByClient(id)
    {
      assert ClientHolds(Pc(s, id)) <==> s.owner == ByClient(id);
      assert ClientHolds(Pc(s, e.id)) <==> s.owner == ByClient(e.id);
    }
  }

  lemma ClientInOrder(s: State, e: Event)
    requires InOrder(s) && Enabled(s, e) && IsClient(e)
    ensures InOrder(ClientStep(s, e))
  {
    if e.Append? {
      var before := if Stale(s.worker) then s.executed[..|s.executed| - 1] else s.executed;
      assert before + s.queue + [Pc(s, e.id).job] == before + (s.queue + [Pc(s, e.id).job]);
    }
  }

  lemma ClientCounters(s: State, e: Event)
    requires Exclusive(s) && CountersOk(s) && Enabled(s, e) && IsClient(e)
    ensures CountersOk(ClientStep(s, e))
  {
    var n := ClientStep(s, e);
    assert ClientHolds(Pc(s, e.id)) <==> s.owner == ByClient(e.id);
    forall t
      ensures Counter(n, t) == CountOf(n.queue, t) + Owed(n, t)
    {
      assert Counter(s, t) == CountOf(s.queue, t) + Owed(s, t);
      if e.Append? {
        CountSnoc(s.queue, Pc(s, e.id).job, t);
      }
    }
  }

  lemma WorkerKeeps(s: State, e: Event)
    requires Invariant(s) && Enabled(s, e) && !IsClient(e)
    ensures Invariant(WorkerStep(s, e))
  {
    var n := WorkerStep(s, e);
    forall id
      ensures ClientHolds(Pc(n, id)) <==> n.owner == ByClient(id)
    {
      assert ClientHolds(Pc(s, id)) <==> s.owner == ByClient(id);
    }
    WorkerInOrder(s, e);
    forall t
      ensures Counter(n, t) == CountOf(n.queue, t) + Owed(n, t)
    {
      assert Counter(s, t) == CountOf(s.queue, t) + Owed(s, t);
      if e.WorkerDelete? {
        CountFirst(s.queue, t);
      }
    }
  }

  lemma WorkerInOrder(s: State, e: Event)
    requires InOrder(s) && Enabled(s, e) && !IsClient(e)
    ensures InOrder(WorkerStep(s, e))
  {
    if e.WorkerRun? {
      assert (s.executed + [s.worker.job])[..|s.executed|] == s.executed;
    } else if e.WorkerDelete? {
      MovedOver(s.executed, s.worker.job, s.queue);
    }
  }

  lemma MovedOver(executed: seq<Job>, job: Job, queue: seq<Job>)
    requires executed != [] && executed[|executed| - 1] == job && queue != [] && queue[0] == job
    ensures executed[..|executed| - 1] + queue == executed + queue[1..]
  {
    var n := |executed| - 1;
    assert queue == [job] + queue[1..] && executed == executed[..n] + [job];
  }

  lemma {:induction false} RunKeeps(s: State, events: seq<Event>)
    requires Invariant(s)
    ensures Invariant(Run(s, events))
    decreases events
  {
    hide Invariant, Enabled, ClientStep, WorkerStep;
    if events != [] {
      if Enabled(s, events[0]) {
        NextKeeps(s, events[0]);
      }
      RunKeeps(Next(s, events[0]), events[1..]);
    }
  }

  lemma NextKeeps(s: State, e: Event)
    requires Invariant(s)
    ensures Invariant(Next(s, e))
  {
    hide Exclusive, InOrder, CountersOk, ClientStep, WorkerStep;
    if Enabled(s, e) {
      if IsClient(e) {
        ClientExclusive(s, e);
        ClientInOrder(s, e);
        ClientCounters(s, e);
      } else {
        WorkerKeeps(s, e);
      }
    }
  }

  lemma Reachable(pending: int, events: seq<Event>)
    ensures Invariant(Run(Start(pending), events))
  {
    RunKeeps(Start(pending), events);
  }

  // -------------------------------------------------------------------- main results

  /** Under every interleaving jobs run in the order of submission, each exactly once; the queue holds what is left. */
  lemma RunsOnceInOrder(pending: int, events: seq<Event>)
    ensures var s := Run(Start(pending), events);
            && s.executed <= s.submitted
            && (Stale(s.worker) ==> s.queue != [] && s.queue[0] == s.worker.job)
            && s.submitted[|s.executed|..] == if Stale(s.worker) then s.queue[1..] else s.queue
  {
    hide Run, Exclusive, CountersOk;
    Reachable(pending, events);
    LeftInQueue(Run(Start(pending), events));
  }

  lemma LeftInQueue(s: State)
    requires InOrder(s)
    ensures s.executed <= s.submitted
    ensures s.submitted[|s.executed|..] == if Stale(s.worker) then s.queue[1..] else s.queue
  {
    if Stale(s.worker) {
      var n := |s.executed| - 1;
      assert s.executed == s.executed[..n] + [s.worker.job] && s.queue == [s.worker.job] + s.queue[1..];
      assert s.submitted == s.executed + s.queue[1..];
    }
  }

  /** Whenever the mutex is free, or a thread reads under it, a counter is the number of jobs of its type in the queue. */
  lemma CountersTrue(pending: int, events: seq<Event>, t: JobType)
    ensures var s := Run(Start(pending), events);
            s.owner.Free? || (s.owner.ByClient? && Pc(s, s.owner.id).Reading?) ==> Counter(s, t) == CountOf(s.queue, t)
  {
    Reachable(pending, events);
    var s := Run(Start(pending), events);
    assert Counter(s, t) == CountOf(s.queue, t) + Owed(s, t);
  }

  /** bioDrainWorker returns only when every job submitted so far has been run. */
  lemma DrainReturnsDone(pending: int, events: seq<Event>, id: int)
    ensures var s := Run(Start(pending), events);
            Pc(s, id).Draining? && Pc(Next(s, Check(id)), id).Idle? ==> s.executed == s.submitted && s.queue == []
  {
    Reachable(pending, events);
  }

  // ------------------------------------------------------------------ no lost wake-up

  predicate Drains(pc: ClientPc) {
    pc.WantDrain? || pc.Draining? || pc.DrainWait?
  }

  /** Nobody starts to drain while somebody else does. */
  predicate Alone(s: State, e: Event) {
    e.Begin? && e.pc.WantDrain? ==> forall id :: id in s.clients ==> !Drains(s.clients[id])
  }

  predicate OneDrainer(s: State, events: seq<Event>)
    decreases events
  {
    events == [] || (Alone(s, events[0]) && OneDrainer(Next(s, events[0]), events[1..]))
  }

  /** A job has been added and the signal for it is still to come. */
  predicate Unsignalled(s: State) {
    s.owner.ByClient? && (Pc(s, s.owner.id).Appended? || Pc(s, s.owner.id).Counted?)
  }

  /** A job has been removed and the signal for it is still to come. */
  predicate Finishing(pc: WorkerPc) {
    pc.Removed? || pc.Signalling?
  }

  /** Whoever waits has a reason to, or a signal is coming. */
  ghost predicate Awake(s: State) {
    && (s.worker.Waiting? ==> s.queue == [] || Unsignalled(s))
    && (forall id {:trigger Pc(s, id)} ::
          Pc(s, id).DrainWait? ==> !s.worker.Waiting? && (s.queue != [] || Finishing(s.worker)))
    && (forall a, b {:trigger Pc(s, a), Pc(s, b)} :: Drains(Pc(s, a)) && Drains(Pc(s, b)) ==> a == b)
  }

  lemma AwakeClient(s: State, e: Event)
    requires Exclusive(s) && Awake(s) && Enabled(s, e) && IsClient(e) && !e.Signal? && Alone(s, e)
    ensures Awake(ClientStep(s, e))
  {
    var n := ClientStep(s, e);
    assert ClientHolds(Pc(s, e.id)) <==> s.owner == ByClient(e.id);
    forall id
      ensures Pc(n, id).DrainWait? ==> !n.worker.Waiting? && (n.queue != [] || Finishing(n.worker))
    {
      assert Pc(s, id).DrainWait? ==> !s.worker.Waiting? && (s.queue != [] || Finishing(s.worker));
      assert id != e.id ==> Pc(n, id) == Pc(s, id);
    }
    forall a, b | Drains(Pc(n, a)) && Drains(Pc(n, b))
      ensures a == b
    {
      assert a != e.id ==> Pc(n, a) == Pc(s, a);
      assert b != e.id ==> Pc(n, b) == Pc(s, b);
    }
    if n.worker.Waiting? && s.owner.ByClient? {
      assert s.owner.id != e.id ==> Pc(n, s.owner.id) == Pc(s, s.owner.id);
    }
  }

  /** With one drainer at most, a signal wakes the only thread that waits. */
  lemma AwakeSignal(s: State, e: Event)
    requires Exclusive(s) && Awake(s) && Enabled(s, e) && (e.Signal? || e.WorkerSignal?)
    ensures Awake(Next(s, e))
  {
    var n := Next(s, e);
    forall id
      ensures !Pc(n, id).DrainWait? && (Drains(Pc(n, id)) <==> Drains(Pc(s, id)))
    {
      assert Pc(s, id).DrainWait? ==> !s.worker.Waiting?;
      if e.to.Drainer? {
        assert Drains(Pc(s, id)) && Drains(Pc(s, e.to.drainer)) ==> id == e.to.drainer;
      }
    }
    assert !n.worker.Waiting? by {
      if e.to.Drainer? {
        assert Pc(s, e.to.drainer).DrainWait? ==> !s.worker.Waiting?;
      }
    }
  }

  lemma AwakeWorker(s: State, e: Event)
    requires Exclusive(s) && Awake(s) && Enabled(s, e) && !IsClient(e) && !e.WorkerSignal?
    ensures Awake(WorkerStep(s, e))
  {
    var n := WorkerStep(s, e);
    assert forall id :: Pc(n, id) == Pc(s, id);
  }

  lemma {:induction false} RunAwake(s: State, events: seq<Event>)
    requires Invariant(s) && Awake(s) && OneDrainer(s, events)
    ensures Invariant(Run(s, events)) && Awake(Run(s, events))
    decreases events
  {
    hide Awake, Enabled, ClientStep, WorkerStep, Alone, InOrder, CountersOk;
    if events != [] {
      var e := events[0];
      NextKeeps(s, e);
      if Enabled(s, e) {
        if e.Signal? || e.WorkerSignal? {
          AwakeSignal(s, e);
        } else if IsClient(e) {
          AwakeClient(s, e);
        } else {
          AwakeWorker(s, e);
        }
      }
      RunAwake(Next(s, e), events[1..]);
    }
  }

  /**
    As long as no two threads drain at the same time, the worker is never asleep with
    work in its queue, and a thread that drains never with the queue empty.
  */
  lemma NoLostWakeup(pending: int, events: seq<Event>)
    requires OneDrainer(Start(pending), events)
    ensures var s := Run(Start(pending), events);
            s.owner.Free? ==> (s.worker.Waiting? ==> s.queue == []) && forall id :: Pc(s, id).DrainWait? ==> s.queue != []
  {
    RunAwake(Start(pending), events);
  }

  // Two threads that drain can take the worker's wake-up.

  lemma {:induction false} RunSnoc(s: State, events: seq<Event>, e: Event)
    ensures Run(s, events + [e]) == Next(Run(s, events), e)
    decreases events
  {
    hide Next;
    if events == [] {
      assert events + [e] == [e];
    } else {
      assert (events + [e])[1..] == events[1..] + [e];
      RunSnoc(Next(s, events[0]), events[1..], e);
    }
  }

  lemma Then(events: seq<Event>, s: State, e: Event) returns (more: seq<Event>, n: State)
    requires Run(Start(0), events) == s
    ensures n == Next(s, e) && Run(Start(0), more) == n
  {
    RunSnoc(Start(0), events, e);
    more, n := events + [e], Next(s, e);
  }

  lemma Submits(events: seq<Event>, s: State, id: int, job: Job, to: Waiter) returns (more: seq<Event>, n: State)
    requires Run(Start(0), events) == s && s.owner.Free? && Pc(s, id).Idle? && CanWake(s, to) && !to.TheWorker?
    ensures Run(Start(0), more) == n && n.owner.Free? && n.queue == s.queue + [job] && n.worker == s.worker
    ensures forall x :: Pc(n, x) == if x != id && to == Drainer(x) then WantDrain else Pc(s, x)
  {
    hide Run;
    more, n := Then(events, s, Begin(id, WantSubmit(job)));
    more, n := Then(more, n, Acquire(id));
    more, n := Then(more, n, Append(id));
    more, n := Then(more, n, Count(id));
    more, n := Then(more, n, Signal(id, to));
    more, n := Then(more, n, Release(id));
  }

  /** A thread that is to drain finds work in the queue and waits. */
  lemma DrainsInVain(events: seq<Event>, s: State, id: int) returns (more: seq<Event>, n: State)
    requires Run(Start(0), events) == s && s.owner.Free? && s.queue != [] && (Pc(s, id).Idle? || Pc(s, id).WantDrain?)
    ensures Run(Start(0), more) == n && n.owner.Free? && n.queue == s.queue && n.worker == s.worker
    ensures forall x :: Pc(n, x) == if x == id then DrainWait else Pc(s, x)
  {
    hide Run;
    more, n := events, s;
    if Pc(s, id).Idle? {
      more, n := Then(more, n, Begin(id, WantDrain));
    }
    more, n := Then(more, n, Acquire(id));
    more, n := Then(more, n, Check(id));
  }

  /** The worker runs the only job, wakes one of those who drain, and goes to sleep. */
  lemma Works(events: seq<Event>, s: State, to: int) returns (more: seq<Event>, n: State)
    requires Run(Start(0), events) == s && s.owner.Free? && |s.queue| == 1 && s.worker.Want? && Pc(s, to).DrainWait?
    ensures Run(Start(0), more) == n && n.owner.Free? && n.queue == [] && n.worker.Waiting?
    ensures forall x :: Pc(n, x) == if x == to then WantDrain else Pc(s, x)
  {
    hide Run;
    more, n := Then(events, s, WorkerAcquire);
    more, n := Then(more, n, WorkerLook);
    more, n := Then(more, n, WorkerRelease);
    more, n := Then(more, n, WorkerRun(true));
    more, n := Then(more, n, WorkerAcquire);
    more, n := Then(more, n, WorkerDelete);
    more, n := Then(more, n, WorkerDecrement);
    more, n := Then(more, n, WorkerSignal(Drainer(to)));
    more, n := Then(more, n, WorkerLook);
  }

  /** A run with two threads that drain after which everybody sleeps, with a job in the queue. */
  lemma TwoDrainersSleep(job: Job) returns (events: seq<Event>)
    ensures var s := Run(Start(0), events);
            && s.queue == [job] && s.worker.Waiting? && s.owner.Free?
            && forall id :: Pc(s, id) == if id == 1 || id == 2 then DrainWait else Idle
  {
    hide Run;
    var s := Start(0);
    events := [];
    RunNothing(s);
    events, s := Submits(events, s, 0, job, Nobody);
    events, s := DrainsInVain(events, s, 1);
    events, s := DrainsInVain(events, s, 2);
    events, s := Works(events, s, 1);
    events, s := Submits(events, s, 0, job, Drainer(2));
    events, s := DrainsInVain(events, s, 1);
    events, s := DrainsInVain(events, s, 2);
  }

  lemma RunNothing(s: State)
    ensures Run(s, []) == s
  {}

  // ------------------------------------------------------------- the fsynced offset

  /** Offsets to be synced do not go back, and start no lower than where we are. */
  ghost predicate Ordered(start: int, jobs: seq<Job>) {
    && (forall i :: 0 <= i < |jobs| && Syncs(jobs[i].jobType) ==> start <= jobs[i].offset)
    && (forall i, j :: 0 <= i < j < |jobs| && Syncs(jobs[i].jobType) && Syncs(jobs[j].jobType) ==> jobs[i].offset <= jobs[j].offset)
  }

  /** The offset is the first one, or that of a job that was run. */
  ghost predicate FromJob(s: State, start: int) {
    s.pending == start || exists i :: 0 <= i < |s.executed| && Syncs(s.executed[i].jobType) && s.executed[i].offset == s.pending
  }

  lemma FromJobKeeps(s: State, e: Event, start: int)
    requires FromJob(s, start)
    ensures FromJob(Next(s, e), start)
  {
    var n := Next(s, e);
    if n.executed != s.executed {
      var job := s.worker.job;
      assert n.executed == s.executed + [job] && n.executed[|s.executed|] == job;
      assert forall i :: 0 <= i < |s.executed| ==> n.executed[i] == s.executed[i];
    }
  }

  lemma {:induction false} RunFromJob(s: State, events: seq<Event>, start: int)
    requires FromJob(s, start)
    ensures FromJob(Run(s, events), start)
    decreases events
  {
    hide FromJob, Next;
    if events != [] {
      FromJobKeeps(s, events[0], start);
      RunFromJob(Next(s, events[0]), events[1..], start);
    }
  }

  /** Event n is a successful fsync of the AOF. */
  ghost predicate SyncedAt(pending: int, events: seq<Event>, n: nat) {
    && n < |events| && events[n] == WorkerRun(true)
    && var s := Run(Start(pending), events[..n]);
       s.worker.Running? && (s.worker.job.jobType == AofFsync || s.worker.job.jobType == CloseAof)
  }

  lemma SyncedBefore(pending: int, events: seq<Event>, n: nat)
    requires n + 1 < |events|
    ensures SyncedAt(pending, events[..|events| - 1], n) <==> SyncedAt(pending, events, n)
    ensures events[..|events| - 1][..n] == events[..n]
  {
    hide Run;
    assert events[..|events| - 1][..n] == events[..n];
  }

  /** fsynced_reploff_pending is the offset of the last job whose fsync succeeded. */
  lemma {:induction false} OffsetOfLastSync(pending: int, events: seq<Event>, n: nat)
    requires SyncedAt(pending, events, n) && forall m :: n < m < |events| ==> !SyncedAt(pending, events, m)
    ensures Run(Start(pending), events).pending == Run(Start(pending), events[..n]).worker.job.offset
    decreases |events|
  {
    hide Run, Next;
    var k := |events| - 1;
    var before := events[..k];
    assert events == before + [events[k]];
    RunSnoc(Start(pending), before, events[k]);
    LastEvent(Run(Start(pending), before), events[k]);
    if n < k {
      SyncedBefore(pending, events, n);
      forall m | n < m < k
        ensures !SyncedAt(pending, before, m)
      {
        SyncedBefore(pending, events, m);
      }
      OffsetOfLastSync(pending, before, n);
      assert !SyncedAt(pending, events, k);
    }
  }

  /** Without one it is what it was. */
  lemma {:induction false} OffsetWithoutSync(pending: int, events: seq<Event>)
    requires forall m :: 0 <= m < |events| ==> !SyncedAt(pending, events, m)
    ensures Run(Start(pending), events).pending == pending
    decreases |events|
  {
    if events != [] {
      hide Run, Next;
      var k := |events| - 1;
      var before := events[..k];
      assert events == before + [events[k]];
      RunSnoc(Start(pending), before, events[k]);
      LastEvent(Run(Start(pending), before), events[k]);
      forall m | 0 <= m < k
        ensures !SyncedAt(pending, before, m)
      {
        SyncedBefore(pending, events, m);
      }
      OffsetWithoutSync(pending, before);
      assert !SyncedAt(pending, events, k);
    }
  }

  /** Nothing but a successful fsync writes the offset. */
  lemma LastEvent(s: State, e: Event)
    ensures Next(s, e).pending ==
            if e == WorkerRun(true) && s.worker.Running? && (s.worker.job.jobType == AofFsync || s.worker.job.jobType == CloseAof)
            then s.worker.job.offset else s.pending
  {}

  /** fsynced_reploff_pending never decreases if the submitted offsets do not. */
  lemma OffsetNeverDecreases(pending: int, events: seq<Event>, e: Event)
    requires Ordered(pending, Run(Start(pending), events).submitted)
    ensures Run(Start(pending), events).pending <= Next(Run(Start(pending), events), e).pending
  {
    var s := Run(Start(pending), events);
    Reachable(pending, events);
    RunFromJob(Start(pending), events, pending);
    if e.WorkerRun? && s.worker.Running? {
      var k := |s.executed|;
      assert s.submitted[k] == s.worker.job;
      assert forall i :: 0 <= i < k ==> s.submitted[i] == s.executed[i];
    }
  }
}
