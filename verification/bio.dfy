/** The background workers (bio.c) as interleaved steps of workers, submitters, drainers
    and the main thread. */
module Bio {
  import opened Base

  datatype JobType = CLOSE_FILE | AOF_FSYNC | CLOSE_AOF | LAZY_FREE | COMP_CLOSE_FILE | COMP_AOF_FSYNC | COMP_LAZY_FREE

  const WORKERS := 3

  /** `bio_job_to_worker`. */
  function WorkerOf(t: JobType): (w: nat)
    ensures w < WORKERS
  {
    match t
    case CLOSE_FILE => 0 case AOF_FSYNC => 1 case CLOSE_AOF => 1 case LAZY_FREE => 2
    case COMP_CLOSE_FILE => 0 case COMP_AOF_FSYNC => 1 case COMP_LAZY_FREE => 2
  }

  /** Jobs whose processing only hands a completion to the main thread. */
  predicate IsCompletion(t: JobType) { t.COMP_CLOSE_FILE? || t.COMP_AOF_FSYNC? || t.COMP_LAZY_FREE? }

  /** A job with its own arguments and, once it is on a list, the identity of its node. */
  datatype Job = Job(jtype: JobType, arg: nat, node: nat)

  datatype Tid = Worker(w: nat) | Thread(t: nat)

  /** Where a worker is in `bioProcessBackgroundJobs`; in `Waiting`, where it also begins,
      and in `Ran` it needs the lock to go on. */
  datatype WorkerPc = Waiting | Looping | Running(job: Job) | Ran(job: Job) | Deleting(job: Job)

  /** Where another thread is in `bioSubmitJob` or `bioDrainWorker`; `mark` is the number
      of jobs the worker had been given when the drain was called. */
  datatype ThreadPc =
    | Away
    | Submitting(job: Job)
    | Adding(job: Job)
    | Added(w: nat)
    | Draining(w: nat, mark: nat)
    | Checking(w: nat, mark: nat)
    | Drained(w: nat, mark: nat)

  /** A queue with its lock and its worker, and what was submitted to it, what its worker
      processed and what it took off the list, each in order. */
  datatype Queue = Queue(
    jobs: seq<Job>, holder: Option<Tid>, pc: WorkerPc,
    submitted: seq<Job>, processed: seq<Job>, finished: seq<Job>)

  /** All of it; `comp` is the completion list, `delivered` what the main thread took. */
  datatype System = System(
    queues: seq<Queue>, counter: map<JobType, nat>, threads: map<nat, ThreadPc>,
    comp: seq<(nat, Job)>, delivered: seq<(nat, Job)>, nextNode: nat)

  datatype Action =
    | Lock(w: nat)
    | Sleep(w: nat)
    | Take(w: nat)
    | Process(w: nat)
    | Relock(w: nat)
    | Delete(w: nat)
    | Submit(t: nat, job: Job)
    | LockToAdd(t: nat)
    | Add(t: nat)
    | UnlockAdded(t: nat)
    | Drain(t: nat, jtype: JobType)
    | LockToCheck(t: nat)
    | Check(t: nat)
    | Return(t: nat)
    | ReadCompletions

  function Pc(s: System, t: nat): ThreadPc { if t in s.threads then s.threads[t] else Away }

  /** `listDelNode` of a node found earlier. */
  function DelNode(jobs: seq<Job>, node: nat): seq<Job> {
    if jobs == [] then [] else if jobs[0].node == node then jobs[1..] else [jobs[0]] + DelNode(jobs[1..], node)
  }

  predicate Shaped(s: System) {
    && |s.queues| == WORKERS && (forall t: JobType :: t in s.counter)
    && (forall t | t in s.threads ::
          match s.threads[t]
          case Added(w) => w < WORKERS
          case Draining(w, _) => w < WORKERS
          case Checking(w, _) => w < WORKERS
          case Drained(w, _) => w < WORKERS
          case _ => true)
  }

  predicate Enabled(s: System, a: Action)
    requires Shaped(s)
  {
    match a
    case Lock(w) => w < WORKERS && s.queues[w].pc.Waiting? && s.queues[w].holder.None?
    case Sleep(w) => w < WORKERS && s.queues[w].pc.Looping? && s.queues[w].jobs == []
    case Take(w) => w < WORKERS && s.queues[w].pc.Looping? && s.queues[w].jobs != []
    case Process(w) => w < WORKERS && s.queues[w].pc.Running?
    case Relock(w) => w < WORKERS && s.queues[w].pc.Ran? && s.queues[w].holder.None?
    case Delete(w) => w < WORKERS && s.queues[w].pc.Deleting?
    case Submit(t, _) => Pc(s, t).Away?
    case LockToAdd(t) => Pc(s, t).Submitting? && s.queues[WorkerOf(Pc(s, t).job.jtype)].holder.None?
    case Add(t) => Pc(s, t).Adding?
    case UnlockAdded(t) => Pc(s, t).Added?
    case Drain(t, _) => Pc(s, t).Away?
    case LockToCheck(t) => Pc(s, t).Draining? && s.queues[Pc(s, t).w].holder.None?
    case Check(t) => Pc(s, t).Checking?
    case Return(t) => Pc(s, t).Drained?
    case ReadCompletions => true
  }

  function SetQueue(s: System, w: nat, q: Queue): System
    requires w < |s.queues|
  {
    s.(queues := s.queues[w := q])
  }

  function SetPc(s: System, t: nat, pc: ThreadPc): System { s.(threads := s.threads[t := pc]) }

  /** A worker takes or gives back the lock. */
  function WorkerAt(s: System, w: nat, holder: Option<Tid>, pc: WorkerPc): System
    requires w < |s.queues|
  {
    SetQueue(s, w, s.queues[w].(holder := holder, pc := pc))
  }

  /** A thread takes or gives back a lock. */
  function ThreadAt(s: System, w: nat, holder: Option<Tid>, t: nat, pc: ThreadPc): System
    requires w < |s.queues|
  {
    SetPc(SetQueue(s, w, s.queues[w].(holder := holder)), t, pc)
  }

  function Processed(s: System, w: nat): System
    requires w < |s.queues| && s.queues[w].pc.Running?
  {
    var q := s.queues[w];
    SetQueue(s, w, q.(pc := Ran(q.pc.job), processed := q.processed + [q.pc.job]))
      .(comp := s.comp + if IsCompletion(q.pc.job.jtype) then [(w, q.pc.job)] else [])
  }

  function Deleted(s: System, w: nat): System
    requires w < |s.queues| && s.queues[w].pc.Deleting? && s.queues[w].pc.job.jtype in s.counter
  {
    var q := s.queues[w];
    var job := q.pc.job;
    SetQueue(s, w, q.(jobs := DelNode(q.jobs, job.node), pc := Looping, finished := q.finished + [job]))
      .(counter := s.counter[job.jtype := if s.counter[job.jtype] > 0 then s.counter[job.jtype] - 1 else 0])
  }

  function JobAdded(s: System, t: nat): System
    requires Pc(s, t).Adding? && |s.queues| == WORKERS && Pc(s, t).job.jtype in s.counter
  {
    var job := Pc(s, t).job.(node := s.nextNode);
    var w := WorkerOf(job.jtype);
    var q := s.queues[w];
    SetPc(SetQueue(s, w, q.(jobs := q.jobs + [job], submitted := q.submitted + [job])), t, Added(w))
      .(counter := s.counter[job.jtype := s.counter[job.jtype] + 1], nextNode := s.nextNode + 1)
  }

  function Step(s: System, a: Action): System
    requires Shaped(s) && Enabled(s, a)
  {
    match a
    case Lock(w) => WorkerAt(s, w, Some(Worker(w)), Looping)
    case Sleep(w) => WorkerAt(s, w, None, Waiting)
    case Take(w) => WorkerAt(s, w, None, Running(s.queues[w].jobs[0]))
    case Process(w) => Processed(s, w)
    case Relock(w) => WorkerAt(s, w, Some(Worker(w)), Deleting(s.queues[w].pc.job))
    case Delete(w) => Deleted(s, w)
    case Submit(t, job) => SetPc(s, t, Submitting(job))
    case LockToAdd(t) =>
      ThreadAt(s, WorkerOf(Pc(s, t).job.jtype), Some(Thread(t)), t, Adding(Pc(s, t).job))
    case Add(t) => JobAdded(s, t)
    case UnlockAdded(t) => ThreadAt(s, Pc(s, t).w, None, t, Away)
    case Drain(t, jtype) => SetPc(s, t, Draining(WorkerOf(jtype), |s.queues[WorkerOf(jtype)].submitted|))
    case LockToCheck(t) => ThreadAt(s, Pc(s, t).w, Some(Thread(t)), t, Checking(Pc(s, t).w, Pc(s, t).mark))
    case Check(t) =>
      var pc := Pc(s, t);
      ThreadAt(s, pc.w, None, t, if s.queues[pc.w].jobs != [] then Draining(pc.w, pc.mark) else Drained(pc.w, pc.mark))
    case Return(t) => SetPc(s, t, Away)
    case ReadCompletions => s.(delivered := s.delivered + s.comp, comp := [])
  }

  const START := Queue([], None, Waiting, [], [], [])

  const INIT := System([START, START, START],
    map[CLOSE_FILE := 0, AOF_FSYNC := 0, CLOSE_AOF := 0, LAZY_FREE := 0, COMP_CLOSE_FILE := 0, COMP_AOF_FSYNC := 0, COMP_LAZY_FREE := 0],
    map[], [], [], 0)

  // ---------------------------------------------------------------------
  // The invariant

  function InFlight(q: Queue): seq<Job> { if q.pc.Running? || q.pc.Ran? || q.pc.Deleting? then [q.pc.job] else [] }

  function Unfinished(q: Queue): seq<Job> { if q.pc.Ran? || q.pc.Deleting? then [q.pc.job] else [] }

  /** The job a worker took is still the head of its list; it has processed what it took
      off the list, and that job if it is past processing it. */
  predicate QueueOk(q: Queue, w: nat) {
    && q.submitted == q.finished + q.jobs && InFlight(q) <= q.jobs && q.processed == q.finished + Unfinished(q)
    && (forall i | 0 <= i < |q.submitted| :: WorkerOf(q.submitted[i].jtype) == w)
    && (q.holder == Some(Worker(w)) <==> q.pc.Looping? || q.pc.Deleting?)
    && (q.holder.Some? && q.holder.value.Worker? ==> q.holder.value.w == w)
  }

  predicate QueuesOk(s: System) { |s.queues| == WORKERS && forall w | 0 <= w < WORKERS :: QueueOk(s.queues[w], w) }

  /** The lock a thread holds where it is. */
  predicate Holds(pc: ThreadPc, w: nat) {
    (pc.Adding? && WorkerOf(pc.job.jtype) == w) || (pc.Added? && pc.w == w) || (pc.Checking? && pc.w == w)
  }

  ghost predicate LocksOk(s: System) {
    |s.queues| == WORKERS && forall t, w | 0 <= w < WORKERS :: s.queues[w].holder == Some(Thread(t)) <==> Holds(Pc(s, t), w)
  }

  function CountType(jobs: seq<Job>, t: JobType): nat {
    if jobs == [] then 0 else (if jobs[0].jtype == t then 1 else 0) + CountType(jobs[1..], t)
  }

  predicate CountersOk(s: System) {
    |s.queues| == WORKERS && forall t: JobType :: t in s.counter && s.counter[t] == CountType(s.queues[WorkerOf(t)].jobs, t)
  }

  /** A drain that is over has seen the end of every job submitted before it began. */
  predicate DrainOk(s: System, pc: ThreadPc)
    requires |s.queues| == WORKERS
  {
    match pc
    case Added(w) => w < WORKERS
    case Draining(w, mark) => w < WORKERS && mark <= |s.queues[w].submitted|
    case Checking(w, mark) => w < WORKERS && mark <= |s.queues[w].submitted|
    case Drained(w, mark) => w < WORKERS && mark <= |s.queues[w].finished|
    case _ => true
  }

  predicate DrainsOk(s: System) { |s.queues| == WORKERS && forall t | t in s.threads :: DrainOk(s, s.threads[t]) }

  function OfWorker(items: seq<(nat, Job)>, w: nat): seq<Job> {
    if items == [] then []
    else OfWorker(items[..|items| - 1], w) + if items[|items| - 1].0 == w then [items[|items| - 1].1] else []
  }

  function Completions(jobs: seq<Job>): seq<Job> {
    if jobs == [] then []
    else Completions(jobs[..|jobs| - 1]) + if IsCompletion(jobs[|jobs| - 1].jtype) then [jobs[|jobs| - 1]] else []
  }

  /** The main thread gets each worker's completions once, in the order of its jobs. */
  ghost predicate CompOk(s: System) {
    |s.queues| == WORKERS && forall w | 0 <= w < WORKERS :: OfWorker(s.delivered + s.comp, w) == Completions(s.queues[w].processed)
  }

  /** Node identities are never reused. */
  predicate IdsOk(q: Queue, n: nat) {
    && (forall i | 0 <= i < |q.submitted| :: q.submitted[i].node < n)
    && (forall i, j | 0 <= i < j < |q.submitted| :: q.submitted[i].node != q.submitted[j].node)
  }

  predicate AllIdsOk(s: System) { forall w | 0 <= w < |s.queues| :: IdsOk(s.queues[w], s.nextNode) }

  ghost predicate Inv(s: System) {
    QueuesOk(s) && LocksOk(s) && CountersOk(s) && DrainsOk(s) && CompOk(s) && AllIdsOk(s)
  }

  lemma InvShaped(s: System)
    requires QueuesOk(s) && CountersOk(s) && DrainsOk(s)
    ensures Shaped(s)
  {
    forall t | t in s.threads
      ensures DrainOk(s, s.threads[t])
    {
    }
  }

  // ---------------------------------------------------------------------
  // Every step keeps it

  lemma QueueUpdated(s: System, w: nat, q: Queue)
    requires QueuesOk(s) && w < WORKERS && QueueOk(q, w)
    ensures QueuesOk(SetQueue(s, w, q))
  {
  }

  predicate NoThread(h: Option<Tid>) { h.Some? ==> h.value.Worker? }

  /** Only program counters and locks differ. */
  predicate SameData(s: System, r: System) {
    && |s.queues| == |r.queues| == WORKERS
    && (forall v | 0 <= v < WORKERS ::
          && r.queues[v].jobs == s.queues[v].jobs && r.queues[v].submitted == s.queues[v].submitted
          && r.queues[v].processed == s.queues[v].processed && r.queues[v].finished == s.queues[v].finished)
    && r.counter == s.counter && r.comp == s.comp && r.delivered == s.delivered && r.nextNode == s.nextNode
  }

  lemma DataFrame(s: System, r: System)
    requires SameData(s, r) && CountersOk(s) && CompOk(s) && AllIdsOk(s)
    ensures CountersOk(r) && CompOk(r) && AllIdsOk(r)
  {
    hide CountType, OfWorker, Completions;
    forall v | 0 <= v < WORKERS
      ensures IdsOk(r.queues[v], r.nextNode)
    {
      assert IdsOk(s.queues[v], s.nextNode);
    }
  }

  lemma DrainsFrame(s: System, r: System, t: nat, pc: ThreadPc)
    requires SameData(s, r) && DrainsOk(s) && DrainOk(s, pc)
    requires r.threads == s.threads || r.threads == s.threads[t := pc]
    ensures DrainsOk(r)
  {
    forall u | u in r.threads
      ensures DrainOk(r, r.threads[u])
    {
      if u in s.threads { assert DrainOk(s, s.threads[u]); }
    }
  }

  lemma WorkerLocks(s: System, w: nat, holder: Option<Tid>, pc: WorkerPc)
    requires LocksOk(s) && w < WORKERS && NoThread(s.queues[w].holder) && NoThread(holder)
    ensures LocksOk(WorkerAt(s, w, holder, pc))
  {
    var r := WorkerAt(s, w, holder, pc);
    forall t, v | 0 <= v < WORKERS
      ensures r.queues[v].holder == Some(Thread(t)) <==> Holds(Pc(r, t), v)
    {
      assert s.queues[v].holder == Some(Thread(t)) <==> Holds(Pc(s, t), v);
    }
  }

  lemma ThreadLocks(s: System, w: nat, holder: Option<Tid>, t: nat, pc: ThreadPc)
    requires LocksOk(s) && w < WORKERS
    requires s.queues[w].holder == (if Holds(Pc(s, t), w) then Some(Thread(t)) else None)
    requires holder == (if Holds(pc, w) then Some(Thread(t)) else None)
    requires forall v | 0 <= v < WORKERS && v != w :: !Holds(pc, v) && !Holds(Pc(s, t), v)
    ensures LocksOk(ThreadAt(s, w, holder, t, pc))
  {
    var r := ThreadAt(s, w, holder, t, pc);
    forall u, v | 0 <= v < WORKERS
      ensures r.queues[v].holder == Some(Thread(u)) <==> Holds(Pc(r, u), v)
    {
      assert s.queues[v].holder == Some(Thread(u)) <==> Holds(Pc(s, u), v);
      assert u != t ==> Pc(r, u) == Pc(s, u);
    }
  }

  /** Steps of a worker that change only where it is. */
  lemma WorkerMoves(s: System, w: nat, holder: Option<Tid>, pc: WorkerPc)
    requires Inv(s) && w < WORKERS && NoThread(s.queues[w].holder) && NoThread(holder)
    requires QueueOk(s.queues[w].(holder := holder, pc := pc), w)
    ensures Inv(WorkerAt(s, w, holder, pc))
  {
    hide QueueOk, LocksOk, CountersOk, CompOk, DrainsOk, AllIdsOk, DrainOk;
    var r := WorkerAt(s, w, holder, pc);
    QueueUpdated(s, w, s.queues[w].(holder := holder, pc := pc));
    WorkerLocks(s, w, holder, pc);
    DataFrame(s, r);
    assert DrainOk(s, Away) by { AwayOk(s); }
    DrainsFrame(s, r, 0, Away);
  }

  lemma AwayOk(s: System)
    requires |s.queues| == WORKERS
    ensures DrainOk(s, Away)
  {
  }

  /** Steps of a thread that only take or give back a lock. */
  lemma ThreadMoves(s: System, w: nat, holder: Option<Tid>, t: nat, pc: ThreadPc)
    requires Inv(s) && w < WORKERS && DrainOk(s, pc)
    requires s.queues[w].holder == (if Holds(Pc(s, t), w) then Some(Thread(t)) else None)
    requires holder == (if Holds(pc, w) then Some(Thread(t)) else None)
    requires forall v | 0 <= v < WORKERS && v != w :: !Holds(pc, v) && !Holds(Pc(s, t), v)
    ensures Inv(ThreadAt(s, w, holder, t, pc))
  {
    hide LocksOk, CountersOk, CompOk, DrainsOk, AllIdsOk, DrainOk, Holds;
    var r := ThreadAt(s, w, holder, t, pc);
    assert QueueOk(s.queues[w], w);
    QueueUpdated(s, w, s.queues[w].(holder := holder));
    ThreadLocks(s, w, holder, t, pc);
    DataFrame(s, r);
    DrainsFrame(s, r, t, pc);
  }

  /** Steps of a thread that touch nothing shared. */
  lemma ThreadThinks(s: System, t: nat, pc: ThreadPc)
    requires Inv(s) && DrainOk(s, pc) && forall v | 0 <= v < WORKERS :: !Holds(pc, v) && !Holds(Pc(s, t), v)
    ensures Inv(SetPc(s, t, pc))
  {
    var r := SetPc(s, t, pc);
    forall u, v | 0 <= v < WORKERS
      ensures r.queues[v].holder == Some(Thread(u)) <==> Holds(Pc(r, u), v)
    {
      assert s.queues[v].holder == Some(Thread(u)) <==> Holds(Pc(s, u), v);
    }
    hide QueueOk, CountersOk, CompOk, AllIdsOk, DrainOk, DrainsOk;
    DataFrame(s, r);
    DrainsFrame(s, r, t, pc);
  }

  lemma OfWorkerLast(items: seq<(nat, Job)>, x: (nat, Job), w: nat)
    ensures OfWorker(items + [x], w) == OfWorker(items, w) + if x.0 == w then [x.1] else []
  {
    assert (items + [x])[..|items|] == items;
  }

  lemma CompletionsLast(jobs: seq<Job>, x: Job)
    ensures Completions(jobs + [x]) == Completions(jobs) + if IsCompletion(x.jtype) then [x] else []
  {
    assert (jobs + [x])[..|jobs|] == jobs;
  }

  lemma ProcessedComp(s: System, w: nat)
    requires CompOk(s) && w < WORKERS && s.queues[w].pc.Running?
    ensures CompOk(Processed(s, w))
  {
    var r, q := Processed(s, w), s.queues[w];
    var x := (w, q.pc.job);
    CompletionsLast(q.processed, q.pc.job);
    forall v | 0 <= v < WORKERS
      ensures OfWorker(r.delivered + r.comp, v) == Completions(r.queues[v].processed)
    {
      assert OfWorker(s.delivered + s.comp, v) == Completions(s.queues[v].processed);
      OfWorkerLast(s.delivered + s.comp, x, v);
      if IsCompletion(q.pc.job.jtype) {
        assert r.delivered + r.comp == s.delivered + s.comp + [x];
      } else {
        assert r.delivered + r.comp == s.delivered + s.comp;
      }
    }
  }

  lemma ProcessKeeps(s: System, w: nat)
    requires Inv(s) && w < WORKERS && s.queues[w].pc.Running?
    ensures Inv(Processed(s, w))
  {
    var r, q := Processed(s, w), s.queues[w];
    assert QueueOk(q, w);
    ProcessedComp(s, w);
    var q' := q.(pc := Ran(q.pc.job), processed := q.processed + [q.pc.job]);
    assert QueueOk(q', w);
    QueueUpdated(s, w, q');
    hide QueueOk, CompOk, CountType, DrainOk;
    assert LocksOk(r) by { WorkerLocksSame(s, r); }
    forall v | 0 <= v < WORKERS
      ensures IdsOk(r.queues[v], r.nextNode)
    {
      assert IdsOk(s.queues[v], s.nextNode);
    }
    DrainsGrow(s, r);
  }

  lemma WorkerLocksSame(s: System, r: System)
    requires LocksOk(s) && |r.queues| == WORKERS && r.threads == s.threads
    requires forall v | 0 <= v < WORKERS :: r.queues[v].holder == s.queues[v].holder
    ensures LocksOk(r)
  {
    forall u, v | 0 <= v < WORKERS
      ensures r.queues[v].holder == Some(Thread(u)) <==> Holds(Pc(r, u), v)
    {
      assert s.queues[v].holder == Some(Thread(u)) <==> Holds(Pc(s, u), v);
    }
  }

  /** What was submitted and finished only grows. */
  lemma DrainsGrow(s: System, r: System)
    requires DrainsOk(s) && |r.queues| == WORKERS && r.threads == s.threads
    requires forall v | 0 <= v < WORKERS ::
      |r.queues[v].submitted| >= |s.queues[v].submitted| && |r.queues[v].finished| >= |s.queues[v].finished|
    ensures DrainsOk(r)
  {
    forall u | u in r.threads
      ensures DrainOk(r, r.threads[u])
    {
      assert DrainOk(s, s.threads[u]);
    }
  }

  lemma CompFrame(s: System, r: System)
    requires CompOk(s) && |r.queues| == WORKERS && r.delivered == s.delivered && r.comp == s.comp
    requires forall v | 0 <= v < WORKERS :: r.queues[v].processed == s.queues[v].processed
    ensures CompOk(r)
  {
    hide OfWorker, Completions;
  }

  lemma IdsFrame(s: System, r: System)
    requires AllIdsOk(s) && |s.queues| == |r.queues| == WORKERS && r.nextNode == s.nextNode
    requires forall v | 0 <= v < WORKERS :: r.queues[v].submitted == s.queues[v].submitted
    ensures AllIdsOk(r)
  {
    forall v | 0 <= v < WORKERS
      ensures IdsOk(r.queues[v], r.nextNode)
    {
      assert IdsOk(s.queues[v], s.nextNode);
    }
  }

  lemma DeletedQueue(q: Queue, w: nat)
    requires QueueOk(q, w) && q.pc.Deleting?
    ensures q.jobs != [] && DelNode(q.jobs, q.pc.job.node) == q.jobs[1..]
    ensures QueueOk(q.(jobs := q.jobs[1..], pc := Looping, finished := q.finished + [q.pc.job]), w)
  {
    assert q.jobs[0] == q.pc.job;
    assert q.finished + q.jobs == q.finished + [q.jobs[0]] + q.jobs[1..];
  }

  lemma DeletedCounters(s: System, w: nat)
    requires CountersOk(s) && QueuesOk(s) && w < WORKERS && s.queues[w].pc.Deleting?
    ensures s.queues[w].pc.job.jtype in s.counter && CountersOk(Deleted(s, w))
  {
    var r, q := Deleted(s, w), s.queues[w];
    assert QueueOk(q, w);
    assert q.jobs[0] == q.pc.job;
    assert q.jobs[0] == q.submitted[|q.finished|];
    assert WorkerOf(q.pc.job.jtype) == w;
    forall t: JobType
      ensures t in r.counter && r.counter[t] == CountType(r.queues[WorkerOf(t)].jobs, t)
    {
      assert s.counter[t] == CountType(s.queues[WorkerOf(t)].jobs, t);
      assert CountType(q.jobs, t) == (if q.jobs[0].jtype == t then 1 else 0) + CountType(q.jobs[1..], t);
    }
  }

  lemma DeleteKeeps(s: System, w: nat)
    requires Inv(s) && w < WORKERS && s.queues[w].pc.Deleting?
    ensures s.queues[w].pc.job.jtype in s.counter && Inv(Deleted(s, w))
  {
    hide QueueOk, LocksOk, CountersOk, CompOk, DrainsOk, AllIdsOk, DelNode;
    DeletedCounters(s, w);
    var r, q := Deleted(s, w), s.queues[w];
    DeletedQueue(q, w);
    var q' := q.(jobs := q.jobs[1..], pc := Looping, finished := q.finished + [q.pc.job]);
    QueueUpdated(s, w, q');
    assert r.queues == s.queues[w := q'];
    WorkerLocksSame(s, r);
    CompFrame(s, r);
    IdsFrame(s, r);
    DrainsGrow(s, r);
  }

  lemma {:induction false} CountLast(jobs: seq<Job>, x: Job, t: JobType)
    ensures CountType(jobs + [x], t) == CountType(jobs, t) + if x.jtype == t then 1 else 0
  {
    if jobs == [] {
      assert jobs + [x] == [x] && [x][1..] == [];
    } else {
      assert (jobs + [x])[1..] == jobs[1..] + [x];
      CountLast(jobs[1..], x, t);
    }
  }

  lemma AddedCounters(s: System, t: nat)
    requires CountersOk(s) && Pc(s, t).Adding?
    ensures Pc(s, t).job.jtype in s.counter && CountersOk(JobAdded(s, t))
  {
    var r, job := JobAdded(s, t), Pc(s, t).job.(node := s.nextNode);
    var q := s.queues[WorkerOf(job.jtype)];
    forall ty: JobType
      ensures ty in r.counter && r.counter[ty] == CountType(r.queues[WorkerOf(ty)].jobs, ty)
    {
      assert s.counter[ty] == CountType(s.queues[WorkerOf(ty)].jobs, ty);
      CountLast(q.jobs, job, ty);
    }
  }

  lemma AddedIds(q: Queue, n: nat, job: Job)
    requires IdsOk(q, n) && job.node == n
    ensures IdsOk(q.(submitted := q.submitted + [job], jobs := q.jobs + [job]), n + 1)
  {
  }

  lemma AddedAllIds(s: System, r: System, w: nat, job: Job)
    requires AllIdsOk(s) && |s.queues| == WORKERS && w < WORKERS && job.node == s.nextNode && r.nextNode == s.nextNode + 1
    requires r.queues == s.queues[w := s.queues[w].(submitted := s.queues[w].submitted + [job], jobs := s.queues[w].jobs + [job])]
    ensures AllIdsOk(r)
  {
    forall v | 0 <= v < WORKERS
      ensures IdsOk(r.queues[v], r.nextNode)
    {
      assert IdsOk(s.queues[v], s.nextNode);
      if v == w { AddedIds(s.queues[w], s.nextNode, job); }
    }
  }

  lemma AddedQueue(q: Queue, w: nat, job: Job)
    requires QueueOk(q, w) && WorkerOf(job.jtype) == w
    ensures QueueOk(q.(jobs := q.jobs + [job], submitted := q.submitted + [job]), w)
  {
  }

  lemma AddKeeps(s: System, t: nat)
    requires Inv(s) && Pc(s, t).Adding?
    ensures Pc(s, t).job.jtype in s.counter && Inv(JobAdded(s, t))
  {
    hide QueueOk, LocksOk, CountersOk, CompOk, DrainsOk, AllIdsOk;
    AddedCounters(s, t);
    var r, job := JobAdded(s, t), Pc(s, t).job.(node := s.nextNode);
    var w := WorkerOf(job.jtype);
    var q := s.queues[w];
    var q' := q.(jobs := q.jobs + [job], submitted := q.submitted + [job]);
    AddedQueue(q, w, job);
    QueueUpdated(s, w, q');
    assert r.queues == s.queues[w := q'];
    AddedLocks(s, r, t, w);
    AddedAllIds(s, r, w, job);
    CompFrame(s, r);
    AddedDrains(s, r, t, w);
  }

  lemma AddedLocks(s: System, r: System, t: nat, w: nat)
    requires LocksOk(s) && |r.queues| == WORKERS && w < WORKERS && r.threads == s.threads[t := Added(w)]
    requires forall v | 0 <= v < WORKERS :: r.queues[v].holder == s.queues[v].holder
    requires Pc(s, t).Adding? && WorkerOf(Pc(s, t).job.jtype) == w
    ensures LocksOk(r)
  {
    forall u, v | 0 <= v < WORKERS
      ensures r.queues[v].holder == Some(Thread(u)) <==> Holds(Pc(r, u), v)
    {
      assert s.queues[v].holder == Some(Thread(u)) <==> Holds(Pc(s, u), v);
    }
  }

  lemma AddedDrains(s: System, r: System, t: nat, w: nat)
    requires DrainsOk(s) && |r.queues| == WORKERS && w < WORKERS && r.threads == s.threads[t := Added(w)]
    requires forall v | 0 <= v < WORKERS ::
      |r.queues[v].submitted| >= |s.queues[v].submitted| && |r.queues[v].finished| >= |s.queues[v].finished|
    ensures DrainsOk(r)
  {
    forall u | u in r.threads
      ensures DrainOk(r, r.threads[u])
    {
      if u != t { assert DrainOk(s, s.threads[u]); }
    }
  }

  lemma ReadKeeps(s: System)
    requires Inv(s)
    ensures Inv(s.(delivered := s.delivered + s.comp, comp := []))
  {
    var r := s.(delivered := s.delivered + s.comp, comp := []);
    assert r.delivered + r.comp == s.delivered + s.comp;
    hide QueueOk, CountType, OfWorker, Completions;
    assert LocksOk(r) by { WorkerLocksSame(s, r); }
    DrainsGrow(s, r);
  }

  /** Every enabled step keeps the invariant. */
  lemma StepKeeps(s: System, a: Action)
    requires Inv(s)
    ensures Shaped(s) && (Enabled(s, a) ==> Inv(Step(s, a)))
  {
    InvShaped(s);
    if Enabled(s, a) {
      match a
      case Lock(w) => WorkerStep(s, a, w);
      case Sleep(w) => WorkerStep(s, a, w);
      case Take(w) => WorkerStep(s, a, w);
      case Relock(w) => WorkerStep(s, a, w);
      case Process(w) => ProcessKeeps(s, w);
      case Delete(w) => DeleteKeeps(s, w);
      case Add(t) => AddKeeps(s, t);
      case ReadCompletions => ReadKeeps(s);
      case _ => ThreadStep(s, a);
    }
  }

  lemma InvQueue(s: System, w: nat)
    requires Inv(s) && w < WORKERS
    ensures |s.queues| == WORKERS && QueueOk(s.queues[w], w)
  {
  }

  lemma InvThread(s: System, t: nat)
    requires Inv(s)
    ensures |s.queues| == WORKERS && DrainOk(s, Pc(s, t))
    ensures forall w | 0 <= w < WORKERS :: s.queues[w].holder == Some(Thread(t)) <==> Holds(Pc(s, t), w)
  {
    hide QueuesOk, CountersOk, CompOk, AllIdsOk;
    if t in s.threads { assert DrainOk(s, s.threads[t]); }
  }

  lemma MovedQueue(q: Queue, w: nat)
    requires QueueOk(q, w)
    ensures q.pc.Waiting? ==> (q.holder.None? ==> QueueOk(q.(holder := Some(Worker(w)), pc := Looping), w))
    ensures q.pc.Looping? ==> q.holder == Some(Worker(w)) && QueueOk(q.(holder := None, pc := Waiting), w)
    ensures q.pc.Looping? && q.jobs != [] ==> QueueOk(q.(holder := None, pc := Running(q.jobs[0])), w)
    ensures q.pc.Ran? && q.holder.None? ==> QueueOk(q.(holder := Some(Worker(w)), pc := Deleting(q.pc.job)), w)
  {
  }

  lemma WorkerStep(s: System, a: Action, w: nat)
    requires Inv(s) && Shaped(s) && Enabled(s, a)
    requires a == Lock(w) || a == Sleep(w) || a == Take(w) || a == Relock(w)
    ensures Inv(Step(s, a))
  {
    hide Inv, Shaped, WorkerAt, QueueOk;
    InvQueue(s, w);
    var q := s.queues[w];
    MovedQueue(q, w);
    if a.Lock? {
      WorkerMoves(s, w, Some(Worker(w)), Looping);
    } else if a.Sleep? {
      WorkerMoves(s, w, None, Waiting);
    } else if a.Take? {
      WorkerMoves(s, w, None, Running(q.jobs[0]));
    } else {
      WorkerMoves(s, w, Some(Worker(w)), Deleting(q.pc.job));
    }
  }

  lemma ThreadStep(s: System, a: Action)
    requires Inv(s) && Shaped(s) && Enabled(s, a)
    requires a.Submit? || a.LockToAdd? || a.UnlockAdded? || a.Drain? || a.LockToCheck? || a.Check? || a.Return?
    ensures Inv(Step(s, a))
  {
    hide Inv, Shaped, ThreadAt, SetPc;
    InvThread(s, a.t);
    var pc := Pc(s, a.t);
    match a
    case Submit(t, job) => ThreadThinks(s, t, Submitting(job));
    case LockToAdd(t) => ThreadMoves(s, WorkerOf(pc.job.jtype), Some(Thread(t)), t, Adding(pc.job));
    case UnlockAdded(t) => ThreadMoves(s, pc.w, None, t, Away);
    case Drain(t, ty) => ThreadThinks(s, t, Draining(WorkerOf(ty), |s.queues[WorkerOf(ty)].submitted|));
    case LockToCheck(t) => ThreadMoves(s, pc.w, Some(Thread(t)), t, Checking(pc.w, pc.mark));
    case Check(t) =>
      InvQueue(s, pc.w);
      ThreadMoves(s, pc.w, None, t, if s.queues[pc.w].jobs != [] then Draining(pc.w, pc.mark) else Drained(pc.w, pc.mark));
    case Return(t) => ThreadThinks(s, t, Away);
  }

  // ---------------------------------------------------------------------
  // All interleavings

  /** A run; an action that is not possible where it comes is skipped. */
  ghost function Run(s: System, actions: seq<Action>): (r: System)
    requires Inv(s)
    ensures Inv(r)
    decreases |actions|
  {
    if actions == [] then s
    else
      StepKeeps(s, actions[0]);
      Run(if Enabled(s, actions[0]) then Step(s, actions[0]) else s, actions[1..])
  }

  lemma InitCounters()
    ensures CountersOk(INIT)
  {
    forall t: JobType
      ensures t in INIT.counter && INIT.counter[t] == 0
    {
      match t case CLOSE_FILE => case AOF_FSYNC => case CLOSE_AOF => case LAZY_FREE =>
      case COMP_CLOSE_FILE => case COMP_AOF_FSYNC => case COMP_LAZY_FREE =>
    }
    assert forall w | 0 <= w < WORKERS :: INIT.queues[w].jobs == [];
  }

  lemma InitOk()
    ensures Inv(INIT)
  {
    InitCounters();
    hide CountersOk;
    assert forall w | 0 <= w < WORKERS :: INIT.queues[w] == START;
    assert QueueOk(START, 0) && QueueOk(START, 1) && QueueOk(START, 2);
    assert INIT.delivered + INIT.comp == [];
  }

  /** What holds for a worker, a job type and a thread: the worker processes its jobs
      exactly once, in the order they were submitted; the node it deletes is the head of
      its list; the counter is the number of jobs of the type that are queued or in
      flight; a drain that is over has seen every earlier job of its worker finished; and
      completions reach the main thread once and in order. */
  ghost predicate Safe(s: System, w: nat, ty: JobType, t: nat)
    requires w < WORKERS
  {
    && |s.queues| == WORKERS && ty in s.counter
    && s.queues[w].processed <= s.queues[w].submitted
    && (forall i, j | 0 <= i < j < |s.queues[w].submitted| :: s.queues[w].submitted[i].node != s.queues[w].submitted[j].node)
    && (s.queues[w].pc.Deleting? ==> s.queues[w].jobs != [] && s.queues[w].jobs[0] == s.queues[w].pc.job)
    && s.counter[ty] == CountType(s.queues[WorkerOf(ty)].jobs, ty)
    && DrainedOk(s, Pc(s, t))
    && OfWorker(s.delivered, w) <= Completions(s.queues[w].submitted)
  }

  predicate DrainedOk(s: System, pc: ThreadPc) {
    pc.Drained? ==>
      && pc.w < |s.queues| && pc.mark <= |s.queues[pc.w].submitted|
      && s.queues[pc.w].submitted[..pc.mark] <= s.queues[pc.w].finished
  }

  lemma DrainIsSafe(s: System, t: nat)
    requires Inv(s)
    ensures DrainedOk(s, Pc(s, t))
  {
    hide Inv;
    InvThread(s, t);
    var pc := Pc(s, t);
    if pc.Drained? {
      InvQueue(s, pc.w);
      var d := s.queues[pc.w];
      assert d.submitted[..pc.mark] == d.finished[..pc.mark];
    }
  }

  lemma InvComp(s: System, w: nat)
    requires Inv(s) && w < WORKERS
    ensures |s.queues| == WORKERS && OfWorker(s.delivered + s.comp, w) == Completions(s.queues[w].processed)
  {
    hide OfWorker, Completions, QueueOk;
  }

  lemma CompletionsSafe(s: System, w: nat)
    requires Inv(s) && w < WORKERS
    ensures |s.queues| == WORKERS && s.queues[w].processed <= s.queues[w].submitted
    ensures OfWorker(s.delivered, w) <= Completions(s.queues[w].submitted)
  {
    hide Inv, OfWorker, Completions;
    InvQueue(s, w);
    InvComp(s, w);
    var q := s.queues[w];
    var rest := q.submitted[|q.processed|..];
    assert q.processed == q.submitted[..|q.processed|];
    OfWorkerPrefix(s.delivered, s.comp, w);
    CompletionsPrefix(q.processed, rest);
    assert q.processed + rest == q.submitted;
  }

  lemma InvSafe(s: System, w: nat, ty: JobType, t: nat)
    requires Inv(s) && w < WORKERS
    ensures Safe(s, w, ty, t)
  {
    DrainIsSafe(s, t);
    CompletionsSafe(s, w);
    InvQueue(s, w);
    assert IdsOk(s.queues[w], s.nextNode);
    assert ty in s.counter && s.counter[ty] == CountType(s.queues[WorkerOf(ty)].jobs, ty);
    hide Inv, OfWorker, Completions, CountType, DrainedOk;
  }

  /** Safety over every interleaving. */
  lemma EveryRun(actions: seq<Action>, w: nat, ty: JobType, t: nat)
    requires w < WORKERS
    ensures Inv(INIT) && Safe(Run(INIT, actions), w, ty, t)
  {
    hide Inv, Safe, Run;
    InitOk();
    InvSafe(Run(INIT, actions), w, ty, t);
  }

  lemma {:induction false} OfWorkerPrefix(a: seq<(nat, Job)>, b: seq<(nat, Job)>, w: nat)
    ensures OfWorker(a, w) <= OfWorker(a + b, w)
    decreases |b|
  {
    if b == [] {
      assert a + b == a;
    } else {
      var pre := b[..|b| - 1];
      assert a + b == a + pre + [b[|b| - 1]];
      OfWorkerLast(a + pre, b[|b| - 1], w);
      OfWorkerPrefix(a, pre, w);
    }
  }

  lemma {:induction false} CompletionsPrefix(a: seq<Job>, b: seq<Job>)
    ensures Completions(a) <= Completions(a + b)
    decreases |b|
  {
    if b == [] {
      assert a + b == a;
    } else {
      var pre := b[..|b| - 1];
      assert a + b == a + pre + [b[|b| - 1]];
      CompletionsLast(a + pre, b[|b| - 1]);
      CompletionsPrefix(a, pre);
    }
  }
}
