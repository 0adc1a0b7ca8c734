/**
 * The bounded job queue of threadPool.c as the monitor it is meant to be: any number of producers
 * and workers step through their critical sections one statement at a time, in any order. The
 * linking and unlinking of nodes is that of the code, with a tail pointer that goes stale when the
 * queue drains.
 */
module JobQueue {
  import opened Wrappers
  import opened Bytes

  const MAX_QUEUE: nat := 100

  type Tid = nat

  class Job {
    const arg: int
    var next: Job?

    constructor (arg: int)
      ensures this.arg == arg && next == null
    {
      this.arg, this.next := arg, null;
    }
  }

  /** Where a thread stands. Between its Locked and its last critical phase it owns the mutex. */
  datatype Phase =
    | ProducerIdle(arg: int)
    | ProducerLocked(arg: int)
    | ProducerWaiting(arg: int)
    | ProducerCounted(job: Job, queueNum: nat)
    | ProducerLinked
    | ProducerDone
    | WorkerIdle
    | WorkerLocked
    | WorkerWaiting
    | WorkerTook(job: Job)
    | WorkerCounted(job: Job)
    | WorkerRunning(job: Job)
    | WorkerDone
  {
    predicate Critical() {
      ProducerLocked? || ProducerCounted? || ProducerLinked? || WorkerLocked? || WorkerTook? || WorkerCounted?
    }

    /** Between its two updates the counter is one ahead of the chain. */
    function Skew(): (n: nat) {
      if ProducerCounted? || WorkerTook? then 1 else 0
    }

    predicate HoldsJob() {
      ProducerCounted? || WorkerTook? || WorkerCounted? || WorkerRunning?
    }

    predicate Initial() {
      ProducerIdle? || WorkerIdle?
    }

    /** A job that has been taken from the queue and has not run yet. */
    predicate Works() {
      WorkerTook? || WorkerCounted? || WorkerRunning?
    }

    /** What the next step adds to the accepted requests. */
    function Links(): (r: seq<int>) {
      if ProducerCounted? then [job.arg] else []
    }

    /** What the next step adds to the jobs that have run. */
    function Runs(): (r: seq<Job>) {
      if WorkerRunning? then [job] else []
    }

    /** The job that a step to the next phase takes from the queue. */
    function Takes(next: Phase): (r: seq<Job>) {
      if WorkerLocked? && next.WorkerTook? then [next.job] else []
    }

    /** It is about to enter its critical section. */
    predicate Outside() {
      ProducerIdle? || ProducerWaiting? || WorkerIdle? || WorkerWaiting?
    }

    /** Its phase once it has the mutex. */
    function Entered(): (p: Phase)
      requires Outside()
    {
      if ProducerIdle? || ProducerWaiting? then ProducerLocked(arg) else WorkerLocked
    }

    /** Program order: next can follow this phase, and carries the same request or the same job on. */
    predicate LeadsTo(next: Phase) {
      match this
      case ProducerIdle(a) => next == ProducerLocked(a)
      case ProducerWaiting(a) => next == ProducerLocked(a)
      case ProducerLocked(a) => next == ProducerWaiting(a) || (next.ProducerCounted? && next.job.arg == a)
      case ProducerCounted(_, _) => next == ProducerLinked
      case ProducerLinked => next == ProducerDone
      case WorkerIdle => next == WorkerLocked
      case WorkerWaiting => next == WorkerLocked
      case WorkerLocked => next == WorkerWaiting || next == WorkerDone || next.WorkerTook?
      case WorkerTook(j) => next == WorkerCounted(j)
      case WorkerCounted(j) => next == WorkerRunning(j)
      case WorkerRunning(_) => next == WorkerDone
      case ProducerDone => false
      case WorkerDone => false
    }
  }

  function Elements(jobs: seq<Job>): (r: set<Job>) {
    set j | j in jobs
  }

  function Args(jobs: seq<Job>): (r: seq<int>)
    ensures |r| == |jobs|
  {
    seq(|jobs|, i requires 0 <= i < |jobs| => jobs[i].arg)
  }

  // ---------- the statements of the program ----------

  /** A thread goes on, or the server asks for the shutdown. */
  datatype Action = Go(t: Tid) | Shutdown

  /** The threads and the queue. */
  datatype Core = Core(threads: map<Tid, Phase>, owner: Option<Tid>, queueNum: nat, shutdown: bool, chain: seq<Job>)

  /** The same with the requests linked so far, the jobs taken and the jobs run, each in order. */
  datatype Snapshot = Snapshot(core: Core, accepted: seq<int>, unlinked: seq<Job>, ran: seq<Job>)

  /**
   * What the next statement of thread t makes of c. Waiting for the mutex changes nothing; leaving the
   * critical section and waiting for a signal give it up.
   */
  ghost predicate GoesOn(c: Core, t: Tid, d: Core)
    requires t in c.threads
  {
    && t in d.threads
    && var p := d.threads[t];
       var moved := c.(threads := c.threads[t := p]);
       match c.threads[t]
       case ProducerIdle(arg) =>
         if c.owner != None then d == c else p == ProducerLocked(arg) && d == moved.(owner := Some(t))
       case ProducerWaiting(arg) =>
         if c.owner != None then d == c else p == ProducerLocked(arg) && d == moved.(owner := Some(t))
       case ProducerLocked(arg) =>
         if c.queueNum == MAX_QUEUE && !c.shutdown then p == ProducerWaiting(arg) && d == moved.(owner := None)
         else p.ProducerCounted? && p.job.arg == arg && d == moved.(queueNum := c.queueNum + 1)
       case ProducerCounted(job, _) => p == ProducerLinked && d == moved.(chain := c.chain + [job])
       case ProducerLinked => p == ProducerDone && d == moved.(owner := None)
       case ProducerDone => d == c
       case WorkerIdle => if c.owner != None then d == c else p == WorkerLocked && d == moved.(owner := Some(t))
       case WorkerWaiting => if c.owner != None then d == c else p == WorkerLocked && d == moved.(owner := Some(t))
       case WorkerLocked =>
         if c.queueNum == 0 then p == (if c.shutdown then WorkerDone else WorkerWaiting) && d == moved.(owner := None)
         else |c.chain| > 0 && p == WorkerTook(c.chain[0]) && d == moved.(chain := c.chain[1..])
       case WorkerTook(job) =>
         c.queueNum > 0 && p == WorkerCounted(job) && d == moved.(queueNum := c.queueNum - 1)
       case WorkerCounted(job) => p == WorkerRunning(job) && d == moved.(owner := None)
       case WorkerRunning(_) => p == WorkerDone && d == moved
       case WorkerDone => d == c
  }

  /** Everything but entering a critical section can go on without the mutex being free. */
  predicate CanGo(c: Core, t: Tid)
    requires t in c.threads
  {
    c.threads[t].Critical() || c.threads[t].WorkerRunning? || (c.threads[t].Outside() && c.owner == None)
  }

  lemma Enters(c: Core, t: Tid)
    requires t in c.threads && c.threads[t].Outside() && c.owner == None
    ensures GoesOn(c, t, c.(threads := c.threads[t := c.threads[t].Entered()], owner := Some(t)))
  {
  }

  lemma LinksItsJob(c: Core, t: Tid)
    requires t in c.threads && c.threads[t].ProducerCounted?
    ensures GoesOn(c, t, c.(threads := c.threads[t := ProducerLinked], chain := c.chain + [c.threads[t].job]))
  {
  }

  lemma CountsDown(c: Core, t: Tid)
    requires t in c.threads && c.threads[t].WorkerTook? && c.queueNum > 0
    ensures GoesOn(c, t, c.(threads := c.threads[t := WorkerCounted(c.threads[t].job)], queueNum := c.queueNum - 1))
  {
  }

  lemma StaysPut(c: Core, t: Tid)
    requires t in c.threads && !CanGo(c, t)
    ensures GoesOn(c, t, c)
  {
    assert c.threads[t := c.threads[t]] == c.threads;
  }

  lemma GoesByOnePhase(c: Core, t: Tid, d: Core)
    requires t in c.threads && GoesOn(c, t, d)
    ensures d.threads == c.threads[t := d.threads[t]] && d.shutdown == c.shutdown
    ensures if CanGo(c, t) then c.threads[t].LeadsTo(d.threads[t]) else d == c
    ensures var job := c.threads[t].Takes(d.threads[t]);
            job == [] || (|c.chain| > 0 && job == [c.chain[0]])
  {
  }

  /** One action of a schedule. */
  ghost predicate Next(s: Snapshot, action: Action, s': Snapshot) {
    match action
    case Shutdown => s' == s.(core := s.core.(shutdown := true))
    case Go(t) =>
      if t !in s.core.threads then s' == s
      else
        && GoesOn(s.core, t, s'.core)
        && var (p, q) := (s.core.threads[t], s'.core.threads[t]);
           s' == Snapshot(s'.core, s.accepted + p.Links(), s.unlinked + p.Takes(q), s.ran + p.Runs())
  }

  /** The states of a run, one after each action of the schedule. */
  ghost predicate IsHistory(history: seq<Snapshot>, schedule: seq<Action>) {
    && |history| == |schedule| + 1
    && forall i {:trigger schedule[i]} | 0 <= i < |schedule| :: Next(history[i], schedule[i], history[i + 1])
  }

  lemma CutHistory(history: seq<Snapshot>, schedule: seq<Action>, k: nat)
    requires k <= |schedule| && IsHistory(history, schedule)
    ensures IsHistory(history[..k + 1], schedule[..k]) && IsHistory(history[k..], schedule[k..])
  {
    forall i | 0 <= i < |schedule[k..]| ensures Next(history[k..][i], schedule[k..][i], history[k..][i + 1]) {
      assert schedule[k..][i] == schedule[k + i];
    }
  }

  lemma LongerHistory(history: seq<Snapshot>, schedule: seq<Action>, i: nat, s: Snapshot)
    requires i < |schedule| && IsHistory(history, schedule[..i]) && Next(history[i], schedule[i], s)
    ensures IsHistory(history + [s], schedule[..i + 1])
  {
  }

  /** The records only grow, and a shutdown is for good. */
  lemma {:induction false} HistoryGrows(history: seq<Snapshot>, schedule: seq<Action>)
    requires IsHistory(history, schedule)
    ensures var (s, s') := (history[0], history[|schedule|]);
      && s.accepted <= s'.accepted && s.unlinked <= s'.unlinked && s.ran <= s'.ran
      && (s'.core.shutdown <==> s.core.shutdown || Shutdown in schedule)
    decreases |schedule|
  {
    if schedule != [] {
      var n := |schedule| - 1;
      CutHistory(history, schedule, n);
      HistoryGrows(history[..n + 1], schedule[..n]);
      Grows(history[n], schedule[n], history[n + 1]);
      assert schedule == schedule[..n] + [schedule[n]];
    }
  }

  lemma Grows(s: Snapshot, action: Action, s': Snapshot)
    requires Next(s, action, s')
    ensures s.accepted <= s'.accepted && s.unlinked <= s'.unlinked && s.ran <= s'.ran
    ensures s'.core.shutdown <==> s.core.shutdown || action == Shutdown
  {
  }

  /** A producer that has the queue to itself gets its request linked behind the others in four steps. */
  lemma ProducerAlone(h: seq<Snapshot>, t: Tid, arg: int) returns (job: Job)
    requires IsHistory(h, [Go(t), Go(t), Go(t), Go(t)])
    requires var c := h[0].core;
      && t in c.threads && (c.threads[t] == ProducerIdle(arg) || c.threads[t] == ProducerWaiting(arg))
      && c.owner == None && (c.queueNum < 100 || c.shutdown)
    ensures var (c, d) := (h[0].core, h[4].core);
      && h[4].accepted == h[0].accepted + [arg] && h[4].unlinked == h[0].unlinked && h[4].ran == h[0].ran
      && job.arg == arg
      && d == c.(threads := c.threads[t := ProducerDone], queueNum := c.queueNum + 1, chain := c.chain + [job])
  {
    var all := [Go(t), Go(t), Go(t), Go(t)];
    assert all[0] == all[1] == all[2] == all[3] == Go(t);
    var c := h[0].core;
    assert h[1].core == c.(threads := c.threads[t := ProducerLocked(arg)], owner := Some(t));
    var p := h[2].core.threads[t];
    assert h[2].core == c.(threads := c.threads[t := p], owner := Some(t), queueNum := c.queueNum + 1);
    job := p.job;
    assert h[3].core.chain == c.chain + [job];
    assert h[4].core.threads == c.threads[t := ProducerDone];
  }

  /** A producer that finds the queue full, or a worker that finds it empty, waits; on shutdown the worker leaves. */
  lemma WaitsOrLeaves(h: seq<Snapshot>, t: Tid)
    requires IsHistory(h, [Go(t), Go(t)])
    requires var c := h[0].core;
      && t in c.threads && c.owner == None
      && if c.threads[t].ProducerIdle? then c.queueNum == 100 && !c.shutdown
         else c.threads[t] == WorkerIdle && c.queueNum == 0
    ensures var c := h[0].core;
      h[2] == h[0].(core := c.(threads := c.threads[t :=
        if c.threads[t].ProducerIdle? then ProducerWaiting(c.threads[t].arg)
        else if c.shutdown then WorkerDone else WorkerWaiting]))
  {
    assert [Go(t), Go(t)][0] == [Go(t), Go(t)][1] == Go(t);
    var c := h[0].core;
    assert h[1] == h[0].(core := c.(threads := c.threads[t := c.threads[t].Entered()], owner := Some(t)));
    assert c.threads[t := c.threads[t].Entered()][t := h[2].core.threads[t]] == c.threads[t := h[2].core.threads[t]];
  }

  /** A worker that has a queue with jobs to itself takes the first and runs it, in five steps. */
  lemma WorkerAlone(h: seq<Snapshot>, t: Tid)
    requires IsHistory(h, [Go(t), Go(t), Go(t), Go(t), Go(t)])
    requires var c := h[0].core;
      && t in c.threads && (c.threads[t] == WorkerIdle || c.threads[t] == WorkerWaiting)
      && c.owner == None && c.queueNum == |c.chain| > 0
    ensures var (c, d) := (h[0].core, h[5].core);
      && h[5].accepted == h[0].accepted
      && h[5].unlinked == h[0].unlinked + [c.chain[0]] && h[5].ran == h[0].ran + [c.chain[0]]
      && d == c.(threads := c.threads[t := WorkerDone], queueNum := c.queueNum - 1, chain := c.chain[1..])
  {
    var all := [Go(t), Go(t), Go(t), Go(t), Go(t)];
    CutHistory(h, all, 2);
    assert all[..2] == [Go(t), Go(t)] && all[2..] == [Go(t), Go(t), Go(t)];
    WorkerTakesAlone(h[..3], t);
    WorkerRunsAlone(h[2..], t, h[0].core.chain[0]);
    assert h[5].core.threads == h[0].core.threads[t := WorkerDone];
  }

  lemma WorkerTakesAlone(h: seq<Snapshot>, t: Tid)
    requires IsHistory(h, [Go(t), Go(t)])
    requires var c := h[0].core;
      && t in c.threads && (c.threads[t] == WorkerIdle || c.threads[t] == WorkerWaiting)
      && c.owner == None && c.queueNum == |c.chain| > 0
    ensures var (c, job) := (h[0].core, h[0].core.chain[0]);
      h[2] == Snapshot(c.(threads := c.threads[t := WorkerTook(job)], owner := Some(t), chain := c.chain[1..]),
                       h[0].accepted, h[0].unlinked + [job], h[0].ran)
  {
    assert [Go(t), Go(t)][0] == [Go(t), Go(t)][1] == Go(t);
    var c := h[0].core;
    assert h[1] == h[0].(core := c.(threads := c.threads[t := WorkerLocked], owner := Some(t)));
    assert h[2].core.threads == c.threads[t := WorkerTook(c.chain[0])];
  }

  lemma WorkerRunsAlone(h: seq<Snapshot>, t: Tid, job: Job)
    requires IsHistory(h, [Go(t), Go(t), Go(t)])
    requires t in h[0].core.threads && h[0].core.threads[t] == WorkerTook(job)
    ensures var c := h[0].core;
      && c.queueNum > 0
      && h[3] == Snapshot(c.(threads := c.threads[t := WorkerDone], owner := None, queueNum := c.queueNum - 1),
                          h[0].accepted, h[0].unlinked, h[0].ran + [job])
  {
    var all := [Go(t), Go(t), Go(t)];
    assert all[0] == all[1] == all[2] == Go(t);
    var c := h[0].core;
    assert h[1] == h[0].(core := c.(threads := c.threads[t := WorkerCounted(job)], queueNum := c.queueNum - 1));
    assert h[2] == h[1].(core := h[1].core.(threads := c.threads[t := WorkerRunning(job)], owner := None));
    assert h[3].core.threads == c.threads[t := WorkerDone];
  }

  // ---------- the thread table ----------

  /** Exactly the owner of the mutex is in a critical phase. */
  ghost predicate MutexOk(owner: Option<Tid>, threads: map<Tid, Phase>) {
    && (owner.Some? ==> owner.value in threads)
    && (forall t | t in threads :: threads[t].Critical() <==> owner == Some(t))
  }

  /** The phase of the owner; WorkerDone stands for "nobody". */
  function OwnerPhase(owner: Option<Tid>, threads: map<Tid, Phase>): (p: Phase) {
    if owner.Some? && owner.value in threads then threads[owner.value] else WorkerDone
  }

  /** The counter is the length of the chain, up to the owner's half-done update, and bounded. */
  predicate CountOk(queueNum: nat, length: nat, shutdown: bool, p: Phase) {
    && queueNum == length + p.Skew()
    && (!shutdown ==> queueNum <= MAX_QUEUE)
    && (p.ProducerCounted? ==> p.queueNum == length)
    && (p.ProducerLinked? ==> length > 0)
  }

  /** A job is held by at most one thread, and then neither queued nor run. */
  ghost predicate HeldOk(threads: map<Tid, Phase>, holder: map<Job, Tid>, jobs: set<Job>, queued: set<Job>,
                         done: set<Job>) {
    && done <= jobs && queued <= jobs && queued !! done
    && (forall t | t in threads && threads[t].HoldsJob() :: HeldBy(threads[t].job, t, holder, jobs, queued, done))
  }

  ghost predicate HeldBy(j: Job, t: Tid, holder: map<Job, Tid>, jobs: set<Job>, queued: set<Job>, done: set<Job>) {
    j in jobs && j !in queued && j !in done && j in holder && holder[j] == t
  }

  lemma MutexStep(owner: Option<Tid>, threads: map<Tid, Phase>, t: Tid, p: Phase)
    requires MutexOk(owner, threads) && t in threads && (owner == None || owner == Some(t))
    ensures MutexOk(if p.Critical() then Some(t) else None, threads[t := p])
  {
  }

  lemma MutexOutside(owner: Option<Tid>, threads: map<Tid, Phase>, t: Tid, p: Phase)
    requires MutexOk(owner, threads) && t in threads && !threads[t].Critical() && !p.Critical()
    ensures MutexOk(owner, threads[t := p]) && OwnerPhase(owner, threads[t := p]) == OwnerPhase(owner, threads)
  {
  }

  /** A thread goes on with the job it holds, or with none. */
  lemma HeldKeep(threads: map<Tid, Phase>, holder: map<Job, Tid>, jobs: set<Job>, queued: set<Job>, done: set<Job>,
                 t: Tid, p: Phase)
    requires HeldOk(threads, holder, jobs, queued, done) && t in threads
    requires p.HoldsJob() ==> threads[t].HoldsJob() && threads[t].job == p.job
    ensures HeldOk(threads[t := p], holder, jobs, queued, done)
  {
  }

  /** A thread gets hold of a job that is new or has just left the queue. */
  lemma HeldTake(threads: map<Tid, Phase>, holder: map<Job, Tid>, jobs: set<Job>, queued: set<Job>, done: set<Job>,
                 t: Tid, p: Phase, jobs': set<Job>, queued': set<Job>)
    requires HeldOk(threads, holder, jobs, queued, done) && t in threads && p.HoldsJob()
    requires queued' <= queued && jobs' == jobs + {p.job} && p.job !in queued' && p.job !in done
    requires p.job in queued || p.job !in jobs
    ensures HeldOk(threads[t := p], holder[p.job := t], jobs', queued', done)
  {
  }

  /** A thread gives up its job to the queue, or to the jobs that have run. */
  lemma HeldGive(threads: map<Tid, Phase>, holder: map<Job, Tid>, jobs: set<Job>, queued: set<Job>, done: set<Job>,
                 t: Tid, p: Phase)
    requires HeldOk(threads, holder, jobs, queued, done) && t in threads && threads[t].HoldsJob() && !p.HoldsJob()
    ensures HeldOk(threads[t := p], holder, jobs, queued + {threads[t].job}, done)
    ensures HeldOk(threads[t := p], holder, jobs, queued, done + {threads[t].job})
  {
  }

  predicate Distinct(chain: seq<Job>) {
    chain == [] || (chain[0] !in chain[1..] && Distinct(chain[1..]))
  }

  lemma {:induction false} DistinctAppend(chain: seq<Job>, job: Job)
    requires Distinct(chain) && job !in chain
    ensures Distinct(chain + [job])
  {
    if chain != [] {
      assert (chain + [job])[1..] == chain[1..] + [job];
      DistinctAppend(chain[1..], job);
    }
  }

  lemma {:induction false} DistinctAt(chain: seq<Job>, i: nat, k: nat)
    requires Distinct(chain) && i < k < |chain|
    ensures chain[i] != chain[k]
  {
    if i > 0 {
      DistinctAt(chain[1..], i - 1, k - 1);
    } else {
      assert chain[k] == chain[1..][k - 1];
    }
  }

  /** The jobs that have run, each once, and those that are about to, have been taken. */
  ghost predicate RanOk(threads: map<Tid, Phase>, unlinked: seq<Job>, done: set<Job>, ran: seq<Job>) {
    && Distinct(ran) && done == Elements(ran)
    && (forall j | j in ran :: j in unlinked)
    && (forall t | t in threads && threads[t].Works() :: threads[t].job in unlinked)
  }

  lemma RanStep(threads: map<Tid, Phase>, unlinked: seq<Job>, done: set<Job>, ran: seq<Job>, t: Tid, p: Phase)
    requires RanOk(threads, unlinked, done, ran) && t in threads && (p == threads[t] || threads[t].LeadsTo(p))
    requires Elements(threads[t].Runs()) !! done
    ensures RanOk(threads[t := p], unlinked + threads[t].Takes(p), done + Elements(threads[t].Runs()),
                  ran + threads[t].Runs())
  {
    if threads[t].WorkerRunning? {
      assert threads[t].job in Elements(threads[t].Runs());
      DistinctAppend(ran, threads[t].job);
    } else {
      assert ran + [] == ran;
    }
  }

  lemma ArgsAppend(a: seq<Job>, b: seq<Job>)
    ensures Args(a + b) == Args(a) + Args(b)
  {
  }

  /** Taking the first of distinct jobs away. */
  lemma FirstOut(chain: seq<Job>)
    requires chain != [] && Distinct(chain)
    ensures [chain[0]] + chain[1..] == chain && Args(chain) == [chain[0].arg] + Args(chain[1..])
    ensures (set j | j in chain) - {chain[0]} == set j | j in chain[1..]
  {
    assert chain == [chain[0]] + chain[1..];
  }

  /** The queue fields of ThreadPools. */
  class JobList {
    var queueHead: Job?
    var queueTail: Job?
    ghost var chain: seq<Job>         // the jobs reachable from queueHead
    ghost var queued: set<Job>        // the same jobs as a set
    ghost var jobs: set<Job>          // every job ever allocated

    ghost predicate Valid()
      reads this, jobs
    {
      && queued <= jobs && queued == (set j | j in chain)
      && Distinct(chain)
      && (forall i {:trigger chain[i]} | 0 <= i < |chain| ::
            chain[i].next == if i + 1 < |chain| then chain[i + 1] else null)
      && queueHead == (if chain == [] then null else chain[0])
      && (chain != [] ==> queueTail == chain[|chain| - 1])
    }

    constructor ()
      ensures Valid() && chain == [] && queued == {} && jobs == {}
    {
      queueHead, queueTail, chain, queued, jobs := null, null, [], {}, {};
    }

    /** The requests along the chain. */
    method Requests() returns (args: seq<int>)
      requires Valid()
      ensures args == Args(chain)
    {
      args := [];
      var p := queueHead;
      ghost var i := 0;
      while p != null
        invariant 0 <= i <= |chain| && p == (if i < |chain| then chain[i] else null)
        invariant args == Args(chain[..i])
        decreases |chain| - i
      {
        args := args + [p.arg];
        p := p.next;
        i := i + 1;
      }
      assert chain[..i] == chain;
    }

    method NewJob(arg: int) returns (job: Job)
      requires Valid()
      modifies this`jobs
      ensures Valid() && fresh(job) && job.arg == arg && job.next == null && jobs == old(jobs) + {job}
    {
      job := new Job(arg);
      assert Valid();
      jobs := jobs + {job};
    }

    /** The linking of addRequest2JobQueue; the stale tail of an empty queue is not read. */
    method LinkLast(job: Job, queueNum: nat)
      requires Valid() && job in jobs && job !in queued && job.next == null && (queueNum == 0 <==> chain == [])
      modifies this`queueHead, this`queueTail, this`chain, this`queued, jobs
      ensures Valid() && chain == old(chain) + [job] && queued == old(queued) + {job}
      ensures Args(chain) == Args(old(chain)) + [job.arg]
    {
      DistinctAppend(chain, job);
      forall i | 0 <= i < |chain| - 1 ensures chain[i] != chain[|chain| - 1] {
        DistinctAt(chain, i, |chain| - 1);
      }
      if queueNum == 0 {
        queueHead := job;
        queueTail := job;
      } else {
        queueTail.next := job;
        queueTail := job;
      }
      chain, queued := chain + [job], queued + {job};
    }

    /** queue_tail->next = NULL */
    method Seal()
      requires Valid() && chain != []
      modifies jobs
      ensures Valid() && forall j | j in jobs :: j.next == old(j.next)
    {
      assert queueTail in chain;
      queueTail.next := null;
    }

    /** The unlinking of threadFunc, which leaves the tail alone. */
    method UnlinkFirst() returns (job: Job)
      requires Valid() && chain != []
      modifies this`queueHead, this`chain, this`queued
      ensures Valid() && [job] + chain == old(chain) && job in old(queued) && queued == old(queued) - {job}
      ensures Args(old(chain)) == [job.arg] + Args(chain)
    {
      job := queueHead;
      queueHead := queueHead.next;
      FirstOut(chain);
      chain, queued := chain[1..], queued - {job};
    }
  }

  class Monitor {
    const list: JobList
    var queueNum: nat
    var shutdown: bool
    var owner: Option<Tid>            // holder of the mutex
    var threads: map<Tid, Phase>
    ghost var accepted: seq<int>      // arguments of the jobs linked so far, in order
    ghost var taken: seq<int>         // arguments of the jobs unlinked so far, in order
    ghost var done: set<Job>          // jobs whose callback has run
    ghost var holder: map<Job, Tid>   // the thread that holds a job outside the queue
    ghost var unlinked: seq<Job>      // the jobs of `taken`
    ghost var ran: seq<Job>           // the jobs of `done`, in the order in which they have run

    /** No job has run twice, and those that have run, or are about to, have been taken from the queue. */
    ghost predicate Recorded()
      reads this`threads, this`taken, this`unlinked, this`done, this`ran
    {
      taken == Args(unlinked) && RanOk(threads, unlinked, done, ran)
    }

    ghost function Now(): (c: Core)
      reads this`threads, this`owner, this`queueNum, this`shutdown, list`chain
    {
      Core(threads, owner, queueNum, shutdown, list.chain)
    }

    ghost function Shot(): (s: Snapshot)
      reads this`threads, this`owner, this`queueNum, this`shutdown, list`chain
      reads this`accepted, this`unlinked, this`ran
    {
      Snapshot(Now(), accepted, unlinked, ran)
    }

    /** The thread table, the counter and the held jobs agree with the queue. */
    ghost predicate TableOk()
      reads this`owner, this`threads, this`queueNum, this`shutdown, this`holder, this`done, this`accepted, this`taken
      reads list
    {
      && MutexOk(owner, threads)
      && CountOk(queueNum, |list.chain|, shutdown, OwnerPhase(owner, threads))
      && HeldOk(threads, holder, list.jobs, list.queued, done)
      && accepted == taken + Args(list.chain)
    }

    /** The job that the owner has counted and not yet linked ends the list it will be linked to. */
    ghost predicate CountedJobOk()
      reads this`owner, this`threads, list, list.jobs
    {
      var p := OwnerPhase(owner, threads);
      p.ProducerCounted? ==> p.job in list.jobs && p.job.next == null
    }

    ghost predicate Valid()
      reads this`owner, this`threads, this`queueNum, this`shutdown, this`holder, this`done, this`accepted, this`taken
      reads list, list.jobs
    {
      list.Valid() && TableOk() && CountedJobOk()
    }

    constructor (threads: map<Tid, Phase>)
      requires forall t | t in threads :: threads[t].Initial()
      ensures Valid() && this.threads == threads && !shutdown && accepted == taken == []
      ensures fresh(list) && list.jobs == {} && Recorded() && unlinked == ran == []
      ensures Now() == Core(threads, None, 0, false, [])
    {
      this.list := new JobList();
      this.queueNum, this.shutdown := 0, false;
      this.owner, this.threads := None, threads;
      this.accepted, this.taken, this.done, this.holder := [], [], {}, map[];
      this.unlinked, this.ran := [], [];
    }

    /** pthread_mutex_lock, also the last part of pthread_cond_wait after any wake-up. */
    method Lock(t: Tid)
      requires Valid() && owner == None && t in threads
      requires threads[t].Outside()
      modifies this`owner, this`threads
      ensures Valid() && owner == Some(t) && threads == old(threads)[t := old(threads[t]).Entered()]
      ensures GoesOn(old(Now()), t, Now())
    {
      Enters(Now(), t);
      var next := threads[t].Entered();
      MutexStep(owner, threads, t, next);
      HeldKeep(threads, holder, list.jobs, list.queued, done, t, next);
      owner, threads := Some(t), threads[t := next];
      assert TableOk();
    }

    /** pthread_mutex_unlock, alone or as the first part of pthread_cond_wait. */
    method Unlock(t: Tid, next: Phase)
      requires Valid() && owner == Some(t) && !next.Critical() && threads[t].Skew() == 0
      requires next.HoldsJob() ==> threads[t].HoldsJob() && threads[t].job == next.job
      modifies this`owner, this`threads
      ensures Valid() && threads == old(threads)[t := next] && owner == None
    {
      MutexStep(owner, threads, t, next);
      HeldKeep(threads, holder, list.jobs, list.queued, done, t, next);
      owner, threads := None, threads[t := next];
      assert TableOk();
    }

    /** Allocating and counting the job of a producer. */
    method ProducerCount(t: Tid)
      requires Valid() && t in threads && threads[t].ProducerLocked? && (shutdown || queueNum < MAX_QUEUE)
      modifies this`threads, this`queueNum, this`holder, list`jobs
      ensures Valid() && fresh(list.jobs - old(list.jobs)) && queueNum == old(queueNum) + 1
      ensures t in threads && threads[t].ProducerCounted? && threads[t].job.arg == old(threads[t].arg)
      ensures threads == old(threads)[t := threads[t]] && fresh(threads[t].job)
    {
      var job := list.NewJob(threads[t].arg);
      var next := ProducerCounted(job, queueNum);
      MutexStep(owner, threads, t, next);
      HeldTake(threads, holder, list.jobs - {job}, list.queued, done, t, next, list.jobs, list.queued);
      threads, queueNum, holder := threads[t := next], queueNum + 1, holder[job := t];
    }

    /** The capacity test of addRequest2JobQueue on the live counter. */
    method ProducerTest(t: Tid)
      requires Valid() && t in threads && threads[t].ProducerLocked?
      modifies this`owner, this`threads, this`queueNum, this`holder, list`jobs
      ensures Valid() && fresh(list.jobs - old(list.jobs)) && t in threads
      ensures GoesOn(old(Now()), t, Now())
      ensures threads == old(threads)[t := threads[t]] && old(threads[t]).LeadsTo(threads[t])
      ensures if old(queueNum) == MAX_QUEUE && !shutdown
              then threads[t].ProducerWaiting? && queueNum == old(queueNum)
              else threads[t].ProducerCounted? && queueNum == old(queueNum) + 1
    {
      if queueNum == MAX_QUEUE && !shutdown {
        Unlock(t, ProducerWaiting(threads[t].arg));
      } else {
        ProducerCount(t);
      }
    }

    /** Linking a job keeps the record of what has been accepted and taken. */
    method Append(job: Job, queueNum: nat)
      requires list.Valid() && job in list.jobs && job !in list.queued && job.next == null && queueNum == |list.chain|
      requires accepted == taken + Args(list.chain)
      modifies this`accepted, list`queueHead, list`queueTail, list`chain, list`queued, list.jobs
      ensures list.Valid() && accepted == taken + Args(list.chain) && accepted == old(accepted) + [job.arg]
      ensures list.chain == old(list.chain) + [job] && list.queued == old(list.queued) + {job}
    {
      ConcatAssociative(taken, Args(list.chain), [job.arg]);
      accepted := accepted + [job.arg];
      list.LinkLast(job, queueNum);
    }

    /** Linking the counted job. */
    method ProducerLink(t: Tid)
      requires Valid() && t in threads && threads[t].ProducerCounted?
      modifies this`threads, this`accepted
      modifies list`queueHead, list`queueTail, list`chain, list`queued, list.jobs
      ensures Valid() && list.chain == old(list.chain) + [old(threads[t].job)]
      ensures accepted == old(accepted) + [old(threads[t].job).arg]
      ensures threads == old(threads)[t := ProducerLinked] && GoesOn(old(Now()), t, Now())
    {
      var job := threads[t].job;
      LinksItsJob(Now(), t);
      assert HeldBy(job, t, holder, list.jobs, list.queued, done);
      MutexStep(owner, threads, t, ProducerLinked);
      HeldGive(threads, holder, list.jobs, list.queued, done, t, ProducerLinked);
      var queueNum := threads[t].queueNum;
      threads := threads[t := ProducerLinked];
      Append(job, queueNum);
    }

    /** queue_tail->next = NULL and the unlock. */
    method ProducerSeal(t: Tid)
      requires Valid() && t in threads && threads[t].ProducerLinked?
      modifies this`owner, this`threads, list.jobs
      ensures Valid() && threads == old(threads)[t := ProducerDone] && GoesOn(old(Now()), t, Now())
    {
      list.Seal();
      Unlock(t, ProducerDone);
    }

    /** Unlinking the first job keeps the record of what has been accepted and taken. */
    method Extract() returns (job: Job)
      requires list.Valid() && list.chain != [] && accepted == taken + Args(list.chain)
      modifies this`taken, list`queueHead, list`chain, list`queued
      ensures list.Valid() && accepted == taken + Args(list.chain) && taken == old(taken) + [job.arg]
      ensures job == old(list.chain)[0] && list.chain == old(list.chain)[1..]
      ensures job in old(list.queued) && list.queued == old(list.queued) - {job}
    {
      job := list.UnlinkFirst();
      ConcatAssociative(taken, [job.arg], Args(list.chain));
      taken := taken + [job.arg];
    }

    /** Unlinking the first job for a worker. */
    method WorkerTake(t: Tid)
      requires Valid() && t in threads && threads[t].WorkerLocked? && queueNum > 0
      modifies this`threads, this`taken, this`holder, list`queueHead, list`chain, list`queued
      ensures Valid() && threads == old(threads)[t := WorkerTook(old(list.chain)[0])]
      ensures taken == old(taken) + [old(list.chain)[0].arg] && list.chain == old(list.chain)[1..]
    {
      var job := list.queueHead;
      var next := WorkerTook(job);
      MutexStep(owner, threads, t, next);
      HeldTake(threads, holder, list.jobs, list.queued, done, t, next, list.jobs, list.queued - {job});
      holder, threads := holder[job := t], threads[t := next];
      var first := Extract();
      assert TableOk();
    }

    /** The emptiness test of threadFunc. */
    method WorkerTest(t: Tid)
      requires Valid() && t in threads && threads[t].WorkerLocked?
      modifies this`owner, this`threads, this`taken, this`holder, list`queueHead, list`chain, list`queued
      ensures Valid() && GoesOn(old(Now()), t, Now())
      ensures if old(list.chain) == []
              then taken == old(taken) && threads == old(threads)[t := if shutdown then WorkerDone else WorkerWaiting]
              else taken == old(taken) + [old(list.chain)[0].arg] &&
                   threads == old(threads)[t := WorkerTook(old(list.chain)[0])]
    {
      if queueNum == 0 {
        Unlock(t, if shutdown then WorkerDone else WorkerWaiting);
      } else {
        WorkerTake(t);
      }
    }

    method WorkerCount(t: Tid)
      requires Valid() && t in threads && threads[t].WorkerTook?
      modifies this`threads, this`queueNum
      ensures Valid() && threads == old(threads)[t := WorkerCounted(old(threads[t].job))]
      ensures GoesOn(old(Now()), t, Now())
    {
      CountsDown(Now(), t);
      var next := WorkerCounted(threads[t].job);
      MutexStep(owner, threads, t, next);
      HeldKeep(threads, holder, list.jobs, list.queued, done, t, next);
      ghost var after := Now().(threads := threads[t := next], queueNum := queueNum - 1);
      queueNum, threads := queueNum - 1, threads[t := next];
      assert Now() == after;
      assert TableOk();
    }

    method WorkerUnlock(t: Tid)
      requires Valid() && t in threads && threads[t].WorkerCounted?
      modifies this`owner, this`threads
      ensures Valid() && threads == old(threads)[t := WorkerRunning(old(threads[t].job))]
      ensures GoesOn(old(Now()), t, Now())
    {
      Unlock(t, WorkerRunning(threads[t].job));
    }

    /** The callback: this job has not run before. */
    method WorkerRun(t: Tid)
      requires Valid() && t in threads && threads[t].WorkerRunning?
      modifies this`threads, this`done
      ensures Valid() && threads == old(threads)[t := WorkerDone] && GoesOn(old(Now()), t, Now())
      ensures old(threads[t].job) !in old(done) && done == old(done) + {old(threads[t].job)}
    {
      var job := threads[t].job;
      assert HeldBy(job, t, holder, list.jobs, list.queued, done);
      MutexOutside(owner, threads, t, WorkerDone);
      HeldGive(threads, holder, list.jobs, list.queued, done, t, WorkerDone);
      done, threads := done + {job}, threads[t := WorkerDone];
    }

    method RequestShutdown()
      requires Valid()
      modifies this`shutdown
      ensures Valid() && shutdown
    {
      shutdown := true;
    }

    /** The next statement of a producer inside the critical section. */
    method ProducerStep(t: Tid)
      requires Valid() && t in threads
      requires threads[t].ProducerLocked? || threads[t].ProducerCounted? || threads[t].ProducerLinked?
      modifies this`owner, this`threads, this`queueNum, this`holder, this`accepted, list, list.jobs
      ensures Valid() && GoesOn(old(Now()), t, Now())
      ensures fresh(list.jobs - old(list.jobs))
      ensures accepted == old(accepted) + old(threads[t]).Links()
    {
      match threads[t] {
        case ProducerLocked(_) => ProducerTest(t);
        case ProducerCounted(_, _) => ProducerLink(t);
        case ProducerLinked => ProducerSeal(t);
      }
    }

    /** The next statement of a worker inside the critical section. */
    method WorkerStep(t: Tid)
      requires Valid() && t in threads
      requires threads[t].WorkerLocked? || threads[t].WorkerTook? || threads[t].WorkerCounted?
      modifies this`owner, this`threads, this`queueNum, this`holder, this`taken
      modifies list`queueHead, list`chain, list`queued
      ensures Valid() && GoesOn(old(Now()), t, Now())
      ensures taken == old(taken) + Args(old(threads[t]).Takes(threads[t]))
    {
      match threads[t] {
        case WorkerLocked => WorkerTest(t);
        case WorkerTook(_) => WorkerCount(t);
        case WorkerCounted(_) => WorkerUnlock(t);
      }
    }

    /** The next statement of the thread inside the critical section. */
    method CriticalStep(t: Tid)
      requires Valid() && t in threads && threads[t].Critical()
      modifies this`owner, this`threads, this`queueNum, this`holder, this`accepted, this`taken, list, list.jobs
      ensures Valid() && GoesOn(old(Now()), t, Now())
      ensures fresh(list.jobs - old(list.jobs))
      ensures accepted == old(accepted) + old(threads[t]).Links()
      ensures taken == old(taken) + Args(old(threads[t]).Takes(threads[t]))
    {
      if threads[t].ProducerLocked? || threads[t].ProducerCounted? || threads[t].ProducerLinked? {
        ProducerStep(t);
      } else {
        WorkerStep(t);
      }
    }

    /** The next statement of a thread that does not own the mutex: its job, or the way to the mutex. */
    method OutsideStep(t: Tid)
      requires Valid() && t in threads && !threads[t].Critical()
      modifies this`owner, this`threads, this`done
      ensures Valid() && GoesOn(old(Now()), t, Now())
      ensures var job := Elements(old(threads[t]).Runs());
        done == old(done) + job && job !! old(done)
    {
      if threads[t].WorkerRunning? {
        WorkerRun(t);
      } else if threads[t].Outside() && owner == None {
        Lock(t);
      } else {
        StaysPut(Now(), t);
      }
    }

    /** The next statement of thread t, if it can go on; a thread that needs the mutex waits for it. */
    method Move(t: Tid)
      requires Valid() && t in threads
      modifies this`owner, this`threads, this`queueNum, this`holder, this`accepted, this`taken, this`done
      modifies list, list.jobs
      ensures Valid() && fresh(list.jobs - old(list.jobs))
      ensures GoesOn(old(Now()), t, Now())
      ensures accepted == old(accepted) + old(threads[t]).Links()
      ensures taken == old(taken) + Args(old(threads[t]).Takes(threads[t]))
      ensures var job := Elements(old(threads[t]).Runs());
        done == old(done) + job && job !! old(done)
    {
      ghost var p := threads[t];
      if threads[t].Critical() {
        CriticalStep(t);
        assert Elements(p.Runs()) == {};
      } else {
        OutsideStep(t);
        assert p.Links() == [] && p.Takes(threads[t]) == [] && Args([]) == [];
      }
    }

    /** The record of the jobs that have been taken and that have run, after a step of thread t. */
    ghost method Record(was: Snapshot, t: Tid, before: set<Job>)
      requires t in was.core.threads && GoesOn(was.core, t, Now()) && unlinked == was.unlinked && ran == was.ran
      requires var (p, q) := (was.core.threads[t], threads[t]);
        && RanOk(was.core.threads, unlinked, before, ran) && Elements(p.Runs()) !! before
        && done == before + Elements(p.Runs())
        && accepted == was.accepted + p.Links() && taken == Args(unlinked) + Args(p.Takes(q))
      modifies this`unlinked, this`ran
      ensures Recorded() && Next(was, Go(t), Shot())
    {
      var (p, q) := (was.core.threads[t], threads[t]);
      GoesByOnePhase(was.core, t, Now());
      RanStep(was.core.threads, unlinked, before, ran, t, q);
      ArgsAppend(unlinked, p.Takes(q));
      unlinked, ran := unlinked + p.Takes(q), ran + p.Runs();
    }

    /** The same with the record of the jobs that have been taken and that have run. */
    method Step(t: Tid)
      requires Valid() && Recorded() && t in threads
      modifies this, list, list.jobs
      ensures Valid() && Recorded() && shutdown == old(shutdown) && fresh(list.jobs - old(list.jobs))
      ensures Next(old(Shot()), Go(t), Shot())
      ensures t in threads && threads == old(threads)[t := threads[t]]
      ensures if old(CanGo(Now(), t)) then old(threads[t]).LeadsTo(threads[t]) else threads == old(threads)
      ensures accepted == old(accepted) + old(threads[t]).Links()
      ensures var job := old(threads[t]).Takes(threads[t]);
        unlinked == old(unlinked) + job && (job == [] || (old(list.chain) != [] && job[0] == old(list.chain)[0]))
      ensures ran == old(ran) + old(threads[t]).Runs()
    {
      ghost var was, before := Shot(), done;
      Move(t);
      Record(was, t, before);
      GoesByOnePhase(was.core, t, Now());
    }

    /** What a valid state says about the jobs, the counter and the tail. */
    lemma StandsFor()
      requires Valid() && Recorded()
      ensures accepted == Args(unlinked) + Args(list.chain)
      ensures forall i, k | 0 <= i < k < |ran| :: ran[i] != ran[k]
      ensures forall i | 0 <= i < |ran| :: ran[i] in unlinked
      ensures owner == None ==> |list.chain| == queueNum && (!shutdown ==> queueNum <= 100)
      ensures list.chain != [] ==> list.queueTail == list.chain[|list.chain| - 1]
    {
      forall i, k | 0 <= i < k < |ran| ensures ran[i] != ran[k] {
        DistinctAt(ran, i, k);
      }
    }

    /** One action of a schedule. */
    method Act(action: Action)
      requires Valid() && Recorded()
      modifies this, list, list.jobs
      ensures Valid() && Recorded() && fresh(list.jobs - old(list.jobs))
      ensures Next(old(Shot()), action, Shot())
      ensures shutdown <==> old(shutdown) || action == Shutdown
      ensures old(accepted) <= accepted && old(unlinked) <= unlinked && old(ran) <= ran
    {
      ghost var before := Shot();
      match action {
        case Go(t) =>
          if t in threads {
            Step(t);
          }
        case Shutdown =>
          RequestShutdown();
      }
      Grows(before, action, Shot());
    }

    /**
     * Any interleaving of any number of producers and workers, with a shutdown at any time: the
     * accepted jobs are the taken ones followed by the queued ones, so every job is taken in its
     * order; every job that has run has been taken, and none has run twice; and whenever the mutex is
     * free the chain has exactly queueNum nodes, at most MAX_QUEUE unless shutting down. The history
     * has the state after each action, which is what that statement makes of the one before.
     */
    method Run(schedule: seq<Action>) returns (ghost history: seq<Snapshot>)
      requires Valid() && Recorded()
      modifies this, list, list.jobs
      ensures Valid() && Recorded() && (shutdown <==> old(shutdown) || Shutdown in schedule)
      ensures IsHistory(history, schedule) && history[0] == old(Shot()) && history[|schedule|] == Shot()
      ensures fresh(list.jobs - old(list.jobs))
      ensures accepted == Args(unlinked) + Args(list.chain)
      ensures old(accepted) <= accepted && old(unlinked) <= unlinked && old(ran) <= ran
      ensures forall i, k | 0 <= i < k < |ran| :: ran[i] != ran[k]
      ensures forall i | 0 <= i < |ran| :: ran[i] in unlinked
      ensures owner == None ==> |list.chain| == queueNum && (!shutdown ==> queueNum <= 100)
      ensures list.chain != [] ==> list.queueTail == list.chain[|list.chain| - 1]
    {
      history := [Shot()];
      for i := 0 to |schedule|
        invariant IsHistory(history, schedule[..i]) && history[0] == old(Shot()) && history[i] == Shot()
        invariant Valid() && Recorded() && fresh(list.jobs - old(list.jobs))
      {
        Act(schedule[i]);
        LongerHistory(history, schedule, i, Shot());
        history := history + [Shot()];
      }
      assert schedule[..|schedule|] == schedule;
      HistoryGrows(history, schedule);
      StandsFor();
    }
  }

  // ---------- requests from end to end ----------

  /** A producer for each request, and as many workers. */
  function OneEach(args: seq<int>): (threads: map<Tid, Phase>) {
    map t: Tid | 0 <= t < 2 * |args| :: if t < |args| then ProducerIdle(args[t]) else WorkerIdle
  }

  /** Four steps of a producer. */
  method ProduceOne(m: Monitor, t: Tid, arg: int) returns (ghost job: Job)
    requires m.Valid() && m.Recorded() && m.owner == None && (m.queueNum < 100 || m.shutdown)
    requires t in m.threads && (m.threads[t] == ProducerIdle(arg) || m.threads[t] == ProducerWaiting(arg))
    modifies m, m.list, m.list.jobs
    ensures m.Valid() && m.Recorded() && fresh(m.list.jobs - old(m.list.jobs))
    ensures m.accepted == old(m.accepted) + [arg] && m.unlinked == old(m.unlinked) && m.ran == old(m.ran)
    ensures job.arg == arg && m.list.chain == old(m.list.chain) + [job]
    ensures m.threads == old(m.threads)[t := ProducerDone]
    ensures m.owner == None && m.queueNum == old(m.queueNum) + 1 && m.shutdown == old(m.shutdown)
  {
    ghost var h := m.Run([Go(t), Go(t), Go(t), Go(t)]);
    job := ProducerAlone(h, t, arg);
  }

  /** Five steps of a worker. */
  method ServeOne(m: Monitor, t: Tid)
    requires m.Valid() && m.Recorded() && m.owner == None && m.queueNum > 0
    requires t in m.threads && (m.threads[t] == WorkerIdle || m.threads[t] == WorkerWaiting)
    modifies m, m.list, m.list.jobs
    ensures m.Valid() && m.Recorded() && fresh(m.list.jobs - old(m.list.jobs))
    ensures old(m.list.chain) != [] && m.list.chain == old(m.list.chain)[1..] && m.accepted == old(m.accepted)
    ensures m.ran == old(m.ran) + [old(m.list.chain)[0]] && m.threads == old(m.threads)[t := WorkerDone]
    ensures m.owner == None && m.queueNum == old(m.queueNum) - 1
  {
    m.StandsFor();
    ghost var h := m.Run([Go(t), Go(t), Go(t), Go(t), Go(t)]);
    WorkerAlone(h, t);
  }

  /** Each producer in turn has the queue to itself: all requests are queued, in order. */
  method ProduceAll(m: Monitor, args: seq<int>)
    requires m.Valid() && m.Recorded() && |args| <= 100
    requires m.Now() == Core(OneEach(args), None, 0, false, []) && m.accepted == [] && m.unlinked == m.ran == []
    modifies m, m.list, m.list.jobs
    ensures m.Valid() && m.Recorded() && fresh(m.list.jobs - old(m.list.jobs))
    ensures m.owner == None && m.queueNum == |args| && Args(m.list.chain) == args && m.accepted == args && m.ran == []
    ensures forall t | |args| <= t < 2 * |args| :: t in m.threads && m.threads[t] == WorkerIdle
  {
    for i := 0 to |args|
      invariant m.Valid() && m.Recorded() && fresh(m.list.jobs - old(m.list.jobs))
      invariant m.owner == None && m.queueNum == i && !m.shutdown && m.unlinked == m.ran == []
      invariant Args(m.list.chain) == args[..i] && m.accepted == args[..i]
      invariant forall t | i <= t < 2 * |args| :: t in m.threads && m.threads[t] == OneEach(args)[t]
    {
      ghost var chain := m.list.chain;
      ghost var job := ProduceOne(m, i, args[i]);
      ArgsAppend(chain, [job]);
      assert args[..i + 1] == args[..i] + [args[i]];
    }
    assert args[..|args|] == args;
  }

  /** Each worker in turn has the queue to itself: all queued jobs have run, in the order of the queue. */
  method ServeAll(m: Monitor, from: Tid, n: nat)
    requires m.Valid() && m.Recorded() && m.owner == None && m.queueNum == n
    requires forall t | from <= t < from + n :: t in m.threads && m.threads[t] == WorkerIdle
    modifies m, m.list, m.list.jobs
    ensures m.Valid() && m.Recorded() && m.owner == None && m.queueNum == |m.list.chain| == 0
    ensures m.ran == old(m.ran) + old(m.list.chain) && m.accepted == old(m.accepted)
    decreases n
  {
    m.StandsFor();
    NothingBehind(m.ran);
    if n > 0 {
      HeadMoves(m.ran, m.list.chain);
      ServeOne(m, from);
      ServeAll(m, from + 1, n - 1);
    }
  }

  /** As many requests as the queue holds, each through the queue and run, in the order in which they came. */
  method RequestsAreServed(args: seq<int>) returns (m: Monitor)
    requires |args| <= 100
    ensures m.Valid() && m.Recorded() && m.accepted == args && Args(m.ran) == args && m.list.chain == []
  {
    m := new Monitor(OneEach(args));
    ProduceAll(m, args);
    NothingBefore(m.list.chain);
    ServeAll(m, |args|, |args|);
  }

  // ---------- the producer as it is written ----------

  /** The queue with the producer as it is written, while no worker takes a job and nobody shuts down. */
  class WrittenQueue {
    const list: JobList
    var queueNum: nat

    ghost predicate Valid()
      reads this, list, list.jobs
    {
      list.Valid() && (queueNum == 0 <==> list.chain == [])
    }

    constructor ()
      ensures Valid() && queueNum == 0 && list.chain == [] && list.jobs == {} && fresh(list)
    {
      list := new JobList();
      queueNum := 0;
    }

    /**
     * addRequest2JobQueue as it is written: it counts the job, then tests the copy it took before
     * counting, which never changes. So a job that finds the copy at capacity is never linked.
     */
    method Add(arg: int) returns (waits: bool)
      requires Valid()
      modifies this`queueNum, list, list.jobs
      ensures Valid() && queueNum == old(queueNum) + 1 && (waits <==> old(queueNum) == MAX_QUEUE)
      ensures fresh(list.jobs - old(list.jobs))
      ensures Args(list.chain) == if waits then Args(old(list.chain)) else Args(old(list.chain)) + [arg]
    {
      var job := list.NewJob(arg);
      var copy := queueNum;
      queueNum := queueNum + 1;
      waits := copy == MAX_QUEUE;
      if !waits {
        list.LinkLast(job, copy);
      }
    }

    /** One call after the other; some wait for good. */
    method AddAll(args: seq<int>) returns (waiting: nat)
      requires Valid() && queueNum == 0
      modifies this`queueNum, list, list.jobs
      ensures Valid() && queueNum == |args| && Args(list.chain) == LinkedOf(args)
      ensures waiting == if |args| <= MAX_QUEUE then 0 else 1
    {
      waiting := 0;
      for i := 0 to |args|
        invariant Valid() && queueNum == i && fresh(list.jobs - old(list.jobs))
        invariant Args(list.chain) == LinkedOf(args[..i])
        invariant waiting == if i <= MAX_QUEUE then 0 else 1
      {
        LinkedOfNext(args, i);
        var waits := Add(args[i]);
        waiting := if waits then waiting + 1 else waiting;
      }
      assert args[..|args|] == args;
    }
  }

  /** The requests that get linked when so many come in and none is taken: all but one. */
  function LinkedOf(args: seq<int>): (r: seq<int>) {
    if |args| <= MAX_QUEUE then args else args[..MAX_QUEUE] + args[MAX_QUEUE + 1..]
  }

  lemma LinkedOfNext(args: seq<int>, i: nat)
    requires i < |args|
    ensures LinkedOf(args[..i + 1]) == LinkedOf(args[..i]) + if i == MAX_QUEUE then [] else [args[i]]
  {
    if i > MAX_QUEUE {
      assert args[..i + 1][MAX_QUEUE + 1..] == args[..i][MAX_QUEUE + 1..] + [args[i]];
    }
  }

  /**
   * Any number of calls of the written producer: the one that finds the queue full waits for good,
   * and every later one goes past it. So counter and chain agree iff no more than MAX_QUEUE calls
   * have been made, and the chain keeps to the bound iff no more than one call has been made besides.
   */
  method ProduceAsWritten(args: seq<int>) returns (counter: nat, linked: seq<int>, waiting: nat)
    ensures counter == |args| && linked == LinkedOf(args)
    ensures waiting == if |args| <= 100 then 0 else 1
    ensures counter == |linked| <==> |args| <= 100
    ensures |linked| <= 100 <==> |args| <= 101
  {
    var q := new WrittenQueue();
    waiting := q.AddAll(args);
    counter := q.queueNum;
    linked := q.list.Requests();
  }
}
