/** Background jobs: submitters and workers interleave over shared queues, counters and a list of
    completions. */
module BioQueues {
  const WORKERS := 3

  datatype JobType =
    | CloseFile | AofFsync | CloseAof | LazyFree
    | CompCloseFile | CompAofFsync | CompLazyFree

  function WorkerOf(t: JobType): (w: nat)
    ensures w < WORKERS
  {
    match t
    case CloseFile => 0
    case AofFsync => 1
    case CloseAof => 1
    case LazyFree => 2
    case CompCloseFile => 0
    case CompAofFsync => 1
    case CompLazyFree => 2
  }

  predicate IsCompletion(t: JobType) {
    t.CompCloseFile? || t.CompAofFsync? || t.CompLazyFree?
  }

  datatype Job = Job(t: JobType, arg: int)

  /** Where a worker is: waiting with the lock, processing the first job of its queue without the lock, or
      about to take the lock again to remove that job. */
  datatype Phase = Idle | Working(job: Job) | Done(job: Job)

  /** A completion handed over to the main thread: the job was the `n`-th given to worker `w`. The two
      numbers only identify the job. */
  datatype Completion = Completion(w: nat, n: nat, arg: int)

  /** `submitted` and `executed` record what happened; the code has no such variables. */
  datatype State = State(
    queues: seq<seq<Job>>,
    counters: map<JobType, nat>,
    phases: seq<Phase>,
    completions: seq<Completion>,
    taken: seq<Completion>,
    called: seq<Completion>,
    submitted: seq<seq<Job>>,
    executed: seq<seq<Job>>)

  predicate Shape(s: State) {
    |s.queues| == WORKERS && |s.phases| == WORKERS && |s.submitted| == WORKERS && |s.executed| == WORKERS
    && forall t: JobType :: t in s.counters
  }

  // ---------------------------------------------------------------- steps

  /** `bioSubmitJob`, under the lock of the worker. */
  function Submit(s: State, job: Job): State
    requires Shape(s)
  {
    var w := WorkerOf(job.t);
    s.(queues := s.queues[w := s.queues[w] + [job]],
       counters := s.counters[job.t := s.counters[job.t] + 1],
       submitted := s.submitted[w := s.submitted[w] + [job]])
  }

  /** A worker looks at the first job of its queue and gives up the lock; the job stays in the queue. */
  function Take(s: State, w: nat): State
    requires Shape(s) && w < WORKERS && s.queues[w] != []
  {
    s.(phases := s.phases[w := Working(s.queues[w][0])])
  }

  /** The job is processed; a completion request only appends to the list of completions. */
  function Process(s: State, w: nat): State
    requires Shape(s) && w < WORKERS && s.phases[w].Working?
  {
    var job := s.phases[w].job;
    var s1 := s.(phases := s.phases[w := Done(job)], executed := s.executed[w := s.executed[w] + [job]]);
    if IsCompletion(job.t) then s1.(completions := s.completions + [Completion(w, |s.executed[w]|, job.arg)]) else s1
  }

  /** With the lock again, the job is removed and no longer counted. */
  function Remove(s: State, w: nat): State
    requires Shape(s) && w < WORKERS && s.phases[w].Done? && s.queues[w] != [] && s.counters[s.phases[w].job.t] > 0
  {
    var t := s.phases[w].job.t;
    s.(queues := s.queues[w := s.queues[w][1..]], counters := s.counters[t := s.counters[t] - 1],
       phases := s.phases[w := Idle])
  }

  /** The main thread takes over the list of completions. */
  function TakeCompletions(s: State): State
    requires s.taken == []
  {
    s.(taken := s.completions, completions := [])
  }

  /** The main thread calls the next callback. */
  function CallNext(s: State): State
    requires s.taken != []
  {
    s.(taken := s.taken[1..], called := s.called + [s.taken[0]])
  }

  datatype Event = Submits(job: Job) | Takes(w: nat) | Processes(w: nat) | Removes(w: nat) | TakesCompletions | Calls

  predicate Enabled(s: State, e: Event)
    requires Shape(s)
  {
    match e
    case Submits(_) => true
    case Takes(w) => w < WORKERS && s.phases[w].Idle? && s.queues[w] != []
    case Processes(w) => w < WORKERS && s.phases[w].Working?
    case Removes(w) => w < WORKERS && s.phases[w].Done? && s.queues[w] != [] && s.counters[s.phases[w].job.t] > 0
    case TakesCompletions => s.taken == []
    case Calls => s.taken != []
  }

  function Next(s: State, e: Event): State
    requires Shape(s) && Enabled(s, e)
  {
    match e
    case Submits(job) => Submit(s, job)
    case Takes(w) => Take(s, w)
    case Processes(w) => Process(s, w)
    case Removes(w) => Remove(s, w)
    case TakesCompletions => TakeCompletions(s)
    case Calls => CallNext(s)
  }

  // ---------------------------------------------------------------- what every interleaving keeps

  function CountOf(q: seq<Job>, t: JobType): nat {
    if q == [] then 0 else (if q[0].t == t then 1 else 0) + CountOf(q[1..], t)
  }

  /** How many jobs at the front of the queue have been processed already: one between processing and
      removal, none otherwise. */
  function InHand(s: State, w: nat): nat
    requires Shape(s) && w < WORKERS
  {
    if s.phases[w].Done? then 1 else 0
  }

  /** Jobs are processed exactly once and in the order of submission: what was processed, followed by
      what is still to be processed in the queue, is what was submitted. */
  predicate WorkerOk(s: State, w: nat)
    requires Shape(s) && w < WORKERS
  {
    && (s.phases[w] != Idle ==> s.queues[w] != [] && s.queues[w][0] == s.phases[w].job)
    && InHand(s, w) <= |s.queues[w]|
    && (s.phases[w].Done? ==> s.executed[w] != [] && s.executed[w][|s.executed[w]| - 1] == s.phases[w].job)
    && s.executed[w] + s.queues[w][InHand(s, w)..] == s.submitted[w]
    && (forall i :: 0 <= i < |s.submitted[w]| ==> WorkerOf(s.submitted[w][i].t) == w)
    && (forall i :: 0 <= i < |s.queues[w]| ==> WorkerOf(s.queues[w][i].t) == w)
  }

  ghost predicate CountersOk(s: State)
    requires Shape(s)
  {
    forall t :: s.counters[t] == CountOf(s.queues[WorkerOf(t)], t)
  }

  function AllCompletions(s: State): seq<Completion> {
    s.called + s.taken + s.completions
  }

  /** The completion requests of a worker that were processed, in order. */
  function Finished(jobs: seq<Job>, w: nat): seq<Completion> {
    if jobs == [] then []
    else
      var n := |jobs| - 1;
      Finished(jobs[..n], w) + if IsCompletion(jobs[n].t) then [Completion(w, n, jobs[n].arg)] else []
  }

  function Of(cs: seq<Completion>, w: nat): seq<Completion> {
    if cs == [] then [] else Of(cs[..|cs| - 1], w) + if cs[|cs| - 1].w == w then [cs[|cs| - 1]] else []
  }

  /** Each processed completion request is, in order, called, about to be called, or in the list. */
  predicate CompletionsOk(s: State)
    requires Shape(s)
  {
    forall w :: 0 <= w < WORKERS ==> Of(AllCompletions(s), w) == Finished(s.executed[w], w)
  }

  predicate WorkersKnown(cs: seq<Completion>) {
    forall k :: 0 <= k < |cs| ==> cs[k].w < WORKERS
  }

  ghost predicate Inv(s: State) {
    Shape(s) && WorkersKnown(AllCompletions(s)) && (forall w :: 0 <= w < WORKERS ==> WorkerOk(s, w))
      && CountersOk(s) && CompletionsOk(s)
  }

  lemma {:induction false} CountAppend(q: seq<Job>, job: Job, t: JobType)
    ensures CountOf(q + [job], t) == CountOf(q, t) + if job.t == t then 1 else 0
  {
    if q == [] {
      assert q + [job] == [job] && [job][1..] == [];
    } else {
      assert (q + [job])[1..] == q[1..] + [job];
      CountAppend(q[1..], job, t);
    }
  }

  lemma SubmitKeepsInv(s: State, job: Job)
    requires Inv(s)
    ensures Inv(Submit(s, job))
  {
    hide CountOf, Of, Finished;
    var w, s' := WorkerOf(job.t), Submit(s, job);
    forall v | 0 <= v < WORKERS ensures WorkerOk(s', v) {
      assert WorkerOk(s, v);
      if v == w {
        var h := InHand(s, w);
        assert s'.queues[w][h..] == s.queues[w][h..] + [job];
        assert s.executed[w] + (s.queues[w][h..] + [job]) == (s.executed[w] + s.queues[w][h..]) + [job];
      }
    }
    forall t ensures s'.counters[t] == CountOf(s'.queues[WorkerOf(t)], t) {
      CountAppend(s.queues[w], job, t);
    }
  }

  lemma TakeKeepsInv(s: State, w: nat)
    requires Inv(s) && w < WORKERS && s.phases[w].Idle? && s.queues[w] != []
    ensures Inv(Take(s, w))
  {
    hide CountOf, Of, Finished;
    var s' := Take(s, w);
    forall v | 0 <= v < WORKERS ensures WorkerOk(s', v) {
      assert WorkerOk(s, v);
    }
  }

  lemma ProcessKeepsInv(s: State, w: nat)
    requires Inv(s) && w < WORKERS && s.phases[w].Working?
    ensures Inv(Process(s, w))
  {
    hide CountOf, Of, Finished;
    var job, s' := s.phases[w].job, Process(s, w);
    forall v | 0 <= v < WORKERS ensures WorkerOk(s', v) {
      assert WorkerOk(s, v);
      if v == w {
        assert s.queues[w][0..] == s.queues[w] == [job] + s.queues[w][1..];
        assert s.executed[w] + ([job] + s.queues[w][1..]) == (s.executed[w] + [job]) + s.queues[w][1..];
      }
    }
    ProcessCompletions(s, w);
    assert IsCompletion(job.t) ==> AllCompletions(s') == AllCompletions(s) + [Completion(w, |s.executed[w]|, job.arg)];
  }

  lemma OfAppend(cs: seq<Completion>, c: Completion, w: nat)
    ensures Of(cs + [c], w) == Of(cs, w) + if c.w == w then [c] else []
  {
    assert (cs + [c])[..|cs|] == cs;
  }

  lemma FinishedAppend(jobs: seq<Job>, job: Job, w: nat)
    ensures Finished(jobs + [job], w)
            == Finished(jobs, w) + if IsCompletion(job.t) then [Completion(w, |jobs|, job.arg)] else []
  {
    assert (jobs + [job])[..|jobs|] == jobs;
  }

  lemma ProcessCompletions(s: State, w: nat)
    requires Shape(s) && CompletionsOk(s) && w < WORKERS && s.phases[w].Working?
    ensures CompletionsOk(Process(s, w))
  {
    hide Of, Finished;
    var job, s' := s.phases[w].job, Process(s, w);
    var c := Completion(w, |s.executed[w]|, job.arg);
    forall v | 0 <= v < WORKERS ensures Of(AllCompletions(s'), v) == Finished(s'.executed[v], v) {
      assert Of(AllCompletions(s), v) == Finished(s.executed[v], v);
      FinishedAppend(s.executed[w], job, w);
      if IsCompletion(job.t) {
        assert AllCompletions(s') == AllCompletions(s) + [c];
        OfAppend(AllCompletions(s), c, v);
      }
    }
  }

  lemma RemovalIsPossible(s: State, w: nat)
    requires Inv(s) && w < WORKERS && s.phases[w].Done?
    ensures s.queues[w] != [] && s.counters[s.phases[w].job.t] > 0
  {
    assert WorkerOk(s, w);
  }

  lemma RemoveKeepsInv(s: State, w: nat)
    requires Inv(s) && w < WORKERS && s.phases[w].Done?
    ensures s.queues[w] != [] && s.counters[s.phases[w].job.t] > 0 && Inv(Remove(s, w))
  {
    hide Of, Finished;
    RemovalIsPossible(s, w);
    var s' := Remove(s, w);
    forall v | 0 <= v < WORKERS ensures WorkerOk(s', v) {
      assert WorkerOk(s, v);
      if v == w { assert s'.queues[w][0..] == s.queues[w][1..]; }
    }
    forall t ensures s'.counters[t] == CountOf(s'.queues[WorkerOf(t)], t) {
      assert WorkerOk(s, w);
      assert s.counters[t] == CountOf(s.queues[WorkerOf(t)], t);
    }
  }

  lemma MainThreadKeepsInv(s: State)
    requires Inv(s)
    ensures s.taken == [] ==> Inv(TakeCompletions(s))
    ensures s.taken != [] ==> Inv(CallNext(s))
  {
    hide CountOf, Of, Finished;
    if s.taken == [] {
      var s' := TakeCompletions(s);
      assert AllCompletions(s') == AllCompletions(s);
      forall v | 0 <= v < WORKERS ensures WorkerOk(s', v) { assert WorkerOk(s, v); }
    } else {
      var s' := CallNext(s);
      assert s.taken == [s.taken[0]] + s.taken[1..];
      assert AllCompletions(s') == AllCompletions(s);
      forall v | 0 <= v < WORKERS ensures WorkerOk(s', v) { assert WorkerOk(s, v); }
    }
  }

  lemma StepKeepsInv(s: State, e: Event)
    requires Inv(s) && Enabled(s, e)
    ensures Inv(Next(s, e))
  {
    hide Inv, Submit, Take, Process, Remove, TakeCompletions, CallNext;
    InvShape(s);
    match e
    case Submits(job) => SubmitKeepsInv(s, job);
    case Takes(w) => TakeKeepsInv(s, w);
    case Processes(w) => ProcessKeepsInv(s, w);
    case Removes(w) => RemoveKeepsInv(s, w);
    case TakesCompletions => MainThreadKeepsInv(s);
    case Calls => MainThreadKeepsInv(s);
  }

  lemma InvShape(s: State)
    requires Inv(s)
    ensures Shape(s)
  {
  }

  const NOTHING_COUNTED: map<JobType, nat> :=
    map[CloseFile := 0, AofFsync := 0, CloseAof := 0, LazyFree := 0, CompCloseFile := 0, CompAofFsync := 0,
        CompLazyFree := 0]

  const START: State :=
    State([[], [], []], NOTHING_COUNTED, [Idle, Idle, Idle], [], [], [], [[], [], []], [[], [], []])

  lemma StartInv()
    ensures Inv(START)
  {
    NothingCounted();
    forall w | 0 <= w < WORKERS ensures WorkerOk(START, w) {
    }
  }

  lemma NothingCounted()
    ensures forall t: JobType :: t in NOTHING_COUNTED && NOTHING_COUNTED[t] == 0
  {
    forall t: JobType ensures t in NOTHING_COUNTED && NOTHING_COUNTED[t] == 0 {
      match t
      case CloseFile =>
      case _ =>
    }
  }

  /** A run: each event is possible in the state it meets. */
  ghost predicate IsRun(states: seq<State>, events: seq<Event>) {
    && |states| == |events| + 1 && states[0] == START
    && forall i :: 0 <= i < |events| ==>
         Shape(states[i]) && Enabled(states[i], events[i]) && states[i + 1] == Next(states[i], events[i])
  }

  /** Over every interleaving. */
  lemma {:induction false} EveryRunKeepsInv(states: seq<State>, events: seq<Event>, n: nat)
    requires IsRun(states, events) && n < |states|
    ensures Inv(states[n])
    decreases n
  {
    hide Inv, Next, Enabled, Shape;
    if n == 0 {
      StartInv();
    } else {
      EveryRunKeepsInv(states, events, n - 1);
      StepKeepsInv(states[n - 1], events[n - 1]);
    }
  }

  // ---------------------------------------------------------------- the histories, from the events alone

  /** What a run submitted to a worker. */
  function SubmittedTo(events: seq<Event>, w: nat): seq<Job> {
    if events == [] then []
    else
      var k := |events| - 1;
      SubmittedTo(events[..k], w)
      + if events[k].Submits? && WorkerOf(events[k].job.t) == w then [events[k].job] else []
  }

  /** How many jobs a worker has finished. */
  function StepsOf(events: seq<Event>, w: nat): nat {
    if events == [] then 0
    else
      var k := |events| - 1;
      StepsOf(events[..k], w) + if events[k] == Processes(w) then 1 else 0
  }

  /** In every interleaving each worker has run exactly the first jobs submitted to it, one for each time it
      finished one. */
  lemma WorkOfARun(states: seq<State>, events: seq<Event>, n: nat, w: nat)
    requires IsRun(states, events) && n < |states| && w < WORKERS
    ensures Shape(states[n]) && StepsOf(events[..n], w) <= |SubmittedTo(events[..n], w)|
    ensures states[n].submitted[w] == SubmittedTo(events[..n], w)
    ensures states[n].executed[w] == SubmittedTo(events[..n], w)[..StepsOf(events[..n], w)]
  {
    hide SubmittedTo, StepsOf, IsRun;
    EveryRunKeepsInv(states, events, n);
    HistoryOfARun(states, events, n, w);
    ProcessedInOrder(states[n], w);
  }

  lemma {:induction false} HistoryOfARun(states: seq<State>, events: seq<Event>, n: nat, w: nat)
    requires IsRun(states, events) && n < |states| && w < WORKERS
    ensures Shape(states[n]) && states[n].submitted[w] == SubmittedTo(events[..n], w)
    ensures |states[n].executed[w]| == StepsOf(events[..n], w)
    decreases n
  {
    hide Next, Inv, Enabled;
    EveryRunKeepsInv(states, events, n);
    InvShape(states[n]);
    if n > 0 {
      HistoryOfARun(states, events, n - 1, w);
      HistoryStep(states[n - 1], events[n - 1], w);
      assert events[..n][..n - 1] == events[..n - 1] && events[..n][n - 1] == events[n - 1];
    }
  }

  lemma HistoryStep(s: State, e: Event, w: nat)
    requires Shape(s) && Enabled(s, e) && w < WORKERS
    ensures var s' := Next(s, e);
            && |s'.submitted| == |s'.executed| == WORKERS
            && s'.submitted[w] == s.submitted[w] + (if e.Submits? && WorkerOf(e.job.t) == w then [e.job] else [])
            && |s'.executed[w]| == |s.executed[w]| + if e == Processes(w) then 1 else 0
  {
  }

  /** A request for a callback goes to the worker of the jobs it follows, and closing a log to the worker that
      syncs it. */
  lemma SharedWorkers()
    ensures WorkerOf(CompCloseFile) == WorkerOf(CloseFile) && WorkerOf(CompLazyFree) == WorkerOf(LazyFree)
    ensures WorkerOf(CompAofFsync) == WorkerOf(AofFsync) == WorkerOf(CloseAof)
    ensures WorkerOf(CloseFile) != WorkerOf(AofFsync) && WorkerOf(AofFsync) != WorkerOf(LazyFree)
    ensures WorkerOf(LazyFree) != WorkerOf(CloseFile)
  {
  }

  // ---------------------------------------------------------------- what follows

  /** What was processed is a prefix of what was submitted: every job once, in order. */
  lemma ProcessedInOrder(s: State, w: nat)
    requires Inv(s) && w < WORKERS
    ensures s.executed[w] <= s.submitted[w]
  {
    assert WorkerOk(s, w);
  }

  /** An empty queue, as draining waits for, means that everything submitted has been processed. */
  lemma EmptyQueueMeansFinished(s: State, w: nat)
    requires Inv(s) && w < WORKERS && s.queues[w] == []
    ensures s.executed[w] == s.submitted[w] && forall t :: WorkerOf(t) == w ==> s.counters[t] == 0
  {
    assert WorkerOk(s, w);
    assert s.executed[w] + [] == s.executed[w];
  }

  /** Pending jobs of a type: those submitted and not yet removed, whether processed or not. */
  lemma PendingMeans(s: State, t: JobType)
    requires Inv(s)
    ensures var w := WorkerOf(t);
            && InHand(s, w) <= |s.executed[w]| <= |s.submitted[w]|
            && s.counters[t] == CountOf(s.submitted[w][|s.executed[w]| - InHand(s, w)..], t)
  {
    hide CountOf;
    var w := WorkerOf(t);
    assert WorkerOk(s, w);
    StillQueued(s, w);
    assert s.counters[t] == CountOf(s.queues[w], t);
  }

  lemma StillQueued(s: State, w: nat)
    requires Inv(s) && w < WORKERS
    ensures InHand(s, w) <= |s.executed[w]| <= |s.submitted[w]|
    ensures s.submitted[w][|s.executed[w]| - InHand(s, w)..] == s.queues[w]
  {
    assert WorkerOk(s, w);
    var e, q, h := s.executed[w], s.queues[w], InHand(s, w);
    assert s.submitted[w] == e + q[h..];
    if h == 1 {
      assert e == e[..|e| - 1] + [q[0]];
      assert s.submitted[w] == e[..|e| - 1] + q;
    } else {
      assert s.submitted[w] == e + q;
    }
  }

  lemma {:induction false} FinishedEntry(jobs: seq<Job>, w: nat, i: nat)
    requires i < |Finished(jobs, w)|
    ensures var c := Finished(jobs, w)[i];
            c.w == w && c.n < |jobs| && IsCompletion(jobs[c.n].t) && jobs[c.n].arg == c.arg
    ensures forall j :: 0 <= j < i ==> Finished(jobs, w)[j].n < Finished(jobs, w)[i].n
    decreases |jobs|
  {
    var n := |jobs| - 1;
    var most := Finished(jobs[..n], w);
    if i < |most| {
      FinishedEntry(jobs[..n], w, i);
    } else {
      forall j | 0 <= j < i ensures most[j].n < n {
        FinishedEntry(jobs[..n], w, j);
      }
    }
  }

  lemma {:induction false} OfEntry(cs: seq<Completion>, k: nat) returns (i: nat)
    requires k < |cs|
    ensures i < |Of(cs, cs[k].w)| && Of(cs, cs[k].w)[i] == cs[k]
    decreases |cs|
  {
    var most := cs[..|cs| - 1];
    if k == |cs| - 1 {
      i := |Of(most, cs[k].w)|;
    } else {
      i := OfEntry(most, k);
    }
  }

  /** When a callback runs, the job it belongs to and all jobs submitted earlier to that worker have been
      processed. */
  lemma CallbackAfterEarlierJobs(s: State, k: nat)
    requires Inv(s) && k < |s.called|
    ensures var c := s.called[k];
            && c.w < WORKERS && c.n < |s.executed[c.w]| && s.executed[c.w] <= s.submitted[c.w]
            && IsCompletion(s.submitted[c.w][c.n].t) && s.submitted[c.w][c.n].arg == c.arg
  {
    hide Of, Finished, CountOf;
    var all := AllCompletions(s);
    assert all[k] == s.called[k];
    var c := s.called[k];
    assert all[k].w < WORKERS;
    var i := OfEntry(all, k);
    assert Of(all, c.w) == Finished(s.executed[c.w], c.w);
    FinishedEntry(s.executed[c.w], c.w, i);
    ProcessedInOrder(s, c.w);
  }

  // ---------------------------------------------------------------- the shared variables

  class Bio {
    var queues: seq<seq<Job>>
    var counters: map<JobType, nat>
    var phases: seq<Phase>
    var completions: seq<Completion>
    var taken: seq<Completion>
    var called: seq<Completion>
    ghost var submitted: seq<seq<Job>>
    ghost var executed: seq<seq<Job>>
    var processed: seq<nat>

    ghost function Now(): State
      reads this
    {
      State(queues, counters, phases, completions, taken, called, submitted, executed)
    }

    ghost predicate Valid()
      reads this
    {
      Inv(Now()) && |processed| == WORKERS && forall w :: 0 <= w < WORKERS ==> processed[w] == |executed[w]|
    }

    constructor ()
      ensures Valid() && Now() == START
    {
      queues := [[], [], []];
      counters := NOTHING_COUNTED;
      phases := [Idle, Idle, Idle];
      completions, taken, called := [], [], [];
      submitted, executed := [[], [], []], [[], [], []];
      processed := [0, 0, 0];
      new;
      hide Inv;
      StartInv();
    }

    method SubmitJob(t: JobType, arg: int)
      requires Valid()
      modifies this
      ensures Valid() && Now() == Submit(old(Now()), Job(t, arg))
    {
      hide Inv;
      InvShape(Now());
      SubmitKeepsInv(Now(), Job(t, arg));
      var w := WorkerOf(t);
      submitted := submitted[w := submitted[w] + [Job(t, arg)]];
      queues := queues[w := queues[w] + [Job(t, arg)]];
      counters := counters[t := counters[t] + 1];
    }

    /** One turn of the worker loop between two moments at which it holds the lock: other threads may
        act between the three methods. */
    method TakeJob(w: nat) returns (found: bool)
      requires Valid() && w < WORKERS && phases[w].Idle?
      modifies this
      ensures Valid() && found == (old(queues)[w] != []) && Now() == if found then Take(old(Now()), w) else old(Now())
    {
      hide Inv;
      InvShape(Now());
      if |queues[w]| == 0 {
        return false;
      }
      TakeKeepsInv(Now(), w);
      phases := phases[w := Working(queues[w][0])];
      return true;
    }

    method ProcessJob(w: nat)
      requires Valid() && w < WORKERS && phases[w].Working?
      modifies this
      ensures Valid() && Now() == Process(old(Now()), w)
    {
      hide Inv;
      InvShape(Now());
      ProcessKeepsInv(Now(), w);
      var job := phases[w].job;
      executed := executed[w := executed[w] + [job]];
      if IsCompletion(job.t) {
        completions := completions + [Completion(w, processed[w], job.arg)];
      }
      processed := processed[w := processed[w] + 1];
      phases := phases[w := Done(job)];
    }

    method RemoveJob(w: nat)
      requires Valid() && w < WORKERS && phases[w].Done?
      modifies this
      ensures Valid() && Shape(old(Now())) && old(queues)[w] != [] && old(counters)[old(phases)[w].job.t] > 0
      ensures Now() == Remove(old(Now()), w)
    {
      hide Inv;
      InvShape(Now());
      RemoveKeepsInv(Now(), w);
      var t := phases[w].job.t;
      queues := queues[w := queues[w][1..]];
      counters := counters[t := counters[t] - 1];
      phases := phases[w := Idle];
    }

    /** `bioPipeReadJobCompList`: all completions so far are called, in the order of the list. */
    method PipeReadJobCompList()
      requires Valid() && taken == []
      modifies this
      ensures Valid() && taken == [] && called == old(called) + old(completions)
      ensures queues == old(queues) && counters == old(counters) && phases == old(phases)
    {
      hide Inv;
      MainThreadKeepsInv(Now());
      taken := completions;
      completions := [];
      while |taken| > 0
        invariant Valid() && called + taken == old(called) + old(completions)
        invariant queues == old(queues) && counters == old(counters) && phases == old(phases)
        decreases |taken|
      {
        MainThreadKeepsInv(Now());
        assert taken == [taken[0]] + taken[1..];
        assert called + ([taken[0]] + taken[1..]) == (called + [taken[0]]) + taken[1..];
        called := called + [taken[0]];
        taken := taken[1..];
      }
    }

    method PendingJobsOfType(t: JobType) returns (n: nat)
      requires Valid()
      ensures Shape(Now()) && n == CountOf(queues[WorkerOf(t)], t)
    {
      n := counters[t];
    }
  }
}
