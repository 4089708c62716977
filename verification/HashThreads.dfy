/** The loop that every hash thread of either pool runs, and the life of the check jobs it serves.

    The ProgPow and the RandomX pool have the same worker loop: pop a job, scan the two slots without
    a lock for one whose published key is the job's, take that slot's shared lock, look again, hash,
    write the answer, fulfil the promise, release the lock.  They differ in what they read.  Here the
    outcome of each read is part of the event; the pools say which outcomes their memory allows.
    A shared lock is represented by the program points that hold it. */
module HashThreads {
  import opened Base

  /** What a job's `hash` and `error` fields say: nothing yet; all ones and an error; the hash computed
      on a dataset `built`; or a hash computed while its dataset was being replaced. */
  datatype Answer<B> = Unset | AllOnes | Hashed(built: B) | Garbage

  /** A job on its client's stack.  `fulfilled` counts the calls of `ready.set_value()`; `gone` says
      that the client has stopped waiting and the job's memory is no longer there; `taker` is the worker
      that popped it. */
  datatype Job<B> = Job(arg: nat, answer: Answer<B>, fulfilled: nat, gone: bool, taker: Option<nat>)

  datatype Pc<B> =
    | Idle
    | Scan(j: nat, i: nat)             // about to read slot i's published key
    | Miss(j: nat)                     // no slot had the key
    | Lock(j: nat, i: nat)             // about to take slot i's shared lock
    | Recheck(j: nat, i: nat)          // lock held from here ...
    | Swapped(j: nat, i: nat)
    | Ready(j: nat, i: nat)            // about to start hashing
    | Hashing(j: nat, i: nat, b: B)    // hashing on what slot i held when the hash began
    | Reply(j: nat, lk: Option<nat>)   // answer written, about to fulfil the promise
    | Release(i: nat)                  // ... to here
  {
    function Job(): Option<nat> {
      if Idle? || Release? then None else Some(j)
    }

    predicate HoldsShared(slot: nat) {
      match this
      case Recheck(_, i) => i == slot
      case Swapped(_, i) => i == slot
      case Ready(_, i) => i == slot
      case Hashing(_, i, _) => i == slot
      case Reply(_, lk) => lk == Some(slot)
      case Release(i) => i == slot
      case _ => false
    }
  }

  datatype State<B> = State(workers: seq<Pc<B>>, queue: seq<nat>, jobs: seq<Job<B>>)

  datatype Event<B> =
    | Push(arg: nat)                   // a client queues a job and waits
    | Return(j: nat)                   // its wait is over: it copies the job and returns
    | Pop(w: nat)
    | Read(w: nat, hit: bool)
    | TakeLock(w: nat)
    | Again(w: nat, hit: bool)
    | Begin(w: nat, b: B)
    | Finish(w: nat, intact: bool)
    | Fail(w: nat)
    | SetValue(w: nat)
    | Unlock(w: nat)

  const SLOTS: nat := 2

  function Init<B>(threads: nat): State<B> {
    State(seq(threads, _ => Idle), [], [])
  }

  predicate Enabled<B(==)>(s: State<B>, e: Event<B>) {
    match e
    case Push(_) => true
    case Return(j) => j < |s.jobs| && s.jobs[j].fulfilled > 0 && !s.jobs[j].gone
    case Pop(w) => w < |s.workers| && s.workers[w].Idle? && s.queue != [] && s.queue[0] < |s.jobs|
    case Read(w, _) => w < |s.workers| && s.workers[w].Scan?
    case TakeLock(w) => w < |s.workers| && s.workers[w].Lock?
    case Again(w, _) => w < |s.workers| && s.workers[w].Recheck?
    case Begin(w, _) => w < |s.workers| && s.workers[w].Ready?
    case Finish(w, _) => w < |s.workers| && s.workers[w].Hashing? && s.workers[w].j < |s.jobs|
    case Fail(w) => w < |s.workers| && (s.workers[w].Miss? || s.workers[w].Swapped?) && s.workers[w].j < |s.jobs|
    case SetValue(w) => w < |s.workers| && s.workers[w].Reply? && s.workers[w].j < |s.jobs|
    case Unlock(w) => w < |s.workers| && s.workers[w].Release?
  }

  function Next<B>(s: State<B>, e: Event<B>): State<B>
    requires Enabled(s, e)
  {
    match e
    case Push(arg) => s.(queue := s.queue + [|s.jobs|], jobs := s.jobs + [Job(arg, Unset, 0, false, None)])
    case Return(j) => s.(jobs := s.jobs[j := s.jobs[j].(gone := true)])
    case Pop(w) =>
      var j := s.queue[0];
      s.(workers := s.workers[w := Scan(j, 0)], queue := s.queue[1..],
         jobs := s.jobs[j := s.jobs[j].(taker := Some(w))])
    case Read(w, hit) =>
      var Scan(j, i) := s.workers[w];
      To(s, w, if hit then Lock(j, i) else if i + 1 < SLOTS then Scan(j, i + 1) else Miss(j))
    case TakeLock(w) => To(s, w, Recheck(s.workers[w].j, s.workers[w].i))
    case Again(w, hit) =>
      var Recheck(j, i) := s.workers[w];
      To(s, w, if hit then Ready(j, i) else Swapped(j, i))
    case Begin(w, b) => To(s, w, Hashing(s.workers[w].j, s.workers[w].i, b))
    case Finish(w, intact) =>
      var Hashing(j, i, b) := s.workers[w];
      Write(To(s, w, Reply(j, Some(i))), j, if intact then Hashed(b) else Garbage)
    case Fail(w) =>
      var j := s.workers[w].j;
      Write(To(s, w, Reply(j, if s.workers[w].Swapped? then Some(s.workers[w].i) else None)), j, AllOnes)
    case SetValue(w) =>
      var Reply(j, lk) := s.workers[w];
      To(s, w, if lk.Some? then Release(lk.value) else Idle).(
        jobs := s.jobs[j := s.jobs[j].(fulfilled := s.jobs[j].fulfilled + 1)])
    case Unlock(w) => To(s, w, Idle)
  }

  function To<B>(s: State<B>, w: nat, pc: Pc<B>): State<B>
    requires w < |s.workers|
  {
    s.(workers := s.workers[w := pc])
  }

  function Write<B>(s: State<B>, j: nat, a: Answer<B>): State<B>
    requires j < |s.jobs|
  {
    s.(jobs := s.jobs[j := s.jobs[j].(answer := a)])
  }

  /** The worker that takes the step, for the steps a worker takes. */
  function Worker<B>(e: Event<B>): Option<nat> {
    if e.Push? || e.Return? then None else Some(e.w)
  }

  predicate Holds<B>(s: State<B>, w: nat, j: nat) {
    w < |s.workers| && s.workers[w].Job() == Some(j)
  }

  /** Jobs are numbered in the order they were queued; this many have been popped. */
  function Popped<B>(s: State<B>): int {
    |s.jobs| - |s.queue|
  }

  ghost predicate Inv<B(!new)>(s: State<B>) {
    && QueueOk(s)
    && (forall j :: 0 <= j < Popped(s) ==> JobOk(s, j))
    && HoldsOk(s)
    && (forall w :: 0 <= w < |s.workers| ==> PcOk(s, s.workers[w]))
  }

  /** The jobs not yet popped are queued in order, and untouched. */
  ghost predicate QueueOk<B(!new)>(s: State<B>) {
    && |s.queue| <= |s.jobs|
    && (forall k :: 0 <= k < |s.queue| ==> s.queue[k] == Popped(s) + k)
    && (forall j :: Popped(s) <= j < |s.jobs| ==> s.jobs[j].answer == Unset && s.jobs[j].fulfilled == 0)
  }

  /** A job is held by the worker that popped it alone, until it is fulfilled; only a fulfilled one is gone. */
  ghost predicate HoldsOk<B(!new)>(s: State<B>) {
    && |s.queue| <= |s.jobs|
    && (forall j :: 0 <= j < |s.jobs| ==> s.jobs[j].gone ==> s.jobs[j].fulfilled == 1)
    && (forall w: nat, j: nat :: Holds(s, w, j) ==>
          j < Popped(s) && s.jobs[j].fulfilled == 0 && s.jobs[j].taker == Some(w))
  }

  /** A popped job is held by a worker and not yet fulfilled, or fulfilled once and answered. */
  ghost predicate JobOk<B(!new)>(s: State<B>, j: nat)
    requires j < |s.jobs|
  {
    && (s.jobs[j].fulfilled == 0 ==> exists w: nat :: Holds(s, w, j))
    && s.jobs[j].fulfilled <= 1
    && (s.jobs[j].fulfilled == 1 ==> s.jobs[j].answer != Unset)
  }

  ghost predicate PcOk<B(!new)>(s: State<B>, pc: Pc<B>) {
    match pc
    case Scan(_, i) => i < SLOTS
    case Lock(_, i) => i < SLOTS
    case Recheck(_, i) => i < SLOTS
    case Swapped(_, i) => i < SLOTS
    case Ready(_, i) => i < SLOTS
    case Hashing(_, i, _) => i < SLOTS
    case Reply(j, lk) => j < |s.jobs| && s.jobs[j].answer != Unset && (lk.Some? ==> lk.value < SLOTS)
    case Release(i) => i < SLOTS
    case _ => true
  }

  lemma InitInv<B(!new)>(threads: nat)
    ensures Inv(Init<B>(threads))
  {
  }

  /** A step hands a worker no job but the one it pops, and takes none away but the one it fulfils. */
  lemma HoldsAfter<B(!new)>(s: State<B>, e: Event<B>)
    requires Enabled(s, e)
    ensures forall w: nat, j: nat :: Holds(Next(s, e), w, j) <==>
      if e.Pop? && w == e.w then j == s.queue[0]
      else Holds(s, w, j) && !(e.SetValue? && w == e.w)
  {
  }

  lemma NextQueueOk<B(!new)>(s: State<B>, e: Event<B>)
    requires QueueOk(s) && HoldsOk(s) && Enabled(s, e)
    ensures QueueOk(Next(s, e))
  {
    assert e.Finish? || e.Fail? || e.SetValue? ==> Holds(s, e.w, s.workers[e.w].j);
  }

  lemma NextHoldsOk<B(!new)>(s: State<B>, e: Event<B>)
    requires QueueOk(s) && HoldsOk(s) && Enabled(s, e)
    requires e.Return? ==> s.jobs[e.j].fulfilled <= 1
    ensures HoldsOk(Next(s, e))
  {
    HoldsAfter(s, e);
    assert e.Finish? || e.Fail? || e.SetValue? ==> Holds(s, e.w, s.workers[e.w].j);
  }

  lemma NextJobOk<B(!new)>(s: State<B>, e: Event<B>, j: nat)
    requires QueueOk(s) && HoldsOk(s) && Enabled(s, e)
    requires j < |s.jobs| && j < Popped(Next(s, e)) && (j < Popped(s) ==> JobOk(s, j))
    requires e.SetValue? ==> PcOk(s, s.workers[e.w])
    ensures JobOk(Next(s, e), j)
  {
    var t := Next(s, e);
    HoldsAfter(s, e);
    assert e.Finish? || e.Fail? || e.SetValue? ==> Holds(s, e.w, s.workers[e.w].j);
    if e.Pop? && j == s.queue[0] {
      assert Holds(t, e.w, j);
    } else if t.jobs[j].fulfilled == 0 {
      var w: nat :| Holds(s, w, j);
      assert Holds(t, w, j);
    }
  }

  lemma NextPcOk<B(!new)>(s: State<B>, e: Event<B>, w: nat)
    requires HoldsOk(s) && Enabled(s, e) && w < |s.workers| && PcOk(s, s.workers[w])
    ensures PcOk(Next(s, e), Next(s, e).workers[w])
  {
    assert e.Finish? || e.Fail? || e.SetValue? ==> Holds(s, e.w, s.workers[e.w].j);
  }

  lemma NextInv<B(!new)>(s: State<B>, e: Event<B>)
    requires Inv(s) && Enabled(s, e)
    ensures Inv(Next(s, e))
  {
    var t := Next(s, e);
    assert e.Return? ==> e.j < Popped(s) && JobOk(s, e.j);
    NextQueueOk(s, e);
    NextHoldsOk(s, e);
    forall j: nat | j < Popped(t) ensures JobOk(t, j) {
      NextJobOk(s, e, j);
    }
    forall w | 0 <= w < |t.workers| ensures PcOk(t, t.workers[w]) {
      NextPcOk(s, e, w);
    }
  }

  /** Every queued job is waiting in the queue, held by exactly one worker, or fulfilled exactly once;
      and the jobs are popped in the order they were pushed. */
  lemma JobsAccounted<B(!new)>(s: State<B>, j: nat)
    requires Inv(s) && j < |s.jobs|
    ensures j in s.queue <==> Popped(s) <= j
    ensures (exists w: nat :: Holds(s, w, j)) <==> j < Popped(s) && s.jobs[j].fulfilled == 0
    ensures forall v: nat, w: nat :: Holds(s, v, j) && Holds(s, w, j) ==> v == w
    ensures s.jobs[j].fulfilled == 1 <==> j !in s.queue && !exists w: nat :: Holds(s, w, j)
    ensures s.jobs[j].fulfilled <= 1 && (s.jobs[j].fulfilled == 1 ==> s.jobs[j].answer != Unset)
  {
    if Popped(s) <= j {
      assert s.queue[j - Popped(s)] == j;
    } else {
      assert JobOk(s, j);
    }
  }

  /** A worker reads and writes only jobs whose client still waits for them; what is fulfilled, whether
      its client has returned or not, never changes again. */
  lemma FulfilledIsFinal<B(!new)>(s: State<B>, e: Event<B>, j: nat)
    requires Inv(s) && Enabled(s, e) && j < |s.jobs|
    ensures Worker(e).Some? && (Holds(s, e.w, j) || Holds(Next(s, e), e.w, j)) ==>
      s.jobs[j].fulfilled == 0 && !s.jobs[j].gone
    ensures s.jobs[j].fulfilled == 1 ==>
      Next(s, e).jobs[j].fulfilled == 1 && Next(s, e).jobs[j].answer == s.jobs[j].answer
  {
    HoldsAfter(s, e);
    assert e.Finish? || e.Fail? || e.SetValue? ==> Holds(s, e.w, s.workers[e.w].j);
  }

  /** Jobs are never taken away, nor a job's argument changed, nor a promise unmade, nor who served a job. */
  ghost predicate Later<B(!new)>(a: State<B>, b: State<B>) {
    && |a.jobs| <= |b.jobs| && |a.workers| == |b.workers| && Popped(a) <= Popped(b)
    && (forall j :: 0 <= j < |a.jobs| ==> JobLater(a.jobs[j], b.jobs[j]))
  }

  ghost predicate JobLater<B>(a: Job<B>, b: Job<B>) {
    b.arg == a.arg && b.fulfilled >= a.fulfilled && (a.fulfilled > 0 ==> b.taker == a.taker)
  }

  lemma NextLater<B(!new)>(s: State<B>, e: Event<B>)
    requires Enabled(s, e) && QueueOk(s)
    ensures Later(s, Next(s, e))
  {
  }

  ghost predicate StepTo<B(!new)>(s: State<B>, t: State<B>) {
    exists e :: Enabled(s, e) && t == Next(s, e)
  }

  ghost predicate Run<B(!new)>(threads: nat, run: seq<State<B>>) {
    && run != [] && run[0] == Init(threads)
    && forall k :: 0 < k < |run| ==> StepTo(run[k - 1], run[k])
  }

  lemma {:induction false} RunInv<B(!new)>(threads: nat, run: seq<State<B>>, k: nat)
    requires Run(threads, run) && k < |run|
    ensures Inv(run[k])
  {
    if k == 0 {
      InitInv<B>(threads);
    } else {
      RunInv(threads, run, k - 1);
      assert StepTo(run[k - 1], run[k]);
      var e :| Enabled(run[k - 1], e) && run[k] == Next(run[k - 1], e);
      NextInv(run[k - 1], e);
    }
  }

  /** Whatever the memory of a pool allows its threads to read: once a job is fulfilled, for the rest of the
      run its promise is not fulfilled again, its answer does not change, and no worker holds it. */
  lemma {:induction false} AnswersAreFinal<B(!new)>(threads: nat, run: seq<State<B>>, k: nat, m: nat, j: nat)
    requires Run(threads, run) && k <= m < |run|
    requires j < |run[k].jobs| && run[k].jobs[j].fulfilled > 0
    ensures j < |run[m].jobs| && run[m].jobs[j].fulfilled == 1
    ensures run[m].jobs[j].answer == run[k].jobs[j].answer != Unset
    ensures forall w: nat :: !Holds(run[m], w, j)
  {
    RunInv(threads, run, m);
    JobsAccountedHere(run[m], j);
    if k < m {
      AnswersAreFinal(threads, run, k, m - 1, j);
      RunInv(threads, run, m - 1);
      assert StepTo(run[m - 1], run[m]);
      StaysAnswered(run[m - 1], run[m], j);
    }
  }

  lemma StaysAnswered<B(!new)>(s: State<B>, t: State<B>, j: nat)
    requires Inv(s) && StepTo(s, t) && j < |s.jobs| && s.jobs[j].fulfilled == 1
    ensures j < |t.jobs| && t.jobs[j].fulfilled == 1 && t.jobs[j].answer == s.jobs[j].answer
  {
    var e :| Enabled(s, e) && t == Next(s, e);
    FulfilledIsFinal(s, e, j);
  }

  lemma JobsAccountedHere<B(!new)>(s: State<B>, j: nat)
    requires Inv(s)
    ensures j < |s.jobs| && s.jobs[j].fulfilled > 0 ==>
      s.jobs[j].fulfilled == 1 && s.jobs[j].answer != Unset && forall w: nat :: !Holds(s, w, j)
  {
    if j < |s.jobs| {
      JobsAccounted(s, j);
    }
  }

  // ---------------------------------------------------------------- when a job is hashed

  /** What a job is told if the slots that publish its key are those of `pub` all along: a hash if there is one,
      an error otherwise. */
  ghost predicate Told<B(!new)>(a: Answer<B>, pub: seq<bool>, good: B -> bool) {
    if true in pub then a.Garbage? || (a.Hashed? && good(a.built)) else a.AllOnes?
  }

  /** Where its thread then stands. */
  ghost predicate StandsBy<B(!new)>(s: State<B>, pc: Pc<B>, pub: seq<bool>, good: B -> bool)
    requires |pub| == SLOTS
  {
    match pc
    case Scan(_, i) => i < SLOTS && forall x :: 0 <= x < i ==> !pub[x]
    case Miss(_) => true !in pub
    case Lock(_, i) => i < SLOTS && pub[i]
    case Recheck(_, i) => i < SLOTS && pub[i]
    case Swapped(_, _) => false
    case Ready(_, i) => i < SLOTS && pub[i]
    case Hashing(_, i, b) => i < SLOTS && pub[i] && good(b)
    case Reply(j, _) => j < |s.jobs| && Told(s.jobs[j].answer, pub, good)
    case _ => true
  }

  ghost predicate Steady<B(!new)>(s: State<B>, j: nat, pub: seq<bool>, good: B -> bool)
    requires |pub| == SLOTS
  {
    && (forall w: nat :: Holds(s, w, j) ==> StandsBy(s, s.workers[w], pub, good))
    && (j < |s.jobs| && s.jobs[j].fulfilled > 0 ==> Told(s.jobs[j].answer, pub, good))
  }

  /** The job's thread reads what the slots publish, and hashes on what is good. */
  ghost predicate ReadsTruly<B(!new)>(s: State<B>, e: Event<B>, j: nat, pub: seq<bool>, good: B -> bool)
    requires Enabled(s, e) && |pub| == SLOTS
  {
    && (e.Read? && Holds(s, e.w, j) ==> s.workers[e.w].i < SLOTS && e.hit == pub[s.workers[e.w].i])
    && (e.Again? && Holds(s, e.w, j) ==> s.workers[e.w].i < SLOTS && e.hit == pub[s.workers[e.w].i])
    && (e.Begin? && Holds(s, e.w, j) ==> good(e.b))
  }

  lemma NotYetPopped<B(!new)>(s: State<B>, j: nat, pub: seq<bool>, good: B -> bool)
    requires QueueOk(s) && HoldsOk(s) && Popped(s) <= j && |pub| == SLOTS
    ensures Steady(s, j, pub, good)
  {
  }

  lemma NextSteady<B(!new)>(s: State<B>, e: Event<B>, j: nat, pub: seq<bool>, good: B -> bool)
    requires QueueOk(s) && HoldsOk(s) && Enabled(s, e) && |pub| == SLOTS
    requires Steady(s, j, pub, good) && ReadsTruly(s, e, j, pub, good)
    ensures Steady(Next(s, e), j, pub, good)
  {
    HoldsAfter(s, e);
    forall w: nat | Holds(Next(s, e), w, j) ensures StandsBy(Next(s, e), Next(s, e).workers[w], pub, good) {
      NextStandsBy(s, e, j, w, pub, good);
    }
    assert e.Finish? || e.Fail? || e.SetValue? ==> Holds(s, e.w, s.workers[e.w].j);
  }

  lemma NextStandsBy<B(!new)>(s: State<B>, e: Event<B>, j: nat, w: nat, pub: seq<bool>, good: B -> bool)
    requires HoldsOk(s) && Enabled(s, e) && |pub| == SLOTS && ReadsTruly(s, e, j, pub, good)
    requires Holds(s, w, j) ==> StandsBy(s, s.workers[w], pub, good)
    requires Holds(Next(s, e), w, j) && (Holds(s, w, j) || (e.Pop? && e.w == w))
    ensures StandsBy(Next(s, e), Next(s, e).workers[w], pub, good)
  {
    if Holds(s, w, j) && Worker(e) == Some(w) {
      OwnStandsBy(s, e, j, pub, good);
    } else {
      assert e.Finish? || e.Fail? || e.SetValue? ==> Holds(s, e.w, s.workers[e.w].j);
    }
  }

  lemma OwnStandsBy<B(!new)>(s: State<B>, e: Event<B>, j: nat, pub: seq<bool>, good: B -> bool)
    requires Enabled(s, e) && |pub| == SLOTS && Worker(e).Some? && ReadsTruly(s, e, j, pub, good)
    requires Holds(s, e.w, j) && Holds(Next(s, e), e.w, j) && StandsBy(s, s.workers[e.w], pub, good)
    ensures StandsBy(Next(s, e), Next(s, e).workers[e.w], pub, good)
  {
  }
}
