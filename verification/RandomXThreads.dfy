/** The threads of the RandomX pool as programs; between any two of a program's steps the other threads take
    any number of theirs, so each execution is a part of a run of the pool. */
module RandomXThreads {
  import opened Base
  import opened RandomXPool
  import opened RandomXRuns
  import opened RandomXServing
  import EpochRing
  import HT = HashThreads

  /** Whose program it is. */
  datatype Thread = Hasher(w: nat) | Builder(b: nat) | Caller

  predicate Own(t: Thread, e: Event) {
    match t
    case Hasher(w) => e.Hash? && HT.Worker(e.h) == Some(w)
    case Builder(b) => e == Build(b)
    case Caller => e.Calculate? || e.Step?
  }

  /** The thread stands where it stood; what is said of jobs and builders stays said. */
  ghost predicate Undisturbed(t: Thread, a: State, b: State) {
    && HT.Later(a.ht, b.ht)
    && |a.builders| <= |b.builders|
    && match t
       case Hasher(w) => w < |a.ht.workers| && b.ht.workers[w] == a.ht.workers[w]
       case Builder(k) => k < |a.builders| && b.builders[k] == a.builders[k]
       case Caller => b.caller == a.caller && b.seed == a.seed && b.loaded == a.loaded && b.ctr == a.ctr
  }

  ghost predicate Exists(t: Thread, s: State) {
    (t.Hasher? ==> t.w < |s.ht.workers|) && (t.Builder? ==> t.b < |s.builders|)
  }

  lemma OthersDoNotDisturb(s: State, e: Event, t: Thread)
    requires WellFormed(s) && Enabled(s, e) && Exists(t, s) && !Own(t, e) && HT.QueueOk(s.ht)
    ensures Undisturbed(t, s, Next(s, e))
  {
    if e.Hash? {
      HT.NextLater(s.ht, e.h);
    }
  }

  class RxHashpool {
    var s: State
    /** How many hash threads the pool has, and the run so far; its seeds began uninitialised. */
    ghost const threads: nat
    ghost var run: seq<State>

    ghost predicate Valid()
      reads this
    {
      WellFormed(s) && Recorded(threads, run) && s == run[|run| - 1]
    }

    constructor (threads: nat, uninitialised: seq<Seed>)
      requires |uninitialised| == 2
      ensures Valid() && Init(threads, s) && s.seed == uninitialised && this.threads == threads
    {
      var first := State(HT.Init(threads), [INVALID_ID, INVALID_ID], [INVALID_ID, INVALID_ID], uninitialised,
                         [None, None], [None, None], 0, [], Rest, {}, true);
      s, run, this.threads := first, [first], threads;
    }

    lemma InvHere()
      requires Valid()
      ensures Inv(s)
    {
      RecordedIsRun(threads, run);
      RunInv(threads, run, |run| - 1);
    }

    method Do(e: Event)
      requires Valid() && Enabled(s, e)
      modifies this`s, this`run
      ensures Valid() && run == old(run) + [s] && s == Next(old(s), e)
    {
      NextWellFormed(s, e);
      assert StepTo(s, Next(s, e));
      RecordMore(threads, run, Next(s, e));
      s := Next(s, e);
      run := run + [s];
    }

    /** The other threads take any number of steps. */
    method Others(t: Thread)
      requires Valid() && Exists(t, s)
      modifies this`s, this`run
      ensures Valid() && old(run) <= run && Undisturbed(t, old(s), s)
    {
      var n: nat :| true;
      for i := 0 to n
        invariant Valid() && old(run) <= run && Undisturbed(t, old(s), s)
      {
        var e: Event :| true;
        if Enabled(s, e) && !Own(t, e) {
          InvHere();
          OthersDoNotDisturb(s, e, t);
          Do(e);
        }
      }
    }

    /** `dataset_thd_main`, from its start to its end, or for as long as it waits for the lock. */
    method DatasetThdMain(b: nat) returns (done: bool)
      requires Valid() && b < |s.builders| && s.builders[b].Start? && s.builders[b].i < 2
      modifies this`s, this`run
      ensures Valid() && old(run) <= run && b < |s.builders|
      ensures if done then s.builders[b].Done?
        else
          && s.builders[b] == old(s.builders[b])
          && (s.writer[s.builders[b].i].Some? || !FreeOfReaders(s, s.builders[b].i))
    {
      var i := s.builders[b].i;
      Others(Builder(b));
      if s.writer[i].Some? || !FreeOfReaders(s, i) {
        return false;
      }
      Do(Build(b));                         // the lock
      Others(Builder(b));
      Do(Build(b));                         // initialising the cache, from both halves of the seed
      Rebuild(b, i);
      Others(Builder(b));
      Do(Build(b));
      return true;
    }

    /** From the first half of the seed to the publication of the id read last. */
    method Rebuild(b: nat, i: nat)
      requires Valid() && b < |s.builders| && i < 2 && s.builders[b].HasLow? && s.builders[b].i == i
      modifies this`s, this`run
      ensures Valid() && old(run) <= run && b < |s.builders| && s.builders[b] == Published(i)
      ensures s.ready[i] < TWO63
    {
      Others(Builder(b));
      Do(Build(b));
      Others(Builder(b));
      var id := Id(s.seed[i]);
      Do(Build(b));
      Others(Builder(b));
      Do(Build(b));
      assert s.ready[i] == id;
    }

    /** `has_dataset`; nobody else changes what the slots are loaded with. */
    method HasDataset(id: nat) returns (found: bool)
      requires Valid() && s.caller.Rest?
      modifies this`s, this`run
      ensures Valid() && old(run) <= run && Undisturbed(Caller, old(s), s) && found == (id in s.loaded)
    {
      found := false;
      for k := 0 to 2
        invariant Valid() && old(run) <= run && Undisturbed(Caller, old(s), s) && id !in s.loaded[..k]
      {
        Others(Caller);
        if s.loaded[k] == id {
          found := true;
          return;
        }
        assert s.loaded[..k + 1] == s.loaded[..k] + [s.loaded[k]];
      }
      assert s.loaded[..2] == s.loaded;
    }

    /** `calculate_dataset`: the slot next in turn gets the seed and its id, and a builder, whatever happens
        meanwhile. */
    method CalculateDataset(seed: Seed)
      requires Valid() && s.caller.Rest?
      modifies this`s, this`run
      ensures Valid() && old(run) <= run && s.caller.Rest?
      ensures var i: nat := old(s.ctr) % 2;
        && s.ctr == (old(s.ctr) + 1) % TWO64
        && s.seed == old(s.seed)[i := seed] && s.loaded == old(s.loaded)[i := Id(seed)]
        && s.builders != [] && s.builders[|s.builders| - 1] == Start(i)
    {
      Do(Calculate(seed));                  // the counter
      Others(Caller);
      Do(Step);                             // ready_seed_id
      StoreAndSpawn(seed);
    }

    /** What the node does with a seed it meets: the slots end up loaded as the ring says, with any interference. */
    method LoadSeed(seed: Seed)
      requires Valid() && s.caller.Rest?
      modifies this`s, this`run
      ensures Valid() && old(run) <= run && s.caller.Rest?
      ensures EpochRing.Ring(s.loaded, s.ctr) ==
        EpochRing.AfterEpoch(EpochRing.Ring(old(s.loaded), old(s.ctr)), Id(seed))
    {
      var found := HasDataset(Id(seed));
      if !found {
        CalculateDataset(seed);
      }
    }

    method StoreAndSpawn(seed: Seed)
      requires Valid() && s.caller.StoreLow? && s.caller.seed == seed
      modifies this`s, this`run
      ensures Valid() && old(run) <= run && s.caller.Rest? && s.ctr == old(s.ctr)
      ensures var i := old(s.caller.i);
        && i < 2 && s.seed == old(s.seed)[i := seed] && s.loaded == old(s.loaded)[i := Id(seed)]
        && s.builders != [] && s.builders[|s.builders| - 1] == Start(i)
    {
      Others(Caller);
      Do(Step);                             // the seed's low half
      Others(Caller);
      Do(Step);                             // its high half
      LoadAndSpawn(seed);
    }

    method LoadAndSpawn(seed: Seed)
      requires Valid() && s.caller.Load? && s.caller.seed == seed
      modifies this`s, this`run
      ensures Valid() && old(run) <= run && s.caller.Rest? && s.ctr == old(s.ctr) && s.seed == old(s.seed)
      ensures old(s.caller.i) < 2 && s.loaded == old(s.loaded)[old(s.caller.i) := Id(seed)]
      ensures s.builders != [] && s.builders[|s.builders| - 1] == Start(old(s.caller.i))
    {
      Others(Caller);
      Do(Step);                             // loaded_seed_id
      Others(Caller);
      Do(Step);                             // the thread
    }

    /** The slot that publishes the job's id, or 2. */
    method Scan(w: nat, j: nat) returns (i: nat)
      requires Valid() && w < |s.ht.workers| && s.ht.workers[w] == HT.Scan(j, 0)
      modifies this`s, this`run
      ensures Valid() && old(run) <= run && i <= 2 && w < |s.ht.workers|
      ensures s.ht.workers[w] == if i < 2 then HT.Lock(j, i) else HT.Miss(j)
    {
      i := 0;
      while i < 2
        invariant Valid() && old(run) <= run && i <= 2 && w < |s.ht.workers|
        invariant s.ht.workers[w] == if i < 2 then HT.Scan(j, i) else HT.Miss(j)
      {
        Others(Hasher(w));
        var hit := s.ready[i] == Key(s, j);
        Do(Hash(HT.Read(w, hit)));
        if hit {
          return;
        }
        i := i + 1;
      }
    }

    /** Under the shared lock: the cache is complete, and stays so. */
    method HashOn(w: nat, j: nat, i: nat)
      requires Valid() && w < |s.ht.workers| && s.ht.workers[w] == HT.Ready(j, i)
      modifies this`s, this`run
      ensures Valid() && old(run) <= run && w < |s.ht.workers| && s.ht.workers[w] == HT.Reply(j, Some(i))
      ensures j < |s.ht.jobs| && s.ht.jobs[j].answer.Hashed?
      ensures s.orderly ==>
        s.ht.jobs[j].answer.built in s.given && Id(s.ht.jobs[j].answer.built) == s.ht.jobs[j].arg
    {
      Others(Hasher(w));
      InvHere();
      assert WorkerOk(s, w);
      var c := s.cache[i].value;
      Do(Hash(HT.Begin(w, c)));
      FinishOn(w, j, i, c);
    }

    method FinishOn(w: nat, j: nat, i: nat, c: Seed)
      requires Valid() && w < |s.ht.workers| && s.ht.workers[w] == HT.Hashing(j, i, c)
      modifies this`s, this`run
      ensures Valid() && old(run) <= run && w < |s.ht.workers| && s.ht.workers[w] == HT.Reply(j, Some(i))
      ensures j < |s.ht.jobs| && s.ht.jobs[j].answer.Hashed?
      ensures s.orderly ==>
        s.ht.jobs[j].answer.built in s.given && Id(s.ht.jobs[j].answer.built) == s.ht.jobs[j].arg
    {
      Others(Hasher(w));
      InvHere();
      assert WorkerOk(s, w) && HT.Holds(s.ht, w, j);
      Do(Hash(HT.Finish(w, s.cache[i] == Some(c))));
    }

    /** From taking the shared lock to writing the answer; false while it waits for the lock. */
    method UnderLock(w: nat, j: nat, i: nat) returns (got: bool)
      requires Valid() && i < 2 && w < |s.ht.workers| && s.ht.workers[w] == HT.Lock(j, i)
      modifies this`s, this`run
      ensures Valid() && old(run) <= run && w < |s.ht.workers|
      ensures got ==> s.ht.workers[w] == HT.Reply(j, Some(i))
      ensures !got ==> s.ht.workers[w] == HT.Lock(j, i) && s.writer[i].Some?
    {
      Others(Hasher(w));
      if s.writer[i].Some? {
        return false;
      }
      Do(Hash(HT.TakeLock(w)));
      Others(Hasher(w));
      var same := s.ready[i] == Key(s, j);
      Do(Hash(HT.Again(w, same)));
      if same {
        HashOn(w, j, i);
      } else {
        Others(Hasher(w));
        Fail(w, j);
      }
      return true;
    }

    /** `ready.set_value()`, after which the job is left alone. */
    method SetValue(w: nat, j: nat)
      requires Valid() && w < |s.ht.workers| && s.ht.workers[w].Reply? && s.ht.workers[w].j == j
      modifies this`s, this`run
      ensures Valid() && old(run) <= run && w < |s.ht.workers|
      ensures s.ht.workers[w] ==
        if old(s).ht.workers[w].lk.Some? then HT.Release(old(s).ht.workers[w].lk.value) else HT.Idle
      ensures j < |s.ht.jobs| && s.ht.jobs[j].fulfilled > 0 && s.ht.jobs[j].taker == Some(w)
    {
      Others(Hasher(w));
      InvHere();
      assert HT.Holds(s.ht, w, j);
      Do(Hash(HT.SetValue(w)));
    }

    /** Refused, or hashed over a cache which, in an orderly run, is that of its seed. */
    ghost predicate WellAnswered(j: nat)
      reads this
      requires j < |s.ht.jobs|
    {
      match s.ht.jobs[j].answer
      case Hashed(c) => s.orderly ==> c in s.given && Id(c) == s.ht.jobs[j].arg
      case AllOnes => true
      case _ => false
    }

    lemma Answered(j: nat)
      requires Valid() && j < |s.ht.jobs| && s.ht.jobs[j].fulfilled > 0
      ensures s.ht.jobs[j].fulfilled == 1 && WellAnswered(j)
    {
      InvHere();
      HT.JobsAccounted(s.ht, j);
      assert JobOk(s, j);
    }

    /** A job, unless the thread waits for one. */
    method PopJob(w: nat) returns (j: Option<nat>, ghost k: nat)
      requires Valid() && w < |s.ht.workers| && s.ht.workers[w].Idle?
      modifies this`s, this`run
      ensures Valid() && old(run) <= run && w < |s.ht.workers| && s.ht.workers[w] == if j.Some? then HT.Scan(j.value, 0) else HT.Idle
      ensures if j.Some? then old(HT.Popped(s.ht)) <= j.value else s.ht.queue == []
      ensures j.Some? ==> |old(run)| <= k && PoppedAt(run, k, j.value)
    {
      Others(Hasher(w));
      if s.ht.queue == [] {
        return None, 0;
      }
      InvHere();
      j, k := Some(s.ht.queue[0]), |run|;
      Do(Hash(HT.Pop(w)));
    }

    /** The lock is released last, at the end of its scope. */
    method SetValueAndUnlock(w: nat, j: nat)
      requires Valid() && w < |s.ht.workers| && s.ht.workers[w].Reply? && s.ht.workers[w].j == j
      requires s.ht.workers[w].lk.Some?
      modifies this`s, this`run
      ensures Valid() && old(run) <= run && w < |s.ht.workers| && s.ht.workers[w].Idle?
      ensures j < |s.ht.jobs| && s.ht.jobs[j].fulfilled == 1 && WellAnswered(j)
      ensures s.ht.jobs[j].taker == Some(w)
    {
      SetValue(w, j);
      Others(Hasher(w));
      Do(Hash(HT.Unlock(w)));
      Answered(j);
    }

    /** For a job to be queued, or for a builder to release the slot's lock. */
    ghost predicate Waits(w: nat)
      reads this
      requires WellFormed(s) && w < |s.ht.workers|
    {
      match s.ht.workers[w]
      case Idle => s.ht.queue == []
      case Lock(_, i) => i < 2 && s.writer[i].Some?
      case _ => false
    }

    /** The job popped at step `k` was hashed if its id was published all the time since then, refused if it
        never was; and if all was quiet, hashed over a seed with its id. */
    ghost predicate AsPublished(k: nat, j: nat)
      reads this
      requires j < |s.ht.jobs|
    {
      && PoppedAt(run, k, j) && k < |run|
      && var id := s.ht.jobs[j].arg;
         && (Unchanging(run, k, |run| - 1, id) ==> (s.ht.jobs[j].answer.Hashed? <==> true in Publishing(run[k], id)))
         && (QuietFrom(run, k, |run| - 1) && s.ht.jobs[j].answer.Hashed? ==> Id(s.ht.jobs[j].answer.built) == id)
    }

    lemma AnsweredAsPublished(k: nat, j: nat)
      requires Valid() && PoppedAt(run, k, j) && j < |s.ht.jobs| && s.ht.jobs[j].fulfilled > 0
      ensures AsPublished(k, j)
    {
      RecordedIsRun(threads, run);
      SameJobSince(threads, run, k, |run| - 1, j);
      if Unchanging(run, k, |run| - 1, s.ht.jobs[j].arg) {
        PublishedIsHashed(threads, run, k, |run| - 1, j, Anything());
      }
      if QuietFrom(run, k, |run| - 1) {
        QuietPoolHashes(threads, run, k, |run| - 1, j);
      }
    }

    /** One turn of `hash_thd_main`; it may wait for a job, and for the lock.  When it is over, the job it
        popped, at step `k`, has been answered, and hashed if it could be. */
    method ServeJob(w: nat) returns (done: bool, ghost j: nat, ghost k: nat)
      requires Valid() && w < |s.ht.workers| && s.ht.workers[w].Idle?
      modifies this`s, this`run
      ensures Valid() && old(run) <= run
      ensures w < |s.ht.workers| && if done then s.ht.workers[w].Idle? else Waits(w)
      ensures done ==> j < |s.ht.jobs| && s.ht.jobs[j].fulfilled == 1 && WellAnswered(j)
      ensures done ==> old(HT.Popped(s.ht)) <= j && s.ht.jobs[j].taker == Some(w)
      ensures done ==> |old(run)| <= k && AsPublished(k, j)
    {
      var popped;
      popped, k := PopJob(w);
      if popped.None? {
        return false, 0, 0;
      }
      var job := popped.value;
      j := job;
      done := Serve(w, job);
      if done {
        AnsweredAsPublished(k, job);
      }
    }

    /** From the scan to the end of the turn. */
    method Serve(w: nat, job: nat) returns (done: bool)
      requires Valid() && w < |s.ht.workers| && s.ht.workers[w] == HT.Scan(job, 0)
      modifies this`s, this`run
      ensures Valid() && old(run) <= run
      ensures w < |s.ht.workers| && if done then s.ht.workers[w].Idle? else Waits(w)
      ensures done ==> job < |s.ht.jobs| && s.ht.jobs[job].fulfilled == 1 && WellAnswered(job)
      ensures done ==> s.ht.jobs[job].taker == Some(w)
    {
      var i := Scan(w, job);
      if i == 2 {
        Others(Hasher(w));
        Fail(w, job);
        SetValue(w, job);
        Answered(job);
        return true;
      }
      var got := UnderLock(w, job, i);
      if !got {
        return false;
      }
      SetValueAndUnlock(w, job);
      return true;
    }

    /** All ones and an error. */
    method Fail(w: nat, j: nat)
      requires Valid() && w < |s.ht.workers|
      requires s.ht.workers[w] == HT.Miss(j) || (s.ht.workers[w].Swapped? && s.ht.workers[w].j == j)
      modifies this`s, this`run
      ensures Valid() && old(run) <= run && w < |s.ht.workers| && old(s).ht.workers[w].Job() == Some(j)
      ensures s.ht.workers[w] == HT.Reply(j, if old(s).ht.workers[w].Swapped? then Some(old(s).ht.workers[w].i) else None)
      ensures j < |s.ht.jobs| && s.ht.jobs[j].answer.AllOnes?
    {
      InvHere();
      assert HT.Holds(s.ht, w, j);
      Do(Hash(HT.Fail(w)));
    }
  }
}
