/** The threads of the ProgPow pool as programs.  Each takes one step at a time, and the other threads take
    any number of steps in between; so each execution of a program is a part of a run of the pool. */
module ProgPowThreads {
  import opened Base
  import opened EpochRing
  import opened ProgPowPool
  import opened ProgPowServing
  import HT = HashThreads

  /** Whose program it is. */
  datatype Thread = Hasher(w: nat) | Builder(b: nat) | Notifier

  predicate Own(t: Thread, e: Event) {
    match t
    case Hasher(w) => e.Hash? && HT.Worker(e.h) == Some(w)
    case Builder(b) => e == Build(b)
    case Notifier => e.Notify? || e.Step?
  }

  /** The thread stands where it stood; what is said of jobs and builders stays said. */
  ghost predicate Undisturbed(t: Thread, a: State, b: State) {
    && HT.Later(a.ht, b.ht)
    && |a.builders| <= |b.builders|
    && match t
       case Hasher(w) => w < |a.ht.workers| && b.ht.workers[w] == a.ht.workers[w]
       case Builder(k) => k < |a.builders| && b.builders[k] == a.builders[k]
       case Notifier => b.notifier == a.notifier && b.loaded == a.loaded && b.ctr == a.ctr
  }

  ghost predicate Exists(t: Thread, s: State) {
    (t.Hasher? ==> t.w < |s.ht.workers|) && (t.Builder? ==> t.b < |s.builders|)
  }

  lemma OthersDoNotDisturb(epochOf: nat -> nat, s: State, e: Event, t: Thread)
    requires WellFormed(s) && Enabled(epochOf, s, e) && Exists(t, s) && !Own(t, e) && HT.QueueOk(s.ht)
    ensures Undisturbed(t, s, Next(epochOf, s, e))
  {
    if e.Hash? {
      HT.NextLater(s.ht, e.h);
    }
  }

  lemma NextWellFormed(epochOf: nat -> nat, s: State, e: Event)
    requires WellFormed(s) && Enabled(epochOf, s, e)
    ensures WellFormed(Next(epochOf, s, e))
  {
  }

  class PpHashpool {
    var s: State
    const epochOf: nat -> nat
    /** How many hash threads the pool has, and the run so far. */
    ghost const threads: nat
    ghost var run: seq<State>

    ghost predicate Valid()
      reads this
    {
      EpochFunction(epochOf) && WellFormed(s) && Recorded(epochOf, threads, run) && s == run[|run| - 1]
    }

    constructor (epochOf: nat -> nat, threads: nat)
      requires EpochFunction(epochOf)
      ensures Valid() && s == Init(threads) && this.epochOf == epochOf && this.threads == threads
    {
      s, this.epochOf, this.threads, run := Init(threads), epochOf, threads, [Init(threads)];
    }

    lemma InvHere()
      requires Valid()
      ensures Inv(epochOf, s)
    {
      RecordedIsRun(epochOf, threads, run);
      RunInv(epochOf, threads, run, |run| - 1);
    }

    method Do(e: Event)
      requires Valid() && Enabled(epochOf, s, e)
      modifies this`s, this`run
      ensures Valid() && run == old(run) + [s] && s == Next(epochOf, old(s), e)
    {
      NextWellFormed(epochOf, s, e);
      assert StepTo(epochOf, s, Next(epochOf, s, e));
      RecordMore(epochOf, threads, run, Next(epochOf, s, e));
      s := Next(epochOf, s, e);
      run := run + [s];
    }

    /** The other threads take any number of steps. */
    method Others(t: Thread)
      requires Valid() && Exists(t, s)
      modifies this`s, this`run
      ensures Valid() && old(run) <= run && Undisturbed(t, old(s), s)
    {
      var n: nat :| true;
      for i := 0 to n
        invariant Valid() && old(run) <= run && Undisturbed(t, old(s), s)
      {
        var e: Event :| true;
        if Enabled(epochOf, s, e) && !Own(t, e) {
          InvHere();
          OthersDoNotDisturb(epochOf, s, e, t);
          Do(e);
        }
      }
    }

    /** `dataset_thd_main`, from its start to its end, or for as long as it waits for the lock. */
    method DatasetThdMain(b: nat) returns (done: bool)
      requires Valid() && b < |s.builders| && s.builders[b].Start? && s.builders[b].i < 2
      modifies this`s, this`run
      ensures Valid() && old(run) <= run && b < |s.builders|
      ensures if done then s.builders[b].Done?
        else
          && s.builders[b] == old(s.builders[b])
          && (s.writer[s.builders[b].i].Some? || !FreeOfReaders(s, s.builders[b].i))
    {
      var i := s.builders[b].i;
      Others(Builder(b));
      if s.writer[i].Some? || !FreeOfReaders(s, i) {
        return false;
      }
      Do(Build(b));                         // the lock
      Others(Builder(b));
      var epoch := s.loaded[i];
      Do(Build(b));
      Rebuild(b, i, epoch);
      Release(b);
      return true;
    }

    method Release(b: nat)
      requires Valid() && b < |s.builders| && s.builders[b].Published?
      modifies this`s, this`run
      ensures Valid() && old(run) <= run && b < |s.builders| && s.builders[b].Done?
    {
      Others(Builder(b));
      InvHere();
      assert BuilderOk(s, b);
      Do(Build(b));
    }

    /** From the snapshot of the epoch to its publication. */
    method Rebuild(b: nat, i: nat, epoch: nat)
      requires Valid() && b < |s.builders| && i < 2 && s.builders[b] == Snapped(i, epoch)
      modifies this`s, this`run
      ensures Valid() && old(run) <= run && b < |s.builders| && s.builders[b] == Published(i) && s.ready[i] == epoch
    {
      Others(Builder(b));
      Do(Build(b));                         // the old context
      Others(Builder(b));
      Do(Build(b));                         // the new one
      assert s.ptr[i].Some? && s.ptr[i].value.epoch == epoch;
      Others(Builder(b));
      Do(Build(b));
    }

    /** `has_dataset`, then the rest of `notify_epoch` if it says no; the slots end up loaded as the ring
        says, whatever happens meanwhile, and a slot that changes hands has just been given a builder. */
    method NotifyEpoch(e: nat, rest: seq<nat>)
      requires Valid() && s.notifier == Look(e, 0, rest)
      modifies this`s, this`run
      ensures Valid() && old(run) <= run && s.notifier == NextEpoch(rest)
      ensures Ring(s.loaded, s.ctr) == AfterEpoch(Ring(old(s.loaded), old(s.ctr)), e)
      ensures e !in old(s.loaded) ==> s.builders != [] && s.builders[|s.builders| - 1] == Start(old(s.ctr) % 2)
    {
      var found := false;
      var k := 0;
      while k < 2 && !found
        invariant Valid() && old(run) <= run && k <= 2 && s.loaded == old(s.loaded) && s.ctr == old(s.ctr)
        invariant e !in s.loaded[..k]
        invariant s.notifier == if found then NextEpoch(rest) else if k < 2 then Look(e, k, rest) else ProgPowPool.Notifier.Take(e, rest)
        invariant found ==> e in s.loaded
        decreases 2 - k, !found
      {
        Others(Notifier);
        found := s.loaded[k] == e;
        Do(Step);
        if !found {
          assert s.loaded[..k + 1] == s.loaded[..k] + [s.loaded[k]];
          k := k + 1;
        }
      }
      if !found {
        assert s.loaded[..2] == s.loaded;
        Assign(e, rest);
      }
    }

    /** The slot next in turn gets the epoch, and a builder. */
    method Assign(e: nat, rest: seq<nat>)
      requires Valid() && s.notifier == ProgPowPool.Notifier.Take(e, rest)
      modifies this`s, this`run
      ensures Valid() && old(run) <= run && s.notifier == NextEpoch(rest)
      ensures Ring(s.loaded, s.ctr) == Ring(old(s.loaded)[old(s.ctr) % 2 := e], (old(s.ctr) + 1) % TWO64)
      ensures s.builders != [] && s.builders[|s.builders| - 1] == Start(old(s.ctr) % 2)
    {
      Others(Notifier);
      Do(Step);                             // the counter
      Others(Notifier);
      Do(Step);                             // ready_epoch
      LoadAndSpawn(s.notifier.i, e, rest);
    }

    method LoadAndSpawn(i: nat, e: nat, rest: seq<nat>)
      requires Valid() && s.notifier == ProgPowPool.Notifier.Load(i, e, rest)
      modifies this`s, this`run
      ensures Valid() && old(run) <= run && s.notifier == NextEpoch(rest)
      ensures i < 2 && s.loaded == old(s.loaded)[i := e] && s.ctr == old(s.ctr)
      ensures s.builders != [] && s.builders[|s.builders| - 1] == Start(i)
    {
      Others(Notifier);
      Do(Step);                             // loaded_epoch
      Others(Notifier);
      Do(Step);                             // the thread
    }

    method NotifyBlock(block: nat)
      requires Valid() && s.notifier.Rest?
      modifies this`s, this`run
      ensures Valid() && old(run) <= run && s.notifier.Rest?
      ensures Ring(s.loaded, s.ctr) == AfterBlock(epochOf, Ring(old(s.loaded), old(s.ctr)), block)
    {
      Do(Notify(block));
      NotifyEpoch(epochOf(block), [epochOf(block + 1)]);
      assert s.notifier == Look(epochOf(block + 1), 0, []);
      NotifyEpoch(epochOf(block + 1), []);
    }

    /** The slot that publishes the job's epoch, or 2. */
    method Scan(w: nat, j: nat) returns (i: nat)
      requires Valid() && w < |s.ht.workers| && s.ht.workers[w] == HT.Scan(j, 0)
      modifies this`s, this`run
      ensures Valid() && old(run) <= run && i <= 2 && w < |s.ht.workers|
      ensures s.ht.workers[w] == if i < 2 then HT.Lock(j, i) else HT.Miss(j)
    {
      i := 0;
      while i < 2
        invariant Valid() && old(run) <= run && i <= 2 && w < |s.ht.workers|
        invariant s.ht.workers[w] == if i < 2 then HT.Scan(j, i) else HT.Miss(j)
      {
        Others(Hasher(w));
        var hit := s.ready[i] == Key(epochOf, s, j);
        Do(Hash(HT.Read(w, hit)));
        if hit {
          return;
        }
        i := i + 1;
      }
    }

    /** Under the shared lock: the pointer followed is never null, and what it points to stays. */
    method HashOn(w: nat, j: nat, i: nat)
      requires Valid() && w < |s.ht.workers| && s.ht.workers[w] == HT.Ready(j, i)
      modifies this`s, this`run
      ensures Valid() && old(run) <= run && w < |s.ht.workers| && s.ht.workers[w] == HT.Reply(j, Some(i))
      ensures j < |s.ht.jobs| && s.ht.jobs[j].answer.Hashed?
      ensures s.ht.jobs[j].answer.built.epoch == epochOf(s.ht.jobs[j].arg)
    {
      Others(Hasher(w));
      InvHere();
      assert WorkerOk(epochOf, s, w);
      var c := s.ptr[i].value;
      Do(Hash(HT.Begin(w, c)));
      FinishOn(w, j, i, c);
    }

    method FinishOn(w: nat, j: nat, i: nat, c: Ctx)
      requires Valid() && w < |s.ht.workers| && s.ht.workers[w] == HT.Hashing(j, i, c)
      modifies this`s, this`run
      ensures Valid() && old(run) <= run && w < |s.ht.workers| && s.ht.workers[w] == HT.Reply(j, Some(i))
      ensures j < |s.ht.jobs| && s.ht.jobs[j].answer.Hashed?
      ensures s.ht.jobs[j].answer.built.epoch == epochOf(s.ht.jobs[j].arg)
    {
      Others(Hasher(w));
      InvHere();
      assert WorkerOk(epochOf, s, w) && HT.Holds(s.ht, w, j);
      Do(Hash(HT.Finish(w, c in s.live)));
    }

    /** From taking the shared lock to writing the answer; false while it waits for the lock. */
    method UnderLock(w: nat, j: nat, i: nat) returns (got: bool)
      requires Valid() && i < 2 && w < |s.ht.workers| && s.ht.workers[w] == HT.Lock(j, i)
      modifies this`s, this`run
      ensures Valid() && old(run) <= run && w < |s.ht.workers|
      ensures got ==> s.ht.workers[w] == HT.Reply(j, Some(i))
      ensures !got ==> s.ht.workers[w] == HT.Lock(j, i) && s.writer[i].Some?
    {
      Others(Hasher(w));
      if s.writer[i].Some? {
        return false;
      }
      Do(Hash(HT.TakeLock(w)));
      Others(Hasher(w));
      var same := s.ready[i] == Key(epochOf, s, j);
      Do(Hash(HT.Again(w, same)));
      if same {
        HashOn(w, j, i);
      } else {
        Others(Hasher(w));
        Fail(w, j);
      }
      return true;
    }

    /** `ready.set_value()`, after which the job is left alone. */
    method SetValue(w: nat, j: nat)
      requires Valid() && w < |s.ht.workers| && s.ht.workers[w].Reply? && s.ht.workers[w].j == j
      modifies this`s, this`run
      ensures Valid() && old(run) <= run && w < |s.ht.workers|
      ensures s.ht.workers[w] ==
        if old(s).ht.workers[w].lk.Some? then HT.Release(old(s).ht.workers[w].lk.value) else HT.Idle
      ensures j < |s.ht.jobs| && s.ht.jobs[j].fulfilled > 0 && s.ht.jobs[j].taker == Some(w)
    {
      Others(Hasher(w));
      InvHere();
      assert HT.Holds(s.ht, w, j);
      Do(Hash(HT.SetValue(w)));
    }

    /** Hashed over a context of its epoch, or refused. */
    ghost predicate WellAnswered(j: nat)
      reads this
      requires j < |s.ht.jobs|
    {
      match s.ht.jobs[j].answer
      case Hashed(c) => c.epoch == epochOf(s.ht.jobs[j].arg)
      case AllOnes => true
      case _ => false
    }

    lemma Answered(j: nat)
      requires Valid() && j < |s.ht.jobs| && s.ht.jobs[j].fulfilled > 0
      ensures s.ht.jobs[j].fulfilled == 1 && WellAnswered(j)
    {
      InvHere();
      HT.JobsAccounted(s.ht, j);
      assert JobOk(epochOf, s, j);
    }

    /** A job, unless the thread waits for one. */
    method PopJob(w: nat) returns (j: Option<nat>, ghost k: nat)
      requires Valid() && w < |s.ht.workers| && s.ht.workers[w].Idle?
      modifies this`s, this`run
      ensures Valid() && old(run) <= run && w < |s.ht.workers| && s.ht.workers[w] == if j.Some? then HT.Scan(j.value, 0) else HT.Idle
      ensures if j.Some? then old(HT.Popped(s.ht)) <= j.value else s.ht.queue == []
      ensures j.Some? ==> |old(run)| <= k && PoppedAt(run, k, j.value)
    {
      Others(Hasher(w));
      if s.ht.queue == [] {
        return None, 0;
      }
      InvHere();
      j, k := Some(s.ht.queue[0]), |run|;
      Do(Hash(HT.Pop(w)));
    }

    /** The lock is released last, at the end of its scope. */
    method SetValueAndUnlock(w: nat, j: nat)
      requires Valid() && w < |s.ht.workers| && s.ht.workers[w].Reply? && s.ht.workers[w].j == j
      requires s.ht.workers[w].lk.Some?
      modifies this`s, this`run
      ensures Valid() && old(run) <= run && w < |s.ht.workers| && s.ht.workers[w].Idle?
      ensures j < |s.ht.jobs| && s.ht.jobs[j].fulfilled == 1 && WellAnswered(j)
      ensures s.ht.jobs[j].taker == Some(w)
    {
      SetValue(w, j);
      Others(Hasher(w));
      Do(Hash(HT.Unlock(w)));
      Answered(j);
    }

    /** For a job to be queued, or for a builder to release the slot's lock. */
    ghost predicate Waits(w: nat)
      reads this
      requires WellFormed(s) && w < |s.ht.workers|
    {
      match s.ht.workers[w]
      case Idle => s.ht.queue == []
      case Lock(_, i) => i < 2 && s.writer[i].Some?
      case _ => false
    }

    /** The job popped at step `k` was hashed if its epoch was published all the time since then, refused if it
        never was. */
    ghost predicate AsPublished(k: nat, j: nat)
      reads this
      requires j < |s.ht.jobs|
    {
      && PoppedAt(run, k, j) && k < |run|
      && var epoch := epochOf(s.ht.jobs[j].arg);
         Unchanging(run, k, |run| - 1, epoch) ==> (s.ht.jobs[j].answer.Hashed? <==> true in Publishing(run[k], epoch))
    }

    lemma AnsweredAsPublished(k: nat, j: nat)
      requires Valid() && PoppedAt(run, k, j) && j < |s.ht.jobs| && s.ht.jobs[j].fulfilled > 0
      ensures AsPublished(k, j)
    {
      RecordedIsRun(epochOf, threads, run);
      SameJobSince(epochOf, threads, run, k, |run| - 1, j);
      var epoch := epochOf(s.ht.jobs[j].arg);
      if Unchanging(run, k, |run| - 1, epoch) {
        PublishedIsHashed(epochOf, threads, run, k, |run| - 1, j);
      }
    }

    /** One turn of `hash_thd_main`; it may wait for a job, and for the lock.  When it is over, the job it
        popped, at step `k`, has been answered, and hashed if it could be. */
    method ServeJob(w: nat) returns (done: bool, ghost j: nat, ghost k: nat)
      requires Valid() && w < |s.ht.workers| && s.ht.workers[w].Idle?
      modifies this`s, this`run
      ensures Valid() && old(run) <= run
      ensures w < |s.ht.workers| && if done then s.ht.workers[w].Idle? else Waits(w)
      ensures done ==> j < |s.ht.jobs| && s.ht.jobs[j].fulfilled == 1 && WellAnswered(j)
      ensures done ==> old(HT.Popped(s.ht)) <= j && s.ht.jobs[j].taker == Some(w)
      ensures done ==> |old(run)| <= k && AsPublished(k, j)
    {
      var popped;
      popped, k := PopJob(w);
      if popped.None? {
        return false, 0, 0;
      }
      var job := popped.value;
      j := job;
      done := Serve(w, job);
      if done {
        AnsweredAsPublished(k, job);
      }
    }

    /** From the scan to the end of the turn. */
    method Serve(w: nat, job: nat) returns (done: bool)
      requires Valid() && w < |s.ht.workers| && s.ht.workers[w] == HT.Scan(job, 0)
      modifies this`s, this`run
      ensures Valid() && old(run) <= run
      ensures w < |s.ht.workers| && if done then s.ht.workers[w].Idle? else Waits(w)
      ensures done ==> job < |s.ht.jobs| && s.ht.jobs[job].fulfilled == 1 && WellAnswered(job)
      ensures done ==> s.ht.jobs[job].taker == Some(w)
    {
      var i := Scan(w, job);
      if i == 2 {
        Others(Hasher(w));
        Fail(w, job);
        SetValue(w, job);
        Answered(job);
        return true;
      }
      var got := UnderLock(w, job, i);
      if !got {
        return false;
      }
      SetValueAndUnlock(w, job);
      return true;
    }

    /** All ones and an error. */
    method Fail(w: nat, j: nat)
      requires Valid() && w < |s.ht.workers|
      requires s.ht.workers[w] == HT.Miss(j) || (s.ht.workers[w].Swapped? && s.ht.workers[w].j == j)
      modifies this`s, this`run
      ensures Valid() && old(run) <= run && w < |s.ht.workers| && old(s).ht.workers[w].Job() == Some(j)
      ensures s.ht.workers[w] == HT.Reply(j, if old(s).ht.workers[w].Swapped? then Some(old(s).ht.workers[w].i) else None)
      ensures j < |s.ht.jobs| && s.ht.jobs[j].answer.AllOnes?
    {
      InvHere();
      assert HT.Holds(s.ht, w, j);
      Do(Hash(HT.Fail(w)));
    }
  }
}
