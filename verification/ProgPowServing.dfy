/** When a job of the ProgPow pool is hashed, and when it is refused. */
module ProgPowServing {
  import opened EpochRing
  import opened ProgPowPool
  import opened ProgPowSettling
  import HT = HashThreads

  /** Which slots publish an epoch. */
  function Publishing(s: State, epoch: nat): (pub: seq<bool>)
    ensures |pub| == 2
  {
    if WellFormed(s) then [s.ready[0] == epoch, s.ready[1] == epoch] else [false, false]
  }

  /** From step `k` to step `m` the same slots publish the epoch. */
  ghost predicate Unchanging(run: seq<State>, k: nat, m: nat, epoch: nat)
    requires k <= m < |run|
  {
    forall x {:trigger Publishing(run[x], epoch)} :: k <= x <= m ==> Publishing(run[x], epoch) == Publishing(run[k], epoch)
  }

  /** Step `k` pops the job. */
  predicate PoppedAt(run: seq<State>, k: nat, j: nat) {
    0 < k < |run| && HT.Popped(run[k - 1].ht) <= j < HT.Popped(run[k].ht)
  }

  ghost function Anything(): Ctx -> bool {
    c => true
  }

  /** The job's thread is where it should be. */
  ghost predicate OnTrack(s: State, j: nat, arg: nat, pub: seq<bool>)
    requires |pub| == 2
  {
    HT.Inv(s.ht) && j < |s.ht.jobs| && s.ht.jobs[j].arg == arg && HT.Steady(s.ht, j, pub, Anything())
  }

  lemma SteadyStep(epochOf: nat -> nat, s: State, e: HT.Event<Ctx>, j: nat, pub: seq<bool>)
    requires WellFormed(s) && HT.Inv(s.ht) && Enabled(epochOf, s, Hash(e)) && |pub| == 2
    requires HT.Popped(s.ht) <= j || (j < |s.ht.jobs| && Publishing(s, epochOf(s.ht.jobs[j].arg)) == pub)
    requires HT.Steady(s.ht, j, pub, Anything())
    ensures HT.Steady(HT.Next(s.ht, e), j, pub, Anything())
  {
    HT.NextSteady(s.ht, e, j, pub, Anything());
  }

  lemma OnTrackFromPop(epochOf: nat -> nat, s: State, t: State, j: nat, pub: seq<bool>)
    requires HT.Inv(s.ht) && StepTo(epochOf, s, t) && |pub| == 2 && HT.Popped(s.ht) <= j < HT.Popped(t.ht)
    ensures j < |t.ht.jobs| && OnTrack(t, j, t.ht.jobs[j].arg, pub)
  {
    var e :| Enabled(epochOf, s, e) && t == Next(epochOf, s, e);
    HT.NextInv(s.ht, e.h);
    HT.NotYetPopped(s.ht, j, pub, Anything());
    SteadyStep(epochOf, s, e.h, j, pub);
  }

  lemma StaysOnTrack(epochOf: nat -> nat, s: State, t: State, j: nat, arg: nat, pub: seq<bool>)
    requires StepTo(epochOf, s, t) && |pub| == 2 && OnTrack(s, j, arg, pub)
    requires Publishing(s, epochOf(arg)) == pub
    ensures OnTrack(t, j, arg, pub)
  {
    var e :| Enabled(epochOf, s, e) && t == Next(epochOf, s, e);
    if e.Hash? {
      HT.NextInv(s.ht, e.h);
      HT.NextLater(s.ht, e.h);
      SteadyStep(epochOf, s, e.h, j, pub);
    }
  }

  lemma ThreadsInv(epochOf: nat -> nat, threads: nat, run: seq<State>, k: nat)
    requires EpochFunction(epochOf) && Run(epochOf, threads, run) && k < |run|
    ensures WellFormed(run[k]) && HT.Inv(run[k].ht)
  {
    RunInv(epochOf, threads, run, k);
  }

  lemma StartsOnTrack(epochOf: nat -> nat, threads: nat, run: seq<State>, k: nat, j: nat, pub: seq<bool>)
    requires EpochFunction(epochOf) && Run(epochOf, threads, run) && PoppedAt(run, k, j) && |pub| == 2
    ensures j < |run[k].ht.jobs| && OnTrack(run[k], j, run[k].ht.jobs[j].arg, pub)
  {
    var s, u := run[k - 1], run[k];
    ThreadsInv(epochOf, threads, run, k - 1);
    assert StepTo(epochOf, s, u);
    OnTrackFromPop(epochOf, s, u, j, pub);
  }

  ghost predicate StepAt(epochOf: nat -> nat, run: seq<State>, m: nat) {
    0 < m < |run| && StepTo(epochOf, run[m - 1], run[m])
  }

  /** A run, with its steps written so that they are looked at one at a time. */
  ghost predicate Recorded(epochOf: nat -> nat, threads: nat, run: seq<State>) {
    && run != [] && run[0] == Init(threads)
    && forall m {:trigger StepAt(epochOf, run, m)} :: 0 < m < |run| ==> StepAt(epochOf, run, m)
  }

  lemma RecordedIsRun(epochOf: nat -> nat, threads: nat, run: seq<State>)
    requires Recorded(epochOf, threads, run)
    ensures Run(epochOf, threads, run)
  {
    forall m | 0 < m < |run| ensures StepTo(epochOf, run[m - 1], run[m]) {
      assert StepAt(epochOf, run, m);
    }
  }

  lemma RecordMore(epochOf: nat -> nat, threads: nat, run: seq<State>, t: State)
    requires Recorded(epochOf, threads, run) && StepTo(epochOf, run[|run| - 1], t)
    ensures Recorded(epochOf, threads, run + [t])
  {
    var more := run + [t];
    forall m {:trigger StepAt(epochOf, more, m)} | 0 < m < |more| ensures StepAt(epochOf, more, m) {
      assert m < |run| ==> StepAt(epochOf, run, m);
    }
  }

  lemma {:induction false} SteadyRun(
    epochOf: nat -> nat, run: seq<State>, k: nat, m: nat, j: nat, arg: nat, pub: seq<bool>)
    requires k <= m < |run| && |pub| == 2 && OnTrack(run[k], j, arg, pub)
    requires forall x {:trigger Publishing(run[x], epochOf(arg))} :: k <= x <= m ==> Publishing(run[x], epochOf(arg)) == pub
    requires forall x {:trigger StepAt(epochOf, run, x)} :: k < x <= m ==> StepAt(epochOf, run, x)
    ensures OnTrack(run[m], j, arg, pub)
    decreases m
  {
    if m > k {
      SteadyRun(epochOf, run, k, m - 1, j, arg, pub);
      assert StepAt(epochOf, run, m);
      StaysOnTrack(epochOf, run[m - 1], run[m], j, arg, pub);
    }
  }

  /** In every interleaving: if from a job's pop on the same slots publish the job's epoch, then it is hashed, on a
      context of that epoch, if there is such a slot, and refused if there is none. */
  lemma PublishedIsHashed(epochOf: nat -> nat, threads: nat, run: seq<State>, k: nat, m: nat, j: nat)
    requires EpochFunction(epochOf) && Run(epochOf, threads, run) && PoppedAt(run, k, j) && k <= m < |run|
    requires Unchanging(run, k, m, epochOf(run[k].ht.jobs[j].arg))
    ensures var epoch := epochOf(run[k].ht.jobs[j].arg);
      && j < |run[m].ht.jobs| && run[m].ht.jobs[j].arg == run[k].ht.jobs[j].arg && WellFormed(run[k])
      && (run[m].ht.jobs[j].fulfilled > 0 ==>
            if run[k].ready[0] == epoch || run[k].ready[1] == epoch
            then run[m].ht.jobs[j].answer.Hashed? && run[m].ht.jobs[j].answer.built.epoch == epoch
            else run[m].ht.jobs[j].answer.AllOnes?)
  {
    var arg := run[k].ht.jobs[j].arg;
    StartsOnTrack(epochOf, threads, run, k, j, Publishing(run[k], epochOf(arg)));
    assert forall x {:trigger StepAt(epochOf, run, x)} :: k < x <= m ==> StepAt(epochOf, run, x);
    SteadyRun(epochOf, run, k, m, j, arg, Publishing(run[k], epochOf(arg)));
    ThreadsInv(epochOf, threads, run, k);
    HashesUseTheJobsEpoch(epochOf, threads, run, m);
  }

  /** A job popped asks for the same ever after. */
  lemma {:induction false} SameJobSince(epochOf: nat -> nat, threads: nat, run: seq<State>, k: nat, m: nat, j: nat)
    requires EpochFunction(epochOf) && Run(epochOf, threads, run) && k <= m < |run| && j < HT.Popped(run[k].ht)
    ensures j < |run[k].ht.jobs| && j < |run[m].ht.jobs| && run[m].ht.jobs[j].arg == run[k].ht.jobs[j].arg
    decreases m
  {
    if m > k {
      SameJobSince(epochOf, threads, run, k, m - 1, j);
      ThreadsInv(epochOf, threads, run, m - 1);
      assert StepTo(epochOf, run[m - 1], run[m]);
      SameJob(epochOf, run[m - 1], run[m], j);
    }
  }

  lemma SameJob(epochOf: nat -> nat, s: State, t: State, j: nat)
    requires HT.Inv(s.ht) && StepTo(epochOf, s, t) && j < |s.ht.jobs|
    ensures j < |t.ht.jobs| && t.ht.jobs[j].arg == s.ht.jobs[j].arg
  {
    var e :| Enabled(epochOf, s, e) && t == Next(epochOf, s, e);
    if e.Hash? {
      HT.NextLater(s.ht, e.h);
    }
  }

  // ---------------------------------------------------------------- when all is quiet

  lemma QuietStep(epochOf: nat -> nat, s: State, t: State)
    requires StepTo(epochOf, s, t) && Quiet(s, 0) && Quiet(s, 1)
    ensures WellFormed(t) && t.ready == s.ready
  {
  }

  ghost predicate QuietFrom(run: seq<State>, k: nat, m: nat)
    requires k <= m < |run|
  {
    forall x :: k <= x <= m ==> Quiet(run[x], 0) && Quiet(run[x], 1)
  }

  lemma {:induction false} QuietIsUnchanging(epochOf: nat -> nat, threads: nat, run: seq<State>, k: nat, m: nat)
    requires EpochFunction(epochOf) && Run(epochOf, threads, run) && k <= m < |run| && QuietFrom(run, k, m)
    ensures WellFormed(run[k]) && WellFormed(run[m]) && run[m].ready == run[k].ready
  {
    RunInv(epochOf, threads, run, m);
    if m > k {
      QuietIsUnchanging(epochOf, threads, run, k, m - 1);
      assert StepTo(epochOf, run[m - 1], run[m]);
      QuietStep(epochOf, run[m - 1], run[m]);
    }
  }

  /** So after a run whose blocks never went backwards, with no rebuild and no reassignment going on from its pop to
      its fulfilment, a job for the last block or for the next is hashed, not refused. */
  lemma QuietPoolHashesCurrentBlocks(
    epochOf: nat -> nat, threads: nat, run: seq<State>, k: nat, m: nat, j: nat)
    requires EpochFunction(epochOf) && Run(epochOf, threads, run) && PoppedAt(run, k, j) && k <= m < |run|
    requires run[k].notifier.Rest? && InOrder(run[k]) && QuietFrom(run, k, m)
    requires var last := run[k].blocks[|run[k].blocks| - 1];
      run[k].ht.jobs[j].arg == last || run[k].ht.jobs[j].arg == last + 1
    ensures j < |run[m].ht.jobs|
    ensures run[m].ht.jobs[j].fulfilled > 0 ==>
      run[m].ht.jobs[j].answer.Hashed? && run[m].ht.jobs[j].answer.built.epoch == epochOf(run[k].ht.jobs[j].arg)
  {
    var block := run[k].ht.jobs[j].arg;
    forall x | k <= x <= m ensures Publishing(run[x], epochOf(block)) == Publishing(run[k], epochOf(block)) {
      QuietIsUnchanging(epochOf, threads, run, k, x);
    }
    QuietPoolServesCurrentBlocks(epochOf, threads, run, k, block);
    PublishedIsHashed(epochOf, threads, run, k, m, j);
  }
}
