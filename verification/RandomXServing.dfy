/** When a job of the RandomX pool is hashed, and when it is refused. */
module RandomXServing {
  import opened RandomXPool
  import opened RandomXRuns
  import HT = HashThreads

  /** Which slots publish an id. */
  function Publishing(s: State, id: nat): (pub: seq<bool>)
    ensures |pub| == 2
  {
    if WellFormed(s) then [s.ready[0] == id, s.ready[1] == id] else [false, false]
  }

  /** From step `k` to step `m` the same slots publish the id. */
  ghost predicate Unchanging(run: seq<State>, k: nat, m: nat, id: nat)
    requires k <= m < |run|
  {
    forall x {:trigger Publishing(run[x], id)} :: k <= x <= m ==> Publishing(run[x], id) == Publishing(run[k], id)
  }

  /** Step `k` pops the job. */
  predicate PoppedAt(run: seq<State>, k: nat, j: nat) {
    0 < k < |run| && HT.Popped(run[k - 1].ht) <= j < HT.Popped(run[k].ht)
  }

  /** What slots that publish the id have in their caches is good. */
  ghost predicate CachesGood(s: State, id: nat, good: Seed -> bool) {
    WellFormed(s) ==> forall i: nat :: i < 2 && s.ready[i] == id && s.cache[i].Some? ==> good(s.cache[i].value)
  }

  /** The job's thread is where it should be. */
  ghost predicate OnTrack(s: State, j: nat, arg: nat, pub: seq<bool>, good: Seed -> bool)
    requires |pub| == 2
  {
    HT.Inv(s.ht) && j < |s.ht.jobs| && s.ht.jobs[j].arg == arg && HT.Steady(s.ht, j, pub, good)
  }

  lemma SteadyStep(s: State, e: HT.Event<Seed>, j: nat, pub: seq<bool>, good: Seed -> bool)
    requires WellFormed(s) && HT.Inv(s.ht) && Enabled(s, Hash(e)) && |pub| == 2
    requires HT.Popped(s.ht) <= j ||
      (j < |s.ht.jobs| && Publishing(s, s.ht.jobs[j].arg) == pub && CachesGood(s, s.ht.jobs[j].arg, good))
    requires HT.Steady(s.ht, j, pub, good)
    ensures HT.Steady(HT.Next(s.ht, e), j, pub, good)
  {
    HT.NextSteady(s.ht, e, j, pub, good);
  }

  lemma OnTrackFromPop(s: State, t: State, j: nat, pub: seq<bool>, good: Seed -> bool)
    requires HT.Inv(s.ht) && StepTo(s, t) && |pub| == 2 && HT.Popped(s.ht) <= j < HT.Popped(t.ht)
    ensures j < |t.ht.jobs| && OnTrack(t, j, t.ht.jobs[j].arg, pub, good)
  {
    var e :| Enabled(s, e) && t == Next(s, e);
    HT.NextInv(s.ht, e.h);
    HT.NotYetPopped(s.ht, j, pub, good);
    SteadyStep(s, e.h, j, pub, good);
  }

  lemma StaysOnTrack(s: State, t: State, j: nat, arg: nat, pub: seq<bool>, good: Seed -> bool)
    requires StepTo(s, t) && |pub| == 2 && OnTrack(s, j, arg, pub, good)
    requires Publishing(s, arg) == pub && CachesGood(s, arg, good)
    ensures OnTrack(t, j, arg, pub, good)
  {
    var e :| Enabled(s, e) && t == Next(s, e);
    if e.Hash? {
      HT.NextInv(s.ht, e.h);
      HT.NextLater(s.ht, e.h);
      SteadyStep(s, e.h, j, pub, good);
    }
  }

  lemma ThreadsInv(threads: nat, run: seq<State>, k: nat)
    requires Run(threads, run) && k < |run|
    ensures WellFormed(run[k]) && HT.Inv(run[k].ht)
  {
    RunInv(threads, run, k);
  }

  lemma StartsOnTrack(threads: nat, run: seq<State>, k: nat, j: nat, pub: seq<bool>, good: Seed -> bool)
    requires Run(threads, run) && PoppedAt(run, k, j) && |pub| == 2
    ensures j < |run[k].ht.jobs| && OnTrack(run[k], j, run[k].ht.jobs[j].arg, pub, good)
  {
    var s, u := run[k - 1], run[k];
    ThreadsInv(threads, run, k - 1);
    assert StepTo(s, u);
    OnTrackFromPop(s, u, j, pub, good);
  }

  ghost predicate StepAt(run: seq<State>, m: nat) {
    0 < m < |run| && StepTo(run[m - 1], run[m])
  }

  /** A run, with its steps written so that they are looked at one at a time. */
  ghost predicate Recorded(threads: nat, run: seq<State>) {
    && run != [] && Init(threads, run[0])
    && forall m {:trigger StepAt(run, m)} :: 0 < m < |run| ==> StepAt(run, m)
  }

  lemma RecordedIsRun(threads: nat, run: seq<State>)
    requires Recorded(threads, run)
    ensures Run(threads, run)
  {
    forall m | 0 < m < |run| ensures StepTo(run[m - 1], run[m]) {
      assert StepAt(run, m);
    }
  }

  lemma RecordMore(threads: nat, run: seq<State>, t: State)
    requires Recorded(threads, run) && StepTo(run[|run| - 1], t)
    ensures Recorded(threads, run + [t])
  {
    var more := run + [t];
    forall m {:trigger StepAt(more, m)} | 0 < m < |more| ensures StepAt(more, m) {
      assert m < |run| ==> StepAt(run, m);
    }
  }

  lemma {:induction false} SteadyRun(
    run: seq<State>, k: nat, m: nat, j: nat, arg: nat, pub: seq<bool>, good: Seed -> bool)
    requires k <= m < |run| && |pub| == 2 && OnTrack(run[k], j, arg, pub, good)
    requires forall x {:trigger Publishing(run[x], arg)} :: k <= x <= m ==> Publishing(run[x], arg) == pub
    requires forall x {:trigger CachesGood(run[x], arg, good)} :: k <= x <= m ==> CachesGood(run[x], arg, good)
    requires forall x {:trigger StepAt(run, x)} :: k < x <= m ==> StepAt(run, x)
    ensures OnTrack(run[m], j, arg, pub, good)
    decreases m
  {
    if m > k {
      SteadyRun(run, k, m - 1, j, arg, pub, good);
      assert StepAt(run, m);
      StaysOnTrack(run[m - 1], run[m], j, arg, pub, good);
    }
  }

  lemma NeverGarbage(threads: nat, run: seq<State>, m: nat, j: nat)
    requires Run(threads, run) && m < |run| && j < |run[m].ht.jobs|
    ensures run[m].ht.jobs[j].answer != HT.Garbage
  {
    OrderlyHashesUseTheJobsSeed(threads, run, m);
  }

  /** In every interleaving, orderly or not: if from a job's pop on the same slots publish the job's id, then it is
      hashed if there is such a slot, and refused if there is none; and what can be said of the caches of such slots
      all along can be said of what it is hashed over. */
  lemma PublishedIsHashed(threads: nat, run: seq<State>, k: nat, m: nat, j: nat, good: Seed -> bool)
    requires Run(threads, run) && PoppedAt(run, k, j) && k <= m < |run|
    requires Unchanging(run, k, m, run[k].ht.jobs[j].arg)
    requires forall x {:trigger CachesGood(run[x], run[k].ht.jobs[j].arg, good)} ::
      k <= x <= m ==> CachesGood(run[x], run[k].ht.jobs[j].arg, good)
    ensures var id := run[k].ht.jobs[j].arg;
      && j < |run[m].ht.jobs| && run[m].ht.jobs[j].arg == id && WellFormed(run[k])
      && (run[m].ht.jobs[j].fulfilled > 0 ==>
            if run[k].ready[0] == id || run[k].ready[1] == id
            then run[m].ht.jobs[j].answer.Hashed? && good(run[m].ht.jobs[j].answer.built)
            else run[m].ht.jobs[j].answer.AllOnes?)
  {
    var arg := run[k].ht.jobs[j].arg;
    StartsOnTrack(threads, run, k, j, Publishing(run[k], arg), good);
    assert forall x {:trigger StepAt(run, x)} :: k < x <= m ==> StepAt(run, x);
    SteadyRun(run, k, m, j, arg, Publishing(run[k], arg), good);
    ThreadsInv(threads, run, k);
    NeverGarbage(threads, run, m, j);
  }

  /** A job popped asks for the same ever after. */
  lemma {:induction false} SameJobSince(threads: nat, run: seq<State>, k: nat, m: nat, j: nat)
    requires Run(threads, run) && k <= m < |run| && j < HT.Popped(run[k].ht)
    ensures j < |run[k].ht.jobs| && j < |run[m].ht.jobs| && run[m].ht.jobs[j].arg == run[k].ht.jobs[j].arg
    decreases m
  {
    if m > k {
      SameJobSince(threads, run, k, m - 1, j);
      ThreadsInv(threads, run, m - 1);
      assert StepTo(run[m - 1], run[m]);
      SameJob(run[m - 1], run[m], j);
    }
  }

  lemma SameJob(s: State, t: State, j: nat)
    requires HT.Inv(s.ht) && StepTo(s, t) && j < |s.ht.jobs|
    ensures j < |t.ht.jobs| && t.ht.jobs[j].arg == s.ht.jobs[j].arg
  {
    var e :| Enabled(s, e) && t == Next(s, e);
    if e.Hash? {
      HT.NextLater(s.ht, e.h);
    }
  }

  ghost function Anything(): Seed -> bool {
    seed => true
  }

  // ---------------------------------------------------------------- when all is quiet

  /** No builder is outstanding, and no call in progress. */
  ghost predicate Quiet(s: State) {
    s.caller.Rest? && FreeOfBuilders(s, 0) && FreeOfBuilders(s, 1)
  }

  ghost predicate QuietFrom(run: seq<State>, k: nat, m: nat)
    requires k <= m < |run|
  {
    forall x {:trigger Quiet(run[x])} :: k <= x <= m ==> Quiet(run[x])
  }

  lemma QuietStep(s: State, t: State)
    requires StepTo(s, t) && Quiet(s)
    ensures WellFormed(t) && t.ready == s.ready
  {
  }

  lemma {:induction false} QuietIsUnchanging(threads: nat, run: seq<State>, k: nat, m: nat)
    requires Run(threads, run) && k <= m < |run| && QuietFrom(run, k, m)
    ensures WellFormed(run[k]) && WellFormed(run[m]) && run[m].ready == run[k].ready
    decreases m
  {
    ThreadsInv(threads, run, m);
    if m > k {
      QuietIsUnchanging(threads, run, k, m - 1);
      assert StepTo(run[m - 1], run[m]);
      assert Quiet(run[m - 1]);
      QuietStep(run[m - 1], run[m]);
    }
  }

  ghost function Named(id: nat): Seed -> bool {
    seed => Id(seed) == id
  }

  lemma QuietCachesAreNamed(threads: nat, run: seq<State>, x: nat, id: nat)
    requires Run(threads, run) && x < |run| && Quiet(run[x]) && id != INVALID_ID
    ensures CachesGood(run[x], id, Named(id))
  {
    QuietSlotIsReady(threads, run, x, 0);
    QuietSlotIsReady(threads, run, x, 1);
    RunUnassigned(threads, run, x, 0);
    RunUnassigned(threads, run, x, 1);
  }

  /** In every run, orderly or not: with no rebuild and no call going on from its pop to its fulfilment, a job is
      hashed over a seed with its id if a slot publishes that id, and refused if none does. */
  lemma QuietPoolHashes(threads: nat, run: seq<State>, k: nat, m: nat, j: nat)
    requires Run(threads, run) && PoppedAt(run, k, j) && k <= m < |run| && QuietFrom(run, k, m)
    ensures WellFormed(run[k]) && j < |run[m].ht.jobs|
    ensures run[m].ht.jobs[j].fulfilled > 0 ==>
      if run[k].ht.jobs[j].arg in run[k].ready
      then run[m].ht.jobs[j].answer.Hashed? && Id(run[m].ht.jobs[j].answer.built) == run[k].ht.jobs[j].arg
      else run[m].ht.jobs[j].answer.AllOnes?
  {
    var id := run[k].ht.jobs[j].arg;
    RunInv(threads, run, k);
    assert JobOk(run[k], j);
    forall x | k <= x <= m ensures Publishing(run[x], id) == Publishing(run[k], id) {
      QuietIsUnchanging(threads, run, k, x);
    }
    forall x | k <= x <= m ensures CachesGood(run[x], id, Named(id)) {
      assert Quiet(run[x]);
      QuietCachesAreNamed(threads, run, x, id);
    }
    PublishedIsHashed(threads, run, k, m, j, Named(id));
  }
}
