/** What a caller of `calculate_dataset` can look at: the slot next in turn publishes the id it is loaded with.
    Calls made only then are orderly, whatever the builders are at; and nothing else that can be looked at would
    do, short of the builders themselves. */
module RandomXGuard {
  import opened RandomXPool
  import opened RandomXRuns
  import opened RandomXNaming
  import opened Runs
  import RandomXMisnaming
  import HT = HashThreads

  predicate Pending(p: Builder, i: nat) {
    !p.Done? && !p.Published? && p.i == i
  }

  /** While a builder of a slot has yet to publish, it is the only one, the slot is loaded and does not publish,
      and the caller is elsewhere. */
  ghost predicate OnePending(s: State, i: nat)
    requires WellFormed(s) && i < 2
  {
    && (forall b :: 0 <= b < |s.builders| && Pending(s.builders[b], i) ==>
          s.ready[i] == INVALID_ID && s.loaded[i] != INVALID_ID && !s.caller.On(i))
    && (forall b, c :: 0 <= b < c < |s.builders| ==> !(Pending(s.builders[b], i) && Pending(s.builders[c], i)))
    && (s.caller.On(i) && !s.caller.Invalidate? ==> s.ready[i] == INVALID_ID)
    && (s.caller.On(i) && s.caller.Spawn? ==> s.loaded[i] != INVALID_ID)
  }

  lemma NextOnePending(s: State, e: Event, i: nat)
    requires WellFormed(s) && Enabled(s, e) && i < 2 && OnePending(s, i)
    requires e.Calculate? && s.ctr % 2 == i ==> s.ready[i] == s.loaded[i]
    ensures WellFormed(Next(s, e)) && OnePending(Next(s, e), i)
  {
    if e.Build? {
      BuildOnePending(s, e.b, i);
    } else if e.Step? {
      CallerOnePending(s, i);
    }
  }

  lemma BuildOnePending(s: State, b: nat, i: nat)
    requires WellFormed(s) && Enabled(s, Build(b)) && i < 2 && OnePending(s, i)
    ensures OnePending(BuilderStep(s, b), i)
  {
  }

  lemma CallerOnePending(s: State, i: nat)
    requires WellFormed(s) && Enabled(s, Step) && i < 2 && OnePending(s, i)
    ensures WellFormed(CallerStep(s)) && OnePending(CallerStep(s), i)
  {
  }

  // ---------------------------------------------------------------- guarded runs

  /** What guarded calls keep. */
  ghost predicate Guarded(threads: nat, s: State) {
    && Inv(s) && s.orderly && OnePending(s, 0) && OnePending(s, 1)
    && Settling(s, 0) && Settling(s, 1) && Unassigned(s, 0) && Unassigned(s, 1)
    && |s.ht.workers| == threads
  }

  lemma GuardedStep(threads: nat, s: State, t: State)
    requires Guarded(threads, s) && StepBy(GuardedCalls, s, t)
    ensures Guarded(threads, t)
  {
    var e :| Enabled(s, e) && t == Next(s, e) && (e.Calculate? ==> Permits(GuardedCalls, s, e.seed));
    NextInv(s, e);
    GuardedSlot(s, e, 0);
    GuardedSlot(s, e, 1);
    StaysOrderly(s, e);
    SameWorkers(s, e);
  }

  lemma GuardedSlot(s: State, e: Event, i: nat)
    requires Inv(s) && Enabled(s, e) && i < 2 && OnePending(s, i) && Settling(s, i) && Unassigned(s, i)
    requires e.Calculate? ==> Finished(s)
    ensures var t := Next(s, e); WellFormed(t) && OnePending(t, i) && Settling(t, i) && Unassigned(t, i)
  {
    NextOnePending(s, e, i);
    NextSettling(s, e, i);
    assert StepTo(s, Next(s, e));
    StepUnassigned(s, Next(s, e), i);
  }

  lemma SameWorkers(s: State, e: Event)
    requires WellFormed(s) && Enabled(s, e)
    ensures |Next(s, e).ht.workers| == |s.ht.workers|
  {
  }

  lemma StaysOrderly(s: State, e: Event)
    requires WellFormed(s) && Enabled(s, e) && s.orderly && OnePending(s, 0) && OnePending(s, 1)
    requires e.Calculate? ==> Finished(s)
    ensures Next(s, e).orderly
  {
    if e.Calculate? {
      var i: nat := s.ctr % 2;
      assert forall b :: 0 <= b < |s.builders| && s.builders[b].Unnamed(i) ==> Pending(s.builders[b], i);
    }
  }

  lemma StaysGuarded(threads: nat, s: State, t: State)
    requires Guarded(threads, s) && Reaches(By(GuardedCalls), s, t)
    ensures Guarded(threads, t)
  {
    forall x, y | Guarded(threads, x) && By(GuardedCalls)(x, y) ensures Guarded(threads, y) {
      GuardedStep(threads, x, y);
    }
    KeptOn(By(GuardedCalls), x => Guarded(threads, x), s, t);
  }

  lemma StartsGuarded(threads: nat, s: State)
    requires Init(threads, s)
    ensures Guarded(threads, s)
  {
    InitInv(threads, s);
  }

  /** Step `m` begins a call only if the slot it reassigns publishes the id it is loaded with. */
  ghost predicate CallsFinishedSlot(run: seq<State>, m: nat)
    requires 0 < m < |run|
  {
    run[m - 1].caller.Rest? && run[m].caller.Invalidate? ==> Finished(run[m - 1])
  }

  lemma StepGuarded(s: State, t: State)
    requires StepTo(s, t)
    requires s.caller.Rest? && t.caller.Invalidate? ==> Finished(s)
    ensures StepBy(GuardedCalls, s, t)
  {
  }

  lemma {:induction false} GuardedRun(threads: nat, run: seq<State>, k: nat)
    requires Run(threads, run) && k < |run| && forall m :: 0 < m <= k ==> CallsFinishedSlot(run, m)
    ensures Guarded(threads, run[k])
  {
    if k == 0 {
      StartsGuarded(threads, run[0]);
    } else {
      GuardedRun(threads, run, k - 1);
      assert StepTo(run[k - 1], run[k]) && CallsFinishedSlot(run, k);
      StepGuarded(run[k - 1], run[k]);
      GuardedStep(threads, run[k - 1], run[k]);
    }
  }

  /** So no slot is reassigned while a builder for it has yet to read its id ... */
  lemma GuardedCallsAreOrderly(threads: nat, run: seq<State>, k: nat)
    requires Run(threads, run) && 0 < k < |run| && forall m :: 0 < m <= k ==> CallsFinishedSlot(run, m)
    ensures ReassignsFreeSlot(run, k)
  {
    GuardedRun(threads, run, k - 1);
    if run[k - 1].caller.Rest? && run[k].caller.Invalidate? {
      assert StepTo(run[k - 1], run[k]) && CallsFinishedSlot(run, k);
      var i, bs := run[k].caller.i, run[k - 1].builders;
      assert forall b :: 0 <= b < |bs| && bs[b].Unnamed(i) ==> Pending(bs[b], i);
    }
  }

  /** ... and every answer is a hash over a cache built whole from a given seed with the job's id. */
  lemma GuardedHashesUseTheJobsSeed(threads: nat, run: seq<State>, k: nat)
    requires Run(threads, run) && k < |run| && forall m :: 0 < m <= k ==> CallsFinishedSlot(run, m)
    ensures forall j :: 0 <= j < |run[k].ht.jobs| ==> run[k].ht.jobs[j].answer != HT.Garbage
    ensures forall j :: 0 <= j < |run[k].ht.jobs| && run[k].ht.jobs[j].answer.Hashed? ==>
      && run[k].ht.jobs[j].answer.built in run[k].given
      && Id(run[k].ht.jobs[j].answer.built) == run[k].ht.jobs[j].arg
  {
    forall m | 0 < m <= k ensures ReassignsFreeSlot(run, m) {
      GuardedCallsAreOrderly(threads, run, m);
    }
    OrderlyHashesUseTheJobsSeed(threads, run, k);
  }

  // ---------------------------------------------------------------- nothing else can be seen

  /** `t` is `s` with builder `b` one step back, about to read the id it publishes. */
  ghost predicate OneBack(s: State, t: State, b: nat, i: nat, id: nat) {
    && b < |s.builders| && s.builders[b] == HasId(i, id)
    && t == s.(builders := s.builders[b := Built(i)], orderly := t.orderly)
  }

  /** Nobody else notices. */
  lemma NobodyNotices(s: State, t: State, b: nat, i: nat, id: nat, e: Event)
    requires WellFormed(s) && Enabled(s, e) && e != Build(b) && OneBack(s, t, b, i, id)
    ensures WellFormed(t) && Enabled(t, e) && OneBack(Next(s, e), Next(t, e), b, i, id)
  {
  }

  lemma NobodyNoticesStep(s: State, t: State, b: nat, i: nat, id: nat, e: Event)
    requires WellFormed(s) && Enabled(s, e) && e != Build(b) && OneBack(s, t, b, i, id)
    requires e.Calculate? ==> Finished(s)
    ensures WellFormed(t) && Enabled(t, e) && By(GuardedCalls)(t, Next(t, e)) && OneBack(Next(s, e), Next(t, e), b, i, id)
  {
    NobodyNotices(s, t, b, i, id, e);
    assert StepBy(GuardedCalls, t, Next(t, e));
  }

  lemma WasThere(s: State, e: Event, b: nat, i: nat, id: nat)
    requires WellFormed(s) && Enabled(s, e) && b < |Next(s, e).builders| && Next(s, e).builders[b] == HasId(i, id)
    ensures if e == Build(b) then OneBack(Next(s, e), s, b, i, id)
      else b < |s.builders| && s.builders[b] == HasId(i, id)
  {
  }

  ghost predicate ReachedOneBack(start: State, s: State, b: nat, i: nat, id: nat) {
    exists t :: Reaches(By(GuardedCalls), start, t) && OneBack(s, t, b, i, id)
  }

  lemma StepsBack(start: State, u: State, e: Event, b: nat, i: nat, id: nat)
    requires WellFormed(u) && Enabled(u, e) && (e.Calculate? ==> Finished(u)) && e != Build(b)
    requires ReachedOneBack(start, u, b, i, id)
    ensures ReachedOneBack(start, Next(u, e), b, i, id)
  {
    var v :| Reaches(By(GuardedCalls), start, v) && OneBack(u, v, b, i, id);
    NobodyNoticesStep(u, v, b, i, id, e);
    OneMore(By(GuardedCalls), start, v, Next(v, e));
  }

  /** What is reached with a builder about to publish is reached, by the same calls, with it one step back. */
  lemma {:induction false} OneStepBack(p: seq<State>, start: State, s: State, b: nat, i: nat, id: nat)
    requires Path(By(GuardedCalls), p, start, s) && start.builders == []
    requires b < |s.builders| && s.builders[b] == HasId(i, id)
    ensures ReachedOneBack(start, s, b, i, id)
    decreases |p|
  {
    var n := |p| - 1;
    var u := p[n - 1];
    assert Path(By(GuardedCalls), p[..n], start, u) && StepBy(GuardedCalls, u, s);
    var e :| Enabled(u, e) && s == Next(u, e) && (e.Calculate? ==> Permits(GuardedCalls, u, e.seed));
    WasThere(u, e, b, i, id);
    if e == Build(b) {
      assert OneBack(s, u, b, i, id);
    } else {
      OneStepBack(p[..n], start, u, b, i, id);
      StepsBack(start, u, e, b, i, id);
    }
  }

  /** Nothing but the builders' progress tells these states apart. */
  ghost predicate LookAlike(s: State, t: State) {
    t == s.(builders := t.builders)
  }

  /** If the slot does not publish what it is loaded with, a builder may have yet to read its id. */
  lemma BuilderMayBeUnnamed(threads: nat, start: State, s: State)
    requires Init(threads, start) && Reaches(By(GuardedCalls), start, s) && s.caller.Rest?
    requires WellFormed(s) && !Finished(s)
    ensures exists t, b :: (Reaches(By(GuardedCalls), start, t) && LookAlike(s, t)
                            && 0 <= b < |t.builders| && t.builders[b].Unnamed(s.ctr % 2))
  {
    var i: nat := s.ctr % 2;
    StartsGuarded(threads, start);
    StaysGuarded(threads, start, s);
    if BuilderWaits(s, i) {
      var b :| 0 <= b < |s.builders| && s.builders[b].Waits(i);
      assert LookAlike(s, s) && s.builders[b].Unnamed(i);
    } else {
      assert UpToDate(s, i);
      var b := s.writer[i].value;
      if s.builders[b].HasId? {
        var p :| Path(By(GuardedCalls), p, start, s);
        OneStepBack(p, start, s, b, i, s.builders[b].id);
        var t :| Reaches(By(GuardedCalls), start, t) && OneBack(s, t, b, i, s.builders[b].id);
        StaysGuarded(threads, start, t);
        assert LookAlike(s, t) && t.builders[b].Unnamed(i);
      } else {
        assert LookAlike(s, s) && s.builders[b].Unnamed(i);
      }
    }
  }

  /** A call for this seed, and guarded calls later, may spoil an answer. */
  ghost predicate Spoils(s: State, seed: Seed) {
    && WellFormed(s) && s.caller.Rest?
    && exists t :: Reaches(By(GuardedCalls), Next(s, Calculate(seed)), t) && !JobsNamed(t)
  }

  /** Four seeds, one of which has an id not among three. */
  lemma AnotherSeed(x: nat, y: nat, z: nat) returns (seed: Seed)
    ensures Id(seed) != x && Id(seed) != y && Id(seed) != z
  {
    var n: nat := 0;
    if n in {x, y, z} { n := 1; }
    if n in {x, y, z} { n := 2; }
    if n in {x, y, z} { n := 3; }
    seed := Seed(n, 0);
  }

  lemma UnnamedIsSpoilt(threads: nat, t: State, b: nat)
    requires Guarded(threads, t) && threads > 0 && t.caller.Rest?
    requires b < |t.builders| && t.builders[b].Unnamed(t.ctr % 2)
    ensures exists seed :: Spoils(t, seed)
  {
    var seed := AnotherSeed(t.loaded[0], t.loaded[1], Id(Builds(t, b)));
    RandomXMisnaming.MismatchMisnames(GuardedCalls, t, seed, b);
    var u :| Reaches(By(GuardedCalls), Next(t, Calculate(seed)), u) && RandomXMisnaming.MisnamesLast(u, Id(seed));
    assert !JobsNamed(u);
    assert Spoils(t, seed);
  }

  lemma GuardedIsNamed(threads: nat, s: State)
    requires Guarded(threads, s)
    ensures JobsNamed(s)
  {
    forall j | 0 <= j < |s.ht.jobs| && s.ht.jobs[j].answer.Hashed?
      ensures Id(s.ht.jobs[j].answer.built) == s.ht.jobs[j].arg
    {
      assert JobOk(s, j);
    }
  }

  lemma FinishedIsNotSpoilt(threads: nat, s: State, seed: Seed)
    requires Guarded(threads, s) && Finished(s)
    ensures !Spoils(s, seed)
  {
    if s.caller.Rest? {
      var a := Next(s, Calculate(seed));
      assert StepBy(GuardedCalls, s, a);
      GuardedStep(threads, s, a);
      forall t | Reaches(By(GuardedCalls), a, t) ensures JobsNamed(t) {
        StaysGuarded(threads, a, t);
        GuardedIsNamed(threads, t);
      }
    }
  }

  /** After guarded calls, and to a caller who sees everything but how far the builders are: one more call can
      spoil no answer, whatever its seed and wherever the builders may be, if and only if the slot next in turn
      publishes the id it is loaded with. */
  lemma GuardIsTight(threads: nat, start: State, s: State)
    requires Init(threads, start) && Reaches(By(GuardedCalls), start, s) && s.caller.Rest? && threads > 0
    ensures Finished(s) <==>
      forall t, seed :: Reaches(By(GuardedCalls), start, t) && LookAlike(s, t) ==> !Spoils(t, seed)
  {
    StartsGuarded(threads, start);
    StaysGuarded(threads, start, s);
    if Finished(s) {
      forall t, seed | Reaches(By(GuardedCalls), start, t) && LookAlike(s, t) ensures !Spoils(t, seed) {
        StaysGuarded(threads, start, t);
        FinishedIsNotSpoilt(threads, t, seed);
      }
    } else {
      BuilderMayBeUnnamed(threads, start, s);
      var t, b :| Reaches(By(GuardedCalls), start, t) && LookAlike(s, t)
        && 0 <= b < |t.builders| && t.builders[b].Unnamed(s.ctr % 2);
      StaysGuarded(threads, start, t);
      UnnamedIsSpoilt(threads, t, b);
    }
  }
}
