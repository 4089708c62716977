/** When the RandomX pool's answers are for the right id: exactly as long as no slot is reassigned to another
    id than its unnamed builders build. */
module RandomXNaming {
  import opened RandomXPool
  import opened RandomXRuns
  import opened Runs
  import HT = HashThreads

  /** The seed a builder that is still unnamed is building, or will build, if nobody interferes. */
  ghost function Builds(s: State, b: nat): Seed
    requires WellFormed(s) && b < |s.builders| && !s.builders[b].Done? && s.builders[b].i < 2
  {
    var i := s.builders[b].i;
    if s.builders[b].HasLow? then Seed(s.builders[b].lo, s.seed[i].hi)
    else if s.builders[b].Built? && s.cache[i].Some? then s.cache[i].value
    else s.seed[i]
  }

  /** Every builder of the slot that has yet to read the id it publishes builds a seed with this id. */
  ghost predicate AllBuild(s: State, i: nat, id: nat)
    requires WellFormed(s) && i < 2
  {
    forall b :: 0 <= b < |s.builders| && s.builders[b].Unnamed(i) ==> Id(Builds(s, b)) == id
  }

  /** The slot next in turn can be given to this seed. */
  ghost predicate Matching(s: State, seed: Seed) {
    WellFormed(s) && AllBuild(s, s.ctr % 2, Id(seed))
  }

  /** The slot's cache has the id the slot publishes, or will publish; so has what is hashed on it. */
  ghost predicate NamesOk(s: State, i: nat)
    requires WellFormed(s) && i < 2
  {
    && (forall b :: 0 <= b < |s.builders| ==> BuilderNamed(s, b, i))
    && ReadyNamed(s, i)
    && (forall w :: 0 <= w < |s.ht.workers| ==> WorkerNamed(s, w, i))
  }

  /** A builder that has yet to read the id builds a seed with the id it will read. */
  ghost predicate BuilderNamed(s: State, b: nat, i: nat)
    requires WellFormed(s) && i < 2 && b < |s.builders|
  {
    && (s.builders[b].Unnamed(i) ==> Id(Builds(s, b)) == Id(s.seed[i]))
    && (s.builders[b].Unnamed(i) && s.caller.On(i) && (s.caller.Invalidate? || s.caller.StoreLow?) ==>
          Id(Builds(s, b)) == Id(s.caller.seed))
    && (s.builders[b].HasId? && s.builders[b].i == i ==> CacheHas(s, i, s.builders[b].id))
  }

  ghost predicate ReadyNamed(s: State, i: nat)
    requires WellFormed(s) && i < 2
  {
    !Rebuilding(s, i) ==> s.ready[i] == INVALID_ID || CacheHas(s, i, s.ready[i])
  }

  ghost predicate CacheHas(s: State, i: nat, id: nat)
    requires WellFormed(s) && i < 2
  {
    s.cache[i].Some? && Id(s.cache[i].value) == id
  }

  ghost predicate WorkerNamed(s: State, w: nat, i: nat)
    requires WellFormed(s) && i < 2 && w < |s.ht.workers|
  {
    var pc := s.ht.workers[w];
    && (pc.Ready? && pc.i == i ==> CacheHas(s, i, Key(s, pc.j)))
    && (pc.Hashing? && pc.i == i ==> Id(pc.b) == Key(s, pc.j))
  }

  /** No job was answered with a hash over a seed with another id. */
  ghost predicate JobsNamed(s: State) {
    forall j :: 0 <= j < |s.ht.jobs| && s.ht.jobs[j].answer.Hashed? ==> Id(s.ht.jobs[j].answer.built) == s.ht.jobs[j].arg
  }

  lemma InitNamed(threads: nat, s: State)
    requires Init(threads, s)
    ensures NamesOk(s, 0) && NamesOk(s, 1) && JobsNamed(s)
  {
  }

  // ---------------------------------------------------------------- what every matching step keeps

  lemma NextNamesOk(s: State, e: Event, i: nat)
    requires Inv(s) && Enabled(s, e) && i < 2 && NamesOk(s, i)
    requires e.Calculate? && s.ctr % 2 == i ==> Matching(s, e.seed)
    ensures WellFormed(Next(s, e)) && NamesOk(Next(s, e), i)
  {
    match e
    case Hash(h) => HashNamesOk(s, h, i);
    case Build(b) => BuildNamesOk(s, b, i);
    case Step => CallerNamesOk(s, i);
    case Calculate(seed) => CalculateNamesOk(s, seed, i);
  }

  lemma CalculateNamesOk(s: State, seed: Seed, i: nat)
    requires WellFormed(s) && s.caller.Rest? && i < 2 && NamesOk(s, i)
    requires s.ctr % 2 == i ==> Matching(s, seed)
    ensures NamesOk(Next(s, Calculate(seed)), i)
  {
    var t := Next(s, Calculate(seed));
    forall b | 0 <= b < |t.builders| ensures BuilderNamed(t, b, i) {
      assert BuilderNamed(s, b, i);
    }
    forall w | 0 <= w < |t.ht.workers| ensures WorkerNamed(t, w, i) {
      assert WorkerNamed(s, w, i);
    }
  }

  lemma HashNamesOk(s: State, h: HT.Event<Seed>, i: nat)
    requires Inv(s) && Enabled(s, Hash(h)) && i < 2 && NamesOk(s, i)
    ensures NamesOk(Next(s, Hash(h)), i)
  {
    var t := Next(s, Hash(h));
    forall b | 0 <= b < |t.builders| ensures BuilderNamed(t, b, i) {
      assert BuilderNamed(s, b, i);
    }
    forall w | 0 <= w < |t.ht.workers| ensures WorkerNamed(t, w, i) {
      assert WorkerOk(s, w) && WorkerNamed(s, w, i) && HT.PcOk(s.ht, s.ht.workers[w]);
      assert s.ht.workers[w].Job().Some? ==> HT.Holds(s.ht, w, s.ht.workers[w].j) && JobOk(s, s.ht.workers[w].j);
      HashWorkerNamed(s, h, w, i);
    }
  }

  lemma HashWorkerNamed(s: State, h: HT.Event<Seed>, w: nat, i: nat)
    requires WellFormed(s) && Enabled(s, Hash(h)) && w < |s.ht.workers| && i < 2
    requires WorkerOk(s, w) && WorkerNamed(s, w, i)
    requires s.ht.workers[w].Job().Some? ==> s.ht.workers[w].j < |s.ht.jobs| && JobOk(s, s.ht.workers[w].j)
    requires ReadyNamed(s, i)
    ensures WorkerNamed(Next(s, Hash(h)), w, i)
  {
  }

  lemma BuildNamesOk(s: State, b: nat, i: nat)
    requires Inv(s) && Enabled(s, Build(b)) && i < 2 && NamesOk(s, i)
    ensures NamesOk(BuilderStep(s, b), i)
  {
    var t := BuilderStep(s, b);
    assert BuilderOk(s, b) && BuilderNamed(s, b, i) && SlotOk(s, i);
    forall c | 0 <= c < |t.builders| ensures BuilderNamed(t, c, i) {
      assert BuilderOk(s, c) && BuilderNamed(s, c, i) && BuilderNamed(s, b, i);
      BuildBuilderNamed(s, b, c, i);
    }
    forall w | 0 <= w < |t.ht.workers| ensures WorkerNamed(t, w, i) {
      assert WorkerOk(s, w) && WorkerNamed(s, w, i);
      BuildWorkerNamed(s, b, w, i);
    }
    BuildReadyNamed(s, b, i);
  }

  lemma BuildBuilderNamed(s: State, b: nat, c: nat, i: nat)
    requires WellFormed(s) && Enabled(s, Build(b)) && c < |s.builders| && i < 2
    requires BuilderOk(s, b) && BuilderOk(s, c) && BuilderNamed(s, b, i) && BuilderNamed(s, c, i)
    ensures BuilderNamed(BuilderStep(s, b), c, i)
  {
  }

  lemma BuildWorkerNamed(s: State, b: nat, w: nat, i: nat)
    requires WellFormed(s) && Enabled(s, Build(b)) && w < |s.ht.workers| && i < 2
    requires BuilderOk(s, b) && WorkerOk(s, w) && WorkerNamed(s, w, i)
    ensures WorkerNamed(BuilderStep(s, b), w, i)
  {
  }

  lemma BuildReadyNamed(s: State, b: nat, i: nat)
    requires WellFormed(s) && Enabled(s, Build(b)) && i < 2 && BuilderOk(s, b) && SlotOk(s, i)
    requires BuilderNamed(s, b, i)
    requires ReadyNamed(s, i)
    ensures ReadyNamed(BuilderStep(s, b), i)
  {
  }

  lemma CallerNamesOk(s: State, i: nat)
    requires Inv(s) && Enabled(s, Step) && i < 2 && NamesOk(s, i)
    ensures WellFormed(CallerStep(s)) && NamesOk(CallerStep(s), i)
  {
    var t := CallerStep(s);
    forall c | 0 <= c < |t.builders| ensures BuilderNamed(t, c, i) {
      assert c < |s.builders| ==> BuilderNamed(s, c, i) && BuilderOk(s, c);
      CallerBuilderNamed(s, c, i);
    }
    forall w | 0 <= w < |t.ht.workers| ensures WorkerNamed(t, w, i) {
      assert WorkerNamed(s, w, i);
    }
    assert SlotOk(s, i);
    CallerReadyNamed(s, i);
  }

  lemma CallerReadyNamed(s: State, i: nat)
    requires WellFormed(s) && Enabled(s, Step) && i < 2 && SlotOk(s, i) && ReadyNamed(s, i)
    ensures ReadyNamed(CallerStep(s), i)
  {
  }

  lemma CallerBuilderNamed(s: State, c: nat, i: nat)
    requires WellFormed(s) && Enabled(s, Step) && i < 2 && CallerOk(s)
    requires c < |CallerStep(s).builders|
    requires c < |s.builders| ==> BuilderNamed(s, c, i) && BuilderOk(s, c)
    ensures BuilderNamed(CallerStep(s), c, i)
  {
  }

  lemma NextJobsNamed(s: State, e: Event)
    requires Inv(s) && Enabled(s, e) && NamesOk(s, 0) && NamesOk(s, 1) && JobsNamed(s)
    ensures JobsNamed(Next(s, e))
  {
    if e.Hash? && e.h.Finish? {
      assert WorkerOk(s, e.h.w) && WorkerNamed(s, e.h.w, s.ht.workers[e.h.w].i);
    }
  }

  // ---------------------------------------------------------------- runs

  /** All is well named, and will be if nobody else comes. */
  ghost predicate WellNamed(s: State) {
    Inv(s) && NamesOk(s, 0) && NamesOk(s, 1) && JobsNamed(s)
  }

  /** Which calls of `calculate_dataset` a run makes: any; matching ones; matching ones for ids no slot is loaded
      with, as `has_dataset` is asked first; or those that find the slot they reassign finished. */
  datatype Calls = AnyCalls | MatchingCalls | MatchingNewCalls | GuardedCalls

  ghost predicate Permits(calls: Calls, s: State, seed: Seed) {
    match calls
    case AnyCalls => true
    case MatchingCalls => Matching(s, seed)
    case MatchingNewCalls => Matching(s, seed) && Id(seed) !in s.loaded
    case GuardedCalls => Finished(s)
  }

  /** The slot next in turn publishes the id it is loaded with. */
  predicate Finished(s: State) {
    WellFormed(s) && s.ready[s.ctr % 2] == s.loaded[s.ctr % 2]
  }

  ghost predicate StepBy(calls: Calls, s: State, t: State) {
    && WellFormed(s)
    && exists e :: Enabled(s, e) && t == Next(s, e) && (e.Calculate? ==> Permits(calls, s, e.seed))
  }

  ghost function By(calls: Calls): (State, State) -> bool {
    (s, t) => StepBy(calls, s, t)
  }

  lemma WellNamedStep(s: State, t: State)
    requires WellNamed(s) && StepBy(MatchingCalls, s, t)
    ensures WellNamed(t)
  {
    var e :| Enabled(s, e) && t == Next(s, e) && (e.Calculate? ==> Permits(MatchingCalls, s, e.seed));
    NextInv(s, e);
    NextNamesOk(s, e, 0);
    NextNamesOk(s, e, 1);
    NextJobsNamed(s, e);
  }

  lemma StaysWellNamed(s: State, t: State)
    requires WellNamed(s) && Reaches(By(MatchingCalls), s, t)
    ensures WellNamed(t)
  {
    forall x, y | WellNamed(x) && By(MatchingCalls)(x, y) ensures WellNamed(y) {
      WellNamedStep(x, y);
    }
    KeptOn(By(MatchingCalls), x => WellNamed(x), s, t);
  }

  /** Step `m` begins no call whose seed does not match. */
  ghost predicate CallsMatch(run: seq<State>, m: nat)
    requires 0 < m < |run|
  {
    run[m - 1].caller.Rest? && run[m].caller.Invalidate? ==> Matching(run[m - 1], run[m].caller.seed)
  }

  /** In every run all of whose calls match, every answer is a hash over a seed with the job's id. */
  lemma {:induction false} MatchingRunsAreWellNamed(threads: nat, run: seq<State>, k: nat)
    requires Run(threads, run) && k < |run| && forall m :: 0 < m <= k ==> CallsMatch(run, m)
    ensures WellNamed(run[k])
  {
    if k == 0 {
      InitInv(threads, run[0]);
      InitNamed(threads, run[0]);
    } else {
      MatchingRunsAreWellNamed(threads, run, k - 1);
      assert StepTo(run[k - 1], run[k]) && CallsMatch(run, k);
      StepMatches(run[k - 1], run[k]);
      WellNamedStep(run[k - 1], run[k]);
    }
  }

  lemma StepMatches(s: State, t: State)
    requires StepTo(s, t)
    requires s.caller.Rest? && t.caller.Invalidate? ==> Matching(s, t.caller.seed)
    ensures StepBy(MatchingCalls, s, t)
  {
  }

  /** In an orderly run so far, a seed matches exactly if no builder of the slot is unnamed or it has the id of
      the slot's seed. */
  lemma OrderlyMatches(s: State, seed: Seed)
    requires Inv(s) && s.orderly && s.caller.Rest?
    ensures Matching(s, seed) <==> AllNamed(s, s.ctr % 2) || Id(seed) == Id(s.seed[s.ctr % 2])
  {
    var i: nat := s.ctr % 2;
    forall b | 0 <= b < |s.builders| && s.builders[b].Unnamed(i) ensures Id(Builds(s, b)) == Id(s.seed[i]) {
      assert BuilderOk(s, b);
    }
  }
}
