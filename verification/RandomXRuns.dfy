/** What holds over whole runs of the RandomX pool, and what does not. */
module RandomXRuns {
  import opened Base
  import opened RandomXPool
  import HT = HashThreads

  ghost predicate StepTo(s: State, t: State) {
    WellFormed(s) && exists e :: Enabled(s, e) && t == Next(s, e)
  }

  /** A run of the pool with `threads` hash threads, in any interleaving. */
  ghost predicate Run(threads: nat, run: seq<State>) {
    && run != [] && Init(threads, run[0])
    && forall k :: 0 < k < |run| ==> StepTo(run[k - 1], run[k])
  }

  lemma NextInv(s: State, e: Event)
    requires Inv(s) && Enabled(s, e)
    ensures Inv(Next(s, e))
  {
    match e
    case Hash(h) => HashInv(s, h);
    case Build(b) => BuilderInv(s, b);
    case Calculate(seed) => CalculateInv(s, seed);
    case Step => CallerInv(s);
  }

  lemma NextWellFormed(s: State, e: Event)
    requires WellFormed(s) && Enabled(s, e)
    ensures WellFormed(Next(s, e))
  {
  }

  lemma StepInv(s: State, t: State)
    requires Inv(s) && StepTo(s, t)
    ensures Inv(t)
  {
    var e :| Enabled(s, e) && t == Next(s, e);
    NextInv(s, e);
  }

  lemma {:induction false} RunInv(threads: nat, run: seq<State>, k: nat)
    requires Run(threads, run) && k < |run|
    ensures Inv(run[k])
  {
    if k == 0 {
      InitInv(threads, run[0]);
    } else {
      RunInv(threads, run, k - 1);
      StepInv(run[k - 1], run[k]);
    }
  }

  /** Step `m` begins a `calculate_dataset` for a slot none of whose builders has yet to read the id it is
      to publish, or is another step. */
  ghost predicate ReassignsFreeSlot(run: seq<State>, m: nat)
    requires 0 < m < |run|
  {
    run[m - 1].caller.Rest? && run[m].caller.Invalidate? ==> AllNamed(run[m - 1], run[m].caller.i)
  }

  lemma StaysOrderlyIff(s: State, t: State)
    requires StepTo(s, t)
    ensures t.orderly <==> s.orderly && (s.caller.Rest? && t.caller.Invalidate? ==> AllNamed(s, t.caller.i))
  {
  }

  /** A run is orderly exactly when no slot was reassigned while a builder for it was still unnamed. */
  lemma {:induction false} OrderlyMeans(threads: nat, run: seq<State>, k: nat)
    requires Run(threads, run) && k < |run|
    ensures run[k].orderly <==> forall m :: 0 < m <= k ==> ReassignsFreeSlot(run, m)
  {
    if k > 0 {
      OrderlyMeans(threads, run, k - 1);
      StaysOrderlyIff(run[k - 1], run[k]);
      assert run[k].orderly <==> run[k - 1].orderly && ReassignsFreeSlot(run, k);
    }
  }

  /** In every run in which slots are reassigned only after their builders finished, or at least read the
      ids they publish, each hash is computed on a cache built from one of the given seeds, whole, whose id
      is the job's `dataset_id`; also when the slot is invalidated between a worker's second look and its
      hash.  In every run at all the cache is complete and does not change while a worker hashes. */
  lemma OrderlyHashesUseTheJobsSeed(threads: nat, run: seq<State>, k: nat)
    requires Run(threads, run) && k < |run|
    ensures forall j :: 0 <= j < |run[k].ht.jobs| ==> run[k].ht.jobs[j].answer != HT.Garbage
    ensures (forall m :: 0 < m <= k ==> ReassignsFreeSlot(run, m)) ==>
      forall j :: 0 <= j < |run[k].ht.jobs| && run[k].ht.jobs[j].answer.Hashed? ==>
        && run[k].ht.jobs[j].answer.built in run[k].given
        && Id(run[k].ht.jobs[j].answer.built) == run[k].ht.jobs[j].arg
  {
    RunInv(threads, run, k);
    OrderlyMeans(threads, run, k);
    forall j | 0 <= j < |run[k].ht.jobs|
      ensures run[k].ht.jobs[j].answer != HT.Garbage
      ensures run[k].orderly && run[k].ht.jobs[j].answer.Hashed? ==>
        && run[k].ht.jobs[j].answer.built in run[k].given
        && Id(run[k].ht.jobs[j].answer.built) == run[k].ht.jobs[j].arg
    {
      assert JobOk(run[k], j);
    }
  }

  // ---------------------------------------------------------------- at rest, orderly or not

  /** What the builder holding the slot's lock has read so far is what the slot's seed is now. */
  ghost predicate UpToDate(s: State, i: nat)
    requires WellFormed(s) && i < 2
  {
    Rebuilding(s, i) &&
    match s.builders[s.writer[i].value]
    case HasLow(_, lo) => lo == s.seed[i].lo
    case HasId(_, id) => s.cache[i] == Some(s.seed[i]) && id == Id(s.seed[i])
    case _ => s.cache[i] == Some(s.seed[i])
  }

  ghost predicate BuilderWaits(s: State, i: nat) {
    exists b :: 0 <= b < |s.builders| && s.builders[b].Waits(i)
  }

  ghost predicate BuilderStarts(s: State, i: nat) {
    exists b :: 0 <= b < |s.builders| && s.builders[b] == Start(i)
  }

  ghost predicate Settling(s: State, i: nat)
    requires WellFormed(s) && i < 2
  {
    && (s.loaded[i] == INVALID_ID || s.caller.On(i) || BuilderWaits(s, i) || UpToDate(s, i)
        || (s.ready[i] == s.loaded[i] && s.cache[i] == Some(s.seed[i])))
    && (Rebuilding(s, i) && !UpToDate(s, i) ==> s.caller.On(i) || BuilderStarts(s, i))
    && Stored(s, i)
  }

  /** How far the caller has got with storing the slot's seed and its id. */
  ghost predicate Stored(s: State, i: nat)
    requires WellFormed(s) && i < 2
  {
    && (s.caller.On(i) || s.loaded[i] == INVALID_ID || s.loaded[i] == Id(s.seed[i]))
    && (s.caller.Load? && s.caller.i == i ==> s.seed[i] == s.caller.seed)
    && (s.caller.StoreHigh? && s.caller.i == i ==> s.seed[i].lo == s.caller.seed.lo)
    && (s.caller.Spawn? && s.caller.i == i ==> s.loaded[i] == Id(s.seed[i]))
  }

  lemma NextSettling(s: State, e: Event, i: nat)
    requires Inv(s) && Enabled(s, e) && i < 2 && Settling(s, i)
    ensures WellFormed(Next(s, e)) && Settling(Next(s, e), i)
  {
    match e
    case Build(b) =>
      BuildSettling(s, b, i);
    case Step =>
      StepSettling(s, i);
    case Hash(h) => SameSlots(s, Next(s, e), i);
    case Calculate(_) => SameSlots(s, Next(s, e), i);
  }

  lemma BuildSettling(s: State, b: nat, i: nat)
    requires Inv(s) && Enabled(s, Build(b)) && i < 2 && Settling(s, i)
    ensures WellFormed(BuilderStep(s, b)) && Settling(BuilderStep(s, b), i)
  {
    assert BuilderOk(s, b) && SlotOk(s, i);
    BuilderSettling(s, b, i);
  }

  lemma StepSettling(s: State, i: nat)
    requires Inv(s) && Enabled(s, Step) && i < 2 && Settling(s, i)
    ensures WellFormed(CallerStep(s)) && Settling(CallerStep(s), i)
  {
    assert SlotOk(s, i);
    CallerSettling(s, i);
  }

  lemma SameSlots(s: State, t: State, i: nat)
    requires WellFormed(s) && WellFormed(t) && i < 2 && Settling(s, i)
    requires s.loaded == t.loaded && s.ready == t.ready && s.seed == t.seed && s.cache == t.cache
    requires s.writer == t.writer && s.builders == t.builders
    requires s.caller == t.caller || (s.caller.Rest? && t.caller.Invalidate?)
    ensures Settling(t, i)
  {
    assert BuilderWaits(s, i) <==> BuilderWaits(t, i);
    assert BuilderStarts(s, i) <==> BuilderStarts(t, i);
  }

  lemma BuilderSettling(s: State, b: nat, i: nat)
    requires WellFormed(s) && Enabled(s, Build(b)) && i < 2 && Settling(s, i)
    requires BuilderOk(s, b) && SlotOk(s, i)
    ensures Settling(BuilderStep(s, b), i)
  {
    var t := BuilderStep(s, b);
    assert forall c :: 0 <= c < |s.builders| && c != b ==> t.builders[c] == s.builders[c];
    if s.builders[b].i == i {
      OwnSlotSettling(s, b, i);
    } else {
      OtherSlotSettling(s, t, i);
    }
  }

  /** A step on the other slot. */
  lemma OtherSlotSettling(s: State, t: State, i: nat)
    requires WellFormed(s) && WellFormed(t) && i < 2 && Settling(s, i) && SlotOk(s, i)
    requires s.loaded[i] == t.loaded[i] && s.ready[i] == t.ready[i] && s.seed[i] == t.seed[i]
    requires s.cache[i] == t.cache[i] && s.writer[i] == t.writer[i]
    requires s.caller == t.caller && |s.builders| == |t.builders|
    requires forall c :: 0 <= c < |s.builders| && s.builders[c].On(i) ==> s.builders[c] == t.builders[c]
    ensures Settling(t, i)
  {
    if BuilderWaits(s, i) {
      var c :| 0 <= c < |s.builders| && s.builders[c].Waits(i);
      assert s.builders[c].On(i) && t.builders[c].Waits(i);
    }
    if BuilderStarts(s, i) {
      var c :| 0 <= c < |s.builders| && s.builders[c] == Start(i);
      assert s.builders[c].On(i) && t.builders[c] == Start(i);
    }
    assert s.writer[i].Some? ==> s.builders[s.writer[i].value].On(i);
  }

  lemma OwnSlotSettling(s: State, b: nat, i: nat)
    requires WellFormed(s) && Enabled(s, Build(b)) && i < 2 && Settling(s, i)
    requires BuilderOk(s, b) && s.builders[b].i == i
    ensures Settling(BuilderStep(s, b), i)
  {
    var t := BuilderStep(s, b);
    if s.builders[b].Start? {
      assert t.builders[b].Waits(i);
    } else if s.builders[b].Locked? {
      assert UpToDate(t, i);
    } else {
      assert forall c :: 0 <= c < |s.builders| && s.builders[c].Waits(i) ==> t.builders[c] == s.builders[c];
      assert BuilderWaits(s, i) ==> BuilderWaits(t, i);
      assert BuilderStarts(s, i) ==> BuilderStarts(t, i);
      assert BuilderStarts(s, i) ==> BuilderWaits(s, i) by {
        if BuilderStarts(s, i) {
          var c :| 0 <= c < |s.builders| && s.builders[c] == Start(i);
          assert s.builders[c].Waits(i);
        }
      }
    }
  }

  lemma CallerSettling(s: State, i: nat)
    requires WellFormed(s) && Enabled(s, Step) && i < 2 && Settling(s, i) && SlotOk(s, i)
    ensures Settling(CallerStep(s), i)
  {
    if s.caller.i == i {
      CallerOnSlot(s, i);
    } else {
      CallerElsewhere(s, i);
    }
  }

  lemma CallerOnSlot(s: State, i: nat)
    requires WellFormed(s) && Enabled(s, Step) && i < 2 && Settling(s, i) && s.caller.i == i
    ensures Settling(CallerStep(s), i)
  {
    var t := CallerStep(s);
    if s.caller.Spawn? {
      assert t.builders[|s.builders|] == Start(i) && t.builders[|s.builders|].Waits(i);
      assert BuilderStarts(t, i) && BuilderWaits(t, i);
    }
  }

  lemma CallerElsewhere(s: State, i: nat)
    requires WellFormed(s) && Enabled(s, Step) && i < 2 && Settling(s, i) && SlotOk(s, i) && s.caller.i != i
    ensures Settling(CallerStep(s), i)
  {
    var t := CallerStep(s);
    assert forall b :: 0 <= b < |s.builders| ==> t.builders[b] == s.builders[b];
    BuildersElsewhere(s, i);
    ReadElsewhere(s, i);
  }

  lemma ReadElsewhere(s: State, i: nat)
    requires WellFormed(s) && Enabled(s, Step) && i < 2 && SlotOk(s, i) && s.caller.i != i
    ensures WellFormed(CallerStep(s))
    ensures UpToDate(s, i) <==> UpToDate(CallerStep(s), i)
    ensures Rebuilding(s, i) <==> Rebuilding(CallerStep(s), i)
  {
  }

  lemma BuildersElsewhere(s: State, i: nat)
    requires WellFormed(s) && Enabled(s, Step) && i < 2
    ensures BuilderWaits(s, i) ==> BuilderWaits(CallerStep(s), i)
    ensures BuilderStarts(s, i) ==> BuilderStarts(CallerStep(s), i)
  {
    var t := CallerStep(s);
    assert forall b :: 0 <= b < |s.builders| ==> t.builders[b] == s.builders[b];
  }

  lemma ThenSettling(s: State, t: State, i: nat)
    requires Inv(s) && StepTo(s, t) && i < 2 && Settling(s, i)
    ensures WellFormed(t) && Settling(t, i)
  {
    var e :| Enabled(s, e) && t == Next(s, e);
    NextSettling(s, e, i);
  }

  lemma {:induction false} RunSettles(threads: nat, run: seq<State>, k: nat)
    requires Run(threads, run) && k < |run|
    ensures Inv(run[k]) && Settling(run[k], 0) && Settling(run[k], 1)
  {
    RunInv(threads, run, k);
    if k > 0 {
      RunSettles(threads, run, k - 1);
      ThenSettling(run[k - 1], run[k], 0);
      ThenSettling(run[k - 1], run[k], 1);
    }
  }

  /** A slot never assigned publishes nothing, and nobody builds in it. */
  ghost predicate Unassigned(s: State, i: nat)
    requires WellFormed(s) && i < 2
  {
    s.loaded[i] == INVALID_ID ==>
      s.ready[i] == INVALID_ID && FreeOfBuilders(s, i) && !(s.caller.Spawn? && s.caller.i == i)
  }

  lemma StepUnassigned(s: State, t: State, i: nat)
    requires StepTo(s, t) && i < 2 && Unassigned(s, i)
    ensures WellFormed(t) && Unassigned(t, i)
  {
    var e :| Enabled(s, e) && t == Next(s, e);
    if e.Build? {
      BuildUnassigned(s, e.b, i);
    } else if e.Step? {
      CallerUnassigned(s, i);
    }
  }

  lemma BuildUnassigned(s: State, b: nat, i: nat)
    requires WellFormed(s) && Enabled(s, Build(b)) && i < 2 && Unassigned(s, i)
    ensures WellFormed(BuilderStep(s, b)) && Unassigned(BuilderStep(s, b), i)
  {
  }

  lemma CallerUnassigned(s: State, i: nat)
    requires WellFormed(s) && Enabled(s, Step) && i < 2 && Unassigned(s, i)
    ensures WellFormed(CallerStep(s)) && Unassigned(CallerStep(s), i)
  {
  }

  lemma {:induction false} RunUnassigned(threads: nat, run: seq<State>, k: nat, i: nat)
    requires Run(threads, run) && k < |run| && i < 2
    ensures WellFormed(run[k]) && Unassigned(run[k], i)
  {
    if k > 0 {
      RunUnassigned(threads, run, k - 1, i);
      StepUnassigned(run[k - 1], run[k], i);
    }
  }

  ghost predicate FreeOfBuilders(s: State, i: nat) {
    forall b :: 0 <= b < |s.builders| ==> !s.builders[b].On(i)
  }

  /** However many rebuilds of a slot overlapped, orderly or not: with no builder outstanding and no
      `calculate_dataset` in progress on it, a slot that was ever assigned has its cache built from its
      seed, and publishes and claims that seed's id. */
  lemma QuietSlotIsReady(threads: nat, run: seq<State>, k: nat, i: nat)
    requires Run(threads, run) && k < |run| && i < 2
    ensures WellFormed(run[k])
    ensures FreeOfBuilders(run[k], i) && !run[k].caller.On(i) && run[k].loaded[i] != INVALID_ID ==>
      && run[k].cache[i] == Some(run[k].seed[i])
      && run[k].ready[i] == run[k].loaded[i] == Id(run[k].seed[i])
  {
    RunSettles(threads, run, k);
    assert SlotOk(run[k], i);
    assert forall b :: 0 <= b < |run[k].builders| && run[k].builders[b].Waits(i) ==> run[k].builders[b].On(i);
  }
}
