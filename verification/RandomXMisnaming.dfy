/** What one call of `calculate_dataset` can spoil: if a builder of the slot next in turn has yet to read the id
    it publishes and builds a seed with another id than the new one, the pool can go on to answer a job with a
    hash over another seed than the job's; and only then. */
module RandomXMisnaming {
  import opened Base
  import opened RandomXPool
  import opened RandomXRuns
  import opened RandomXNaming
  import opened Runs
  import EpochRing
  import HT = HashThreads

  /** One more step. */
  lemma Then(calls: Calls, a: State, s: State, e: Event) returns (t: State)
    requires Reaches(By(calls), a, s) && WellFormed(s) && Enabled(s, e)
    requires e.Calculate? ==> Permits(calls, s, e.seed)
    ensures t == Next(s, e) && WellFormed(t) && Reaches(By(calls), a, t)
  {
    t := Next(s, e);
    NextWellFormed(s, e);
    assert StepBy(calls, s, t);
    Runs.OneMore(By(calls), a, s, t);
  }

  lemma InvHere(calls: Calls, a: State, s: State)
    requires Inv(a) && Reaches(By(calls), a, s)
    ensures Inv(s)
  {
    forall x, y | Inv(x) && By(calls)(x, y) ensures Inv(y) {
      assert StepTo(x, y);
      StepInv(x, y);
    }
    KeptOn(By(calls), x => Inv(x), a, s);
  }

  // ---------------------------------------------------------------- a builder, a caller, a worker alone

  /** The builder that holds a slot's lock finishes: nothing changes but that slot. */
  lemma BuilderFinishes(calls: Calls, a: State, s: State, b: nat) returns (t: State)
    requires Inv(a) && Reaches(By(calls), a, s) && WellFormed(s)
    requires b < |s.builders| && !s.builders[b].Done? && !s.builders[b].Start? && s.builders[b].i < 2
    ensures Reaches(By(calls), a, t) && WellFormed(t)
    ensures var i := s.builders[b].i;
      && t.builders == s.builders[b := Done] && t.writer == s.writer[i := None]
      && t.ht == s.ht && t.loaded == s.loaded && t.seed == s.seed && t.ctr == s.ctr && t.caller == s.caller
      && t.ready[1 - i] == s.ready[1 - i] && t.cache[1 - i] == s.cache[1 - i]
    decreases ToDo(s.builders[b])
  {
    t := BuilderMoves(calls, a, s, b);
    if !s.builders[b].Published? {
      t := BuilderFinishes(calls, a, t, b);
    }
  }

  lemma BuilderMoves(calls: Calls, a: State, s: State, b: nat) returns (t: State)
    requires Inv(a) && Reaches(By(calls), a, s) && WellFormed(s)
    requires b < |s.builders| && !s.builders[b].Done? && !s.builders[b].Start? && s.builders[b].i < 2
    ensures Reaches(By(calls), a, t) && WellFormed(t)
    ensures var i, p := s.builders[b].i, s.builders[b];
      && |t.builders| == |s.builders| && t.builders == s.builders[b := t.builders[b]]
      && (if p.Published? then t.builders[b].Done? && t.writer == s.writer[i := None]
          else !t.builders[b].Done? && !t.builders[b].Start? && t.builders[b].i == i && t.writer == s.writer
               && ToDo(t.builders[b]) < ToDo(p))
      && t.ht == s.ht && t.loaded == s.loaded && t.seed == s.seed && t.ctr == s.ctr && t.caller == s.caller
      && t.ready[1 - i] == s.ready[1 - i] && t.cache[1 - i] == s.cache[1 - i]
  {
    t := Then(calls, a, s, Build(b));
  }

  function ToDo(p: Builder): nat {
    match p
    case Start(_) => 6
    case Locked(_) => 5
    case HasLow(_, _) => 4
    case Built(_) => 3
    case HasId(_, _) => 2
    case Published(_) => 1
    case Done => 0
  }

  /** An unnamed builder that holds the lock finishes its cache. */
  lemma BuilderBuilds(calls: Calls, a: State, s: State, b: nat) returns (t: State)
    requires Inv(a) && Reaches(By(calls), a, s) && WellFormed(s)
    requires b < |s.builders| && (s.builders[b].Locked? || s.builders[b].HasLow? || s.builders[b].Built?)
    requires s.builders[b].i < 2
    ensures Reaches(By(calls), a, t) && WellFormed(t)
    ensures var i := s.builders[b].i;
      && t == s.(builders := s.builders[b := Built(i)], cache := s.cache[i := Some(Builds(s, b))])
    decreases ToDo(s.builders[b])
  {
    InvHere(calls, a, s);
    assert BuilderOk(s, b);
    if s.builders[b].Built? {
      t := s;
    } else {
      t := Then(calls, a, s, Build(b));
      t := BuilderBuilds(calls, a, t, b);
    }
  }

  /** It then names it after the slot's seed, whatever that is by now, publishes it and is done. */
  lemma BuilderNames(calls: Calls, a: State, s: State, b: nat) returns (t: State)
    requires Inv(a) && Reaches(By(calls), a, s) && WellFormed(s)
    requires b < |s.builders| && s.builders[b].Built? && s.builders[b].i < 2
    ensures Reaches(By(calls), a, t) && WellFormed(t)
    ensures var i := s.builders[b].i;
      t == s.(builders := s.builders[b := Done], ready := s.ready[i := Id(s.seed[i])], writer := s.writer[i := None])
  {
    t := Then(calls, a, s, Build(b));
    t := Then(calls, a, t, Build(b));
    t := Then(calls, a, t, Build(b));
  }

  /** The caller stores the seed and its id and starts a builder. */
  lemma CallerFinishes(calls: Calls, a: State, s: State) returns (t: State)
    requires Inv(a) && Reaches(By(calls), a, s) && WellFormed(s) && s.caller.Invalidate?
    ensures Reaches(By(calls), a, t) && WellFormed(t)
    ensures var i, seed := s.caller.i, s.caller.seed;
      t == s.(ready := s.ready[i := INVALID_ID], seed := s.seed[i := seed], loaded := s.loaded[i := Id(seed)],
              builders := s.builders + [Start(i)], caller := Rest)
  {
    t := Then(calls, a, s, Step);
    t := Then(calls, a, t, Step);
    t := Then(calls, a, t, Step);
    t := Then(calls, a, t, Step);
    t := Then(calls, a, t, Step);
  }

  function StepsLeft(pc: HT.Pc<Seed>): nat {
    match pc
    case Idle => 0
    case Release(_) => 1
    case Reply(_, _) => 2
    case Hashing(_, _, _) => 3
    case Miss(_) => 3
    case Swapped(_, _) => 3
    case Ready(_, _) => 4
    case Recheck(_, _) => 5
    case Lock(_, _) => 6
    case Scan(_, i) => if i == 0 then 8 else 7
  }

  /** The step a worker that has a job takes next. */
  ghost function OwnEvent(s: State, w: nat): HT.Event<Seed>
    requires WellFormed(s) && w < |s.ht.workers| && !s.ht.workers[w].Idle?
    requires WorkerOk(s, w) && HT.PcOk(s.ht, s.ht.workers[w])
  {
    match s.ht.workers[w]
    case Scan(j, i) => HT.Read(w, s.ready[i] == Key(s, j))
    case Miss(_) => HT.Fail(w)
    case Lock(_, _) => HT.TakeLock(w)
    case Recheck(j, i) => HT.Again(w, s.ready[i] == Key(s, j))
    case Swapped(_, _) => HT.Fail(w)
    case Ready(_, i) => HT.Begin(w, s.cache[i].value)
    case Hashing(_, i, c) => HT.Finish(w, s.cache[i] == Some(c))
    case Reply(_, _) => HT.SetValue(w)
    case Release(_) => HT.Unlock(w)
  }

  /** It can be taken while no builder holds a lock, and brings the worker nearer to rest. */
  lemma OwnEventEnabled(s: State, w: nat)
    requires Inv(s) && s.writer == [None, None] && w < |s.ht.workers| && !s.ht.workers[w].Idle?
    ensures WorkerOk(s, w) && HT.PcOk(s.ht, s.ht.workers[w])
    ensures Enabled(s, Hash(OwnEvent(s, w)))
    ensures var t := HT.Next(s.ht, OwnEvent(s, w));
      && |t.workers| == |s.ht.workers| && StepsLeft(t.workers[w]) < StepsLeft(s.ht.workers[w])
      && t.queue == s.ht.queue && |t.jobs| == |s.ht.jobs|
      && forall v :: 0 <= v < |t.workers| && v != w ==> t.workers[v] == s.ht.workers[v]
  {
    assert WorkerOk(s, w) && HT.PcOk(s.ht, s.ht.workers[w]);
    assert s.ht.workers[w].Job().Some? ==> HT.Holds(s.ht, w, s.ht.workers[w].j);
  }

  /** A worker finishes its job. */
  lemma WorkerFinishes(calls: Calls, a: State, s: State, w: nat) returns (t: State)
    requires Inv(a) && Reaches(By(calls), a, s) && WellFormed(s) && s.writer == [None, None] && w < |s.ht.workers|
    ensures Reaches(By(calls), a, t) && WellFormed(t) && t == s.(ht := t.ht)
    ensures |t.ht.workers| == |s.ht.workers| && t.ht.workers[w].Idle?
    ensures t.ht.queue == s.ht.queue && |t.ht.jobs| == |s.ht.jobs|
    ensures forall v :: 0 <= v < |t.ht.workers| && v != w ==> t.ht.workers[v] == s.ht.workers[v]
    decreases StepsLeft(s.ht.workers[w])
  {
    t := s;
    if !s.ht.workers[w].Idle? {
      InvHere(calls, a, s);
      OwnEventEnabled(s, w);
      t := Then(calls, a, s, Hash(OwnEvent(s, w)));
      t := WorkerFinishes(calls, a, t, w);
    }
  }

  /** The first `n` workers finish theirs. */
  lemma WorkersFinish(calls: Calls, a: State, s: State, n: nat) returns (t: State)
    requires Inv(a) && Reaches(By(calls), a, s) && WellFormed(s) && s.writer == [None, None] && n <= |s.ht.workers|
    ensures Reaches(By(calls), a, t) && WellFormed(t) && t == s.(ht := t.ht)
    ensures |t.ht.workers| == |s.ht.workers| && forall w :: 0 <= w < n ==> t.ht.workers[w].Idle?
  {
    t := s;
    if n > 0 {
      t := WorkersFinish(calls, a, s, n - 1);
      t := WorkerFinishes(calls, a, t, n - 1);
    }
  }

  /** A worker serves every job that is queued. */
  lemma QueueIsServed(calls: Calls, a: State, s: State, w: nat) returns (t: State)
    requires Inv(a) && Reaches(By(calls), a, s) && WellFormed(s) && s.writer == [None, None]
    requires w < |s.ht.workers| && s.ht.workers[w].Idle?
    ensures Reaches(By(calls), a, t) && WellFormed(t) && t == s.(ht := t.ht)
    ensures |t.ht.workers| == |s.ht.workers| && t.ht.workers[w].Idle? && t.ht.queue == []
    decreases |s.ht.queue|
  {
    t := s;
    if s.ht.queue != [] {
      InvHere(calls, a, s);
      t := Then(calls, a, s, Hash(HT.Pop(w)));
      t := WorkerFinishes(calls, a, t, w);
      t := QueueIsServed(calls, a, t, w);
    }
  }

  // ---------------------------------------------------------------- a worker trusts the slot

  /** The job queued last asked for `id` and was answered with a hash over a seed with another id, for its client
      to read. */
  ghost predicate MisnamesLast(t: State, id: nat) {
    && t.ht.jobs != []
    && t.ht.jobs[|t.ht.jobs| - 1].arg == id
    && t.ht.jobs[|t.ht.jobs| - 1].answer.Hashed? && t.ht.jobs[|t.ht.jobs| - 1].fulfilled > 0
    && Id(t.ht.jobs[|t.ht.jobs| - 1].answer.built) != id
  }

  /** An idle worker answers a job for the id that slot `i` publishes, and no slot before it, with a hash over
      slot `i`'s cache, whatever seed that was built from. */
  lemma WorkerTrustsTheSlot(calls: Calls, a: State, s: State, w: nat, i: nat, id: nat) returns (t: State)
    requires Inv(a) && Reaches(By(calls), a, s) && WellFormed(s) && i < 2 && id < TWO63
    requires w < |s.ht.workers| && s.ht.workers[w].Idle? && s.ht.queue == []
    requires s.ready[i] == id && (i == 1 ==> s.ready[0] != id) && s.writer[i] == None && s.cache[i].Some?
    ensures Reaches(By(calls), a, t) && |t.ht.jobs| == |s.ht.jobs| + 1
    ensures t.ht.jobs[|s.ht.jobs|] == HT.Job(id, HT.Hashed(s.cache[i].value), 1, false, Some(w))
  {
    var j := |s.ht.jobs|;
    t := Then(calls, a, s, Hash(HT.Push(id)));
    t := Then(calls, a, t, Hash(HT.Pop(w)));
    t := WorkerFinds(calls, a, t, w, j, i);
    t := WorkerHashes(calls, a, t, w, j, i);
  }

  lemma WorkerFinds(calls: Calls, a: State, s: State, w: nat, j: nat, i: nat) returns (t: State)
    requires Inv(a) && Reaches(By(calls), a, s) && WellFormed(s)
    requires i < 2 && w < |s.ht.workers| && j < |s.ht.jobs| && s.ht.workers[w] == HT.Scan(j, 0)
    requires s.ready[i] == s.ht.jobs[j].arg && (i == 1 ==> s.ready[0] != s.ht.jobs[j].arg) && s.writer[i] == None
    ensures Reaches(By(calls), a, t) && WellFormed(t) && t == s.(ht := HT.To(s.ht, w, HT.Recheck(j, i)))
  {
    t := s;
    if i == 1 {
      t := Then(calls, a, t, Hash(HT.Read(w, false)));
    }
    t := Then(calls, a, t, Hash(HT.Read(w, true)));
    t := Then(calls, a, t, Hash(HT.TakeLock(w)));
  }

  lemma WorkerHashes(calls: Calls, a: State, s: State, w: nat, j: nat, i: nat) returns (t: State)
    requires Inv(a) && Reaches(By(calls), a, s) && WellFormed(s)
    requires i < 2 && w < |s.ht.workers| && j < |s.ht.jobs| && s.ht.workers[w] == HT.Recheck(j, i)
    requires s.ready[i] == s.ht.jobs[j].arg && s.cache[i].Some?
    ensures Reaches(By(calls), a, t)
    ensures t.ht.jobs == s.ht.jobs[
      j := s.ht.jobs[j].(answer := HT.Hashed(s.cache[i].value), fulfilled := s.ht.jobs[j].fulfilled + 1)]
  {
    t := Then(calls, a, s, Hash(HT.Again(w, true)));
    t := Then(calls, a, t, Hash(HT.Begin(w, s.cache[i].value)));
    t := Then(calls, a, t, Hash(HT.Finish(w, true)));
    t := Then(calls, a, t, Hash(HT.SetValue(w)));
  }

  // ---------------------------------------------------------------- the unlucky order

  /** Whoever holds the slot's lock, unless it is builder `b`, finishes. */
  lemma SlotIsReleased(calls: Calls, a: State, s: State, b: nat, k: nat) returns (t: State)
    requires Inv(a) && Reaches(By(calls), a, s) && WellFormed(s) && k < 2 && b < |s.builders|
    ensures Reaches(By(calls), a, t) && WellFormed(t)
    ensures t.ht == s.ht && t.loaded == s.loaded && t.seed == s.seed && t.ctr == s.ctr && t.caller == s.caller
    ensures |t.builders| == |s.builders| && t.builders[b] == s.builders[b]
    ensures t.writer[1 - k] == s.writer[1 - k] && (t.writer[k].Some? ==> s.writer[k] == t.writer[k] == Some(b))
    ensures t.cache[1 - k] == s.cache[1 - k] && (t.writer[k].Some? ==> t.cache == s.cache)
  {
    t := s;
    InvHere(calls, a, s);
    assert SlotOk(s, k);
    if s.writer[k].Some? && s.writer[k] != Some(b) {
      t := BuilderFinishes(calls, a, s, s.writer[k].value);
    }
  }

  /** A builder past its start holds its slot's lock and no other; one before it holds none. */
  lemma HolderIs(calls: Calls, a: State, s: State, b: nat)
    requires Inv(a) && Reaches(By(calls), a, s) && WellFormed(s) && b < |s.builders|
    requires !s.builders[b].Done? && s.builders[b].i < 2
    ensures var i := s.builders[b].i;
      && s.writer[1 - i] != Some(b)
      && (if s.builders[b].Start? then s.writer[i] != Some(b) else s.writer[i] == Some(b))
  {
    InvHere(calls, a, s);
    assert BuilderOk(s, b) && SlotOk(s, 0) && SlotOk(s, 1);
  }

  /** Both slots are released, but for what the builder itself holds. */
  lemma BothAreReleased(calls: Calls, a: State, s: State, b: nat) returns (t: State)
    requires Inv(a) && Reaches(By(calls), a, s) && WellFormed(s) && b < |s.builders|
    requires !s.builders[b].Done? && s.builders[b].i < 2
    ensures Reaches(By(calls), a, t) && WellFormed(t)
    ensures t.seed == s.seed && t.loaded == s.loaded && t.ctr == s.ctr && t.caller == s.caller && t.ht == s.ht
    ensures var i := s.builders[b].i;
      && b < |t.builders| && t.builders[b] == s.builders[b] && t.writer[1 - i] == None
      && (if s.builders[b].Start? then t.writer[i] == None else t.writer[i] == Some(b) && t.cache[i] == s.cache[i])
  {
    var i := s.builders[b].i;
    var u := SlotIsReleased(calls, a, s, b, 1 - i);
    HolderIs(calls, a, s, b);
    HolderIs(calls, a, u, b);
    t := SlotIsReleased(calls, a, u, b, i);
    HolderIs(calls, a, t, b);
  }

  /** An unnamed builder comes to have its cache complete, and no other holds a lock. */
  lemma BuilderGetsThere(calls: Calls, a: State, s: State, b: nat) returns (t: State)
    requires Inv(a) && Reaches(By(calls), a, s) && WellFormed(s) && b < |s.builders|
    requires !s.builders[b].Done? && s.builders[b].i < 2 && s.builders[b].Unnamed(s.builders[b].i)
    ensures Reaches(By(calls), a, t) && WellFormed(t)
    ensures t.seed == s.seed && t.loaded == s.loaded && t.ctr == s.ctr && t.caller == s.caller
    ensures |t.ht.workers| == |s.ht.workers|
    ensures var i := s.builders[b].i;
      && b < |t.builders| && t.builders[b] == Built(i) && t.cache[i] == Some(Builds(s, b)) && t.writer[1 - i] == None
  {
    t := BothAreReleased(calls, a, s, b);
    if t.builders[b].Start? {
      t := WorkersFinish(calls, a, t, |t.ht.workers|);
      t := Then(calls, a, t, Build(b));
    }
    assert Builds(t, b) == Builds(s, b);
    t := BuilderBuilds(calls, a, t, b);
  }

  /** From the beginning of the call to where the slot publishes the new id over the old cache. */
  lemma SlotIsMisnamed(calls: Calls, a: State, s: State, b: nat) returns (t: State)
    requires Inv(a) && Reaches(By(calls), a, s) && WellFormed(s) && s.caller.Invalidate? && b < |s.builders|
    requires s.builders[b].Unnamed(s.caller.i)
    ensures Reaches(By(calls), a, t) && WellFormed(t) && t.caller.Rest? && t.ctr == s.ctr
    ensures |t.ht.workers| == |s.ht.workers| && t.writer == [None, None]
    ensures t.loaded[1 - s.caller.i] == s.loaded[1 - s.caller.i]
    ensures var i, id := s.caller.i, Id(s.caller.seed);
      t.ready[i] == id && t.cache[i] == Some(Builds(s, b))
  {
    var i := s.caller.i;
    t := BuilderGetsThere(calls, a, s, b);
    t := CallerFinishes(calls, a, t);
    t := BuilderNames(calls, a, t, b);
  }

  lemma StaysNamed(a: State, s: State)
    requires Inv(a) && NamesOk(a, 0) && Reaches(By(MatchingCalls), a, s)
    ensures Inv(s) && NamesOk(s, 0)
  {
    forall x, y | Inv(x) && NamesOk(x, 0) && By(MatchingCalls)(x, y) ensures Inv(y) && NamesOk(y, 0) {
      var e :| Enabled(x, e) && y == Next(x, e) && (e.Calculate? ==> Permits(MatchingCalls, x, e.seed));
      NextInv(x, e);
      NextNamesOk(x, e, 0);
    }
    KeptOn(By(MatchingCalls), x => Inv(x) && NamesOk(x, 0), a, s);
  }

  /** Slot 0 stops publishing, by a call with the seed it has, which matches if the slot was well named before. */
  lemma FirstSlotYields(calls: Calls, a: State, s: State) returns (t: State)
    requires Inv(a) && Reaches(By(calls), a, s) && WellFormed(s) && s.caller.Rest? && s.ctr % 2 == 0
    requires calls.AnyCalls? || (calls.MatchingCalls? && NamesOk(a, 0))
    ensures Reaches(By(calls), a, t) && WellFormed(t)
    ensures t.ht == s.ht && t.writer == s.writer && t.cache == s.cache
    ensures t.ready[0] == INVALID_ID && t.ready[1] == s.ready[1]
  {
    var seed := s.seed[0];
    if calls.MatchingCalls? {
      StaysNamed(a, s);
      forall b | 0 <= b < |s.builders| && s.builders[b].Unnamed(0) ensures Id(Builds(s, b)) == Id(seed) {
        assert BuilderNamed(s, b, 0);
      }
    }
    t := Then(calls, a, s, Calculate(seed));
    t := Then(calls, a, t, Step);
  }

  /** The builders of slot 0 among the first `n` finish, while nobody holds a lock. */
  lemma BuildersFinish(calls: Calls, a: State, s: State, n: nat) returns (t: State)
    requires Inv(a) && Reaches(By(calls), a, s) && WellFormed(s) && s.writer == [None, None] && n <= |s.builders|
    ensures Reaches(By(calls), a, t) && WellFormed(t) && t.writer == [None, None]
    ensures t.seed == s.seed && t.loaded == s.loaded && t.ctr == s.ctr && t.caller == s.caller
    ensures |t.ht.workers| == |s.ht.workers| && t.ready[1] == s.ready[1] && t.cache[1] == s.cache[1]
    ensures |t.builders| == |s.builders| && forall b :: 0 <= b < n ==> !t.builders[b].On(0)
  {
    t := s;
    if n > 0 {
      t := BuildersFinish(calls, a, s, n - 1);
      if t.builders[n - 1].On(0) {
        HolderIs(calls, a, t, n - 1);
        t := WorkersFinish(calls, a, t, |t.ht.workers|);
        t := Then(calls, a, t, Build(n - 1));
        t := BuilderFinishes(calls, a, t, n - 1);
      }
    }
  }

  lemma SettledHere(calls: Calls, a: State, s: State)
    requires Inv(a) && Settling(a, 0) && Unassigned(a, 0) && Reaches(By(calls), a, s)
    ensures Inv(s) && Settling(s, 0) && Unassigned(s, 0)
  {
    var inv := x => Inv(x) && Settling(x, 0) && Unassigned(x, 0);
    forall x, y | inv(x) && By(calls)(x, y) ensures inv(y) {
      assert StepTo(x, y);
      StepInv(x, y);
      ThenSettling(x, y, 0);
      StepUnassigned(x, y, 0);
    }
    KeptOn(By(calls), inv, a, s);
  }

  /** The call is for an id slot 0 is not loaded with, and slot 0 is what runs make of it. */
  ghost predicate IsNew(a: State) {
    Inv(a) && Settling(a, 0) && Unassigned(a, 0) && a.caller.Invalidate? && Id(a.caller.seed) != a.loaded[0]
  }

  /** Then, once its builders have finished, slot 0 does not publish that id. */
  lemma FirstSlotFinishes(calls: Calls, a: State, s: State) returns (t: State)
    requires IsNew(a) && Reaches(By(calls), a, s) && WellFormed(s) && s.caller.Rest?
    requires s.writer == [None, None] && s.loaded[0] == a.loaded[0]
    ensures Reaches(By(calls), a, t) && WellFormed(t) && t.writer == [None, None] && t.caller.Rest? && t.ctr == s.ctr
    ensures |t.ht.workers| == |s.ht.workers| && t.ready[1] == s.ready[1] && t.cache[1] == s.cache[1]
    ensures t.ready[0] != Id(a.caller.seed)
  {
    t := BuildersFinish(calls, a, s, |s.builders|);
    SettledHere(calls, a, t);
    assert forall b :: 0 <= b < |t.builders| && t.builders[b].Waits(0) ==> t.builders[b].On(0);
  }

  /** From the beginning of a call for another id than the builder builds. */
  lemma CallMisnames(calls: Calls, a: State, b: nat)
    requires Inv(a) && a.caller.Invalidate? && a.caller.i == (a.ctr + 1) % 2 && a.ht.workers != []
    requires b < |a.builders| && a.builders[b].Unnamed(a.caller.i) && Id(Builds(a, b)) != Id(a.caller.seed)
    requires a.caller.i == 1 ==> IsNew(a) || calls.AnyCalls? || (calls.MatchingCalls? && NamesOk(a, 0))
    ensures exists t :: Reaches(By(calls), a, t) && MisnamesLast(t, Id(a.caller.seed))
  {
    var i, id := a.caller.i, Id(a.caller.seed);
    Runs.Stays(By(calls), a);
    var t := SlotIsMisnamed(calls, a, a, b);
    if i == 1 && IsNew(a) {
      t := FirstSlotFinishes(calls, a, t);
    }
    t := WorkerFinishes(calls, a, t, 0);
    t := QueueIsServed(calls, a, t, 0);
    if i == 1 && !IsNew(a) && t.ready[0] == id {
      t := FirstSlotYields(calls, a, t);
    }
    t := WorkerTrustsTheSlot(calls, a, t, 0, i, id);
    assert MisnamesLast(t, id);
  }

  lemma MismatchMisnames(calls: Calls, s: State, seed: Seed, b: nat)
    requires Inv(s) && s.caller.Rest? && s.ht.workers != []
    requires b < |s.builders| && s.builders[b].Unnamed(s.ctr % 2) && Id(Builds(s, b)) != Id(seed)
    requires calls.MatchingCalls? ==> NamesOk(s, 0)
    requires calls.MatchingNewCalls? || calls.GuardedCalls? ==>
      Id(seed) !in s.loaded && Settling(s, 0) && Unassigned(s, 0)
    ensures exists t :: Reaches(By(calls), Next(s, Calculate(seed)), t) && MisnamesLast(t, Id(seed))
  {
    var a := Next(s, Calculate(seed));
    NextInv(s, Calculate(seed));
    EpochRing.Parity(s.ctr);
    if calls.MatchingCalls? && s.ctr % 2 == 1 {
      NextNamesOk(s, Calculate(seed), 0);
    }
    if (calls.MatchingNewCalls? || calls.GuardedCalls?) && s.ctr % 2 == 1 {
      NextSettling(s, Calculate(seed), 0);
      assert StepTo(s, a);
      StepUnassigned(s, a, 0);
    }
    assert Builds(a, b) == Builds(s, b);
    CallMisnames(calls, a, b);
  }

  /** From any state of any run at all, whatever its workers, builders and queue are at. */
  lemma UnmatchedCallMisnames(threads: nat, run: seq<State>, k: nat, seed: Seed)
    requires Run(threads, run) && k < |run| && threads > 0
    requires run[k].caller.Rest? && !Matching(run[k], seed)
    ensures WellFormed(run[k]) && Enabled(run[k], Calculate(seed))
    ensures exists t :: Reaches(By(AnyCalls), Next(run[k], Calculate(seed)), t) && MisnamesLast(t, Id(seed))
  {
    RunInv(threads, run, k);
    WorkersStay(threads, run, k);
    var b :| 0 <= b < |run[k].builders| && run[k].builders[b].Unnamed(run[k].ctr % 2) && Id(Builds(run[k], b)) != Id(seed);
    MismatchMisnames(AnyCalls, run[k], seed, b);
  }

  lemma {:induction false} WorkersStay(threads: nat, run: seq<State>, k: nat)
    requires Run(threads, run) && k < |run|
    ensures |run[k].ht.workers| == threads
  {
    if k > 0 {
      WorkersStay(threads, run, k - 1);
      assert StepTo(run[k - 1], run[k]);
    }
  }

  /** The exact condition: after any run whose calls all matched, one more call is safe, that is, no run that
      goes on from it with matching calls ever answers a job over a seed with another id, if and only if every
      builder of the slot next in turn that has yet to read the id it publishes builds a seed with the new id. */
  lemma NextCallIsSafeIff(threads: nat, run: seq<State>, k: nat, seed: Seed)
    requires Run(threads, run) && k < |run| && threads > 0 && forall m :: 0 < m <= k ==> CallsMatch(run, m)
    requires run[k].caller.Rest?
    ensures WellFormed(run[k]) && Enabled(run[k], Calculate(seed))
    ensures Matching(run[k], seed) <==>
      forall t :: Reaches(By(MatchingCalls), Next(run[k], Calculate(seed)), t) ==> JobsNamed(t)
  {
    var s := run[k];
    MatchingRunsAreWellNamed(threads, run, k);
    WorkersStay(threads, run, k);
    var a := Next(s, Calculate(seed));
    if Matching(s, seed) {
      assert StepBy(MatchingCalls, s, a);
      WellNamedStep(s, a);
      forall t | Reaches(By(MatchingCalls), a, t) ensures JobsNamed(t) {
        StaysWellNamed(a, t);
      }
    } else {
      var b :| 0 <= b < |s.builders| && s.builders[b].Unnamed(s.ctr % 2) && Id(Builds(s, b)) != Id(seed);
      MismatchMisnames(MatchingCalls, s, seed, b);
      var t :| Reaches(By(MatchingCalls), a, t) && MisnamesLast(t, Id(seed));
      assert !JobsNamed(t);
    }
  }

  /** The same for a caller that calls only for ids no slot is loaded with, and goes on so. */
  lemma NextNewCallIsSafeIff(threads: nat, run: seq<State>, k: nat, seed: Seed)
    requires Run(threads, run) && k < |run| && threads > 0 && forall m :: 0 < m <= k ==> CallsMatch(run, m)
    requires run[k].caller.Rest? && Id(seed) !in run[k].loaded
    ensures WellFormed(run[k]) && Enabled(run[k], Calculate(seed))
    ensures Matching(run[k], seed) <==>
      forall t :: Reaches(By(MatchingNewCalls), Next(run[k], Calculate(seed)), t) ==> JobsNamed(t)
  {
    var s := run[k];
    MatchingRunsAreWellNamed(threads, run, k);
    WorkersStay(threads, run, k);
    var a := Next(s, Calculate(seed));
    if Matching(s, seed) {
      NextCallIsSafeIff(threads, run, k, seed);
      forall t | Reaches(By(MatchingNewCalls), a, t) ensures JobsNamed(t) {
        Wider(By(MatchingNewCalls), By(MatchingCalls), a, t);
      }
    } else {
      RunSettles(threads, run, k);
      RunUnassigned(threads, run, k, 0);
      var b :| 0 <= b < |s.builders| && s.builders[b].Unnamed(s.ctr % 2) && Id(Builds(s, b)) != Id(seed);
      MismatchMisnames(MatchingNewCalls, s, seed, b);
      var t :| Reaches(By(MatchingNewCalls), a, t) && MisnamesLast(t, Id(seed));
      assert !JobsNamed(t);
    }
  }

  /** And calls that do not match can be made: from the start, three calls for seeds with ids 1, 2 and 3 before
      the builder of the first gets to run, and a job for id 3 is hashed over another seed. */
  lemma DisorderMisnames(s: State)
    requires Init(1, s)
    ensures exists t :: Reaches(By(AnyCalls), s, t) && MisnamesLast(t, 3)
  {
    var one, two, three := Seed(1, 0), Seed(2, 0), Seed(3, 0);
    InitInv(1, s);
    Runs.Stays(By(AnyCalls), s);
    var t := Then(AnyCalls, s, s, Calculate(one));
    t := CallerFinishes(AnyCalls, s, t);
    t := Then(AnyCalls, s, t, Calculate(two));
    t := CallerFinishes(AnyCalls, s, t);
    MismatchMisnames(AnyCalls, t, three, 0);
    var u :| Reaches(By(AnyCalls), Next(t, Calculate(three)), u) && MisnamesLast(u, Id(three));
    t := Then(AnyCalls, s, t, Calculate(three));
    Continues(By(AnyCalls), s, t, u);
  }
}
