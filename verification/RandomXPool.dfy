/** The RandomX pool: one caller of `calculate_dataset`, any number of builder threads and of hash
    threads, interleaved at every atomic access and lock operation.

    Unlike the ProgPow pool, a builder reads the slot's seed while it holds the lock but the caller
    overwrites that seed without it, and the builder takes the id it publishes from the seed as it then
    is.  A seed is stored and read as two 16-byte halves, low half first, so a read can be torn. */
module RandomXPool {
  import opened Base
  import HT = HashThreads

  const INVALID_ID: nat := TWO64 - 1

  /** A `v32` as its two little-endian 16-byte halves. */
  datatype Seed = Seed(lo: nat, hi: nat)

  /** `get_id`: the first eight bytes without their top bit. */
  function Id(seed: Seed): (id: nat)
    ensures id < TWO63 && id != INVALID_ID
  {
    seed.lo % TWO63
  }

  /** `dataset_thd_main`; the slot's lock is held from `Locked` to `Published`. */
  datatype Builder =
    | Start(i: nat)
    | Locked(i: nat)
    | HasLow(i: nat, lo: nat)      // initialising the cache, half of the seed read
    | Built(i: nat)
    | HasId(i: nat, id: nat)
    | Published(i: nat)
    | Done
  {
    predicate On(slot: nat) {
      !Done? && i == slot
    }

    predicate HoldsExclusive(slot: nat) {
      !Done? && !Start? && i == slot
    }

    predicate Rebuilds(slot: nat) {
      (HasLow? || Built? || HasId?) && i == slot
    }

    predicate Waits(slot: nat) {
      (Start? || Locked?) && i == slot
    }

    /** Has yet to read the id it is going to publish. */
    predicate Unnamed(slot: nat) {
      (Start? || Locked? || HasLow? || Built?) && i == slot
    }
  }

  /** The stores of `calculate_dataset`, in order. */
  datatype Caller =
    | Rest
    | Invalidate(i: nat, seed: Seed)
    | StoreLow(i: nat, seed: Seed)
    | StoreHigh(i: nat, seed: Seed)
    | Load(i: nat, seed: Seed)
    | Spawn(i: nat)
  {
    predicate On(slot: nat) {
      !Rest? && i == slot
    }
  }

  /** `given` records the seeds passed to `calculate_dataset`; `orderly` says that so far no slot was
      reassigned while a builder for it had yet to read the id it publishes. */
  datatype State = State(
    ht: HT.State<Seed>,
    loaded: seq<nat>, ready: seq<nat>, seed: seq<Seed>, cache: seq<Option<Seed>>, writer: seq<Option<nat>>,
    ctr: u64, builders: seq<Builder>, caller: Caller, given: set<Seed>, orderly: bool)

  datatype Event =
    | Hash(h: HT.Event<Seed>)
    | Build(b: nat)
    | Calculate(seed: Seed)
    | Step

  /** The seeds of the slots start out uninitialised. */
  ghost predicate Init(threads: nat, s: State) {
    && |s.seed| == 2
    && s == State(HT.Init(threads), [INVALID_ID, INVALID_ID], [INVALID_ID, INVALID_ID], s.seed,
                  [None, None], [None, None], 0, [], Rest, {}, true)
  }

  predicate WellFormed(s: State) {
    && |s.loaded| == |s.ready| == |s.seed| == |s.cache| == |s.writer| == 2
    && (!s.caller.Rest? ==> s.caller.i < 2)
  }

  /** The job's `dataset_id`. */
  function Key(s: State, j: nat): nat {
    if j < |s.ht.jobs| then s.ht.jobs[j].arg else INVALID_ID
  }

  predicate FreeOfReaders(s: State, i: nat) {
    forall w :: 0 <= w < |s.ht.workers| ==> !s.ht.workers[w].HoldsShared(i)
  }

  predicate AllNamed(s: State, i: nat) {
    forall b :: 0 <= b < |s.builders| ==> !s.builders[b].Unnamed(i)
  }

  /** What the pool's memory allows a hash thread to read, and when its lock is free.  A job asks for the
      id of some seed. */
  predicate Allows(s: State, h: HT.Event<Seed>)
    requires WellFormed(s) && HT.Enabled(s.ht, h)
  {
    match h
    case Push(arg) => arg < TWO63
    case Read(w, hit) => s.ht.workers[w].i < 2 && hit == (s.ready[s.ht.workers[w].i] == Key(s, s.ht.workers[w].j))
    case TakeLock(w) => s.ht.workers[w].i < 2 && s.writer[s.ht.workers[w].i] == None
    case Again(w, hit) => s.ht.workers[w].i < 2 && hit == (s.ready[s.ht.workers[w].i] == Key(s, s.ht.workers[w].j))
    case Begin(w, c) => s.ht.workers[w].i < 2 && s.cache[s.ht.workers[w].i] == Some(c)
    case Finish(w, intact) => s.ht.workers[w].i < 2 && intact == (s.cache[s.ht.workers[w].i] == Some(s.ht.workers[w].b))
    case _ => true
  }

  predicate Enabled(s: State, e: Event)
    requires WellFormed(s)
  {
    match e
    case Hash(h) => HT.Enabled(s.ht, h) && Allows(s, h)
    case Build(b) =>
      && b < |s.builders| && !s.builders[b].Done? && s.builders[b].i < 2
      && (s.builders[b].Start? ==> s.writer[s.builders[b].i] == None && FreeOfReaders(s, s.builders[b].i))
    case Calculate(_) => s.caller.Rest?
    case Step => !s.caller.Rest?
  }

  function Next(s: State, e: Event): State
    requires WellFormed(s) && Enabled(s, e)
  {
    match e
    case Hash(h) => s.(ht := HT.Next(s.ht, h))
    case Build(b) => BuilderStep(s, b)
    case Calculate(seed) =>
      var i := s.ctr % 2;
      s.(ctr := (s.ctr + 1) % TWO64, caller := Invalidate(i, seed), given := s.given + {seed},
         orderly := s.orderly && AllNamed(s, i))
    case Step => CallerStep(s)
  }

  function BuilderStep(s: State, b: nat): State
    requires WellFormed(s) && b < |s.builders| && !s.builders[b].Done? && s.builders[b].i < 2
  {
    var i := s.builders[b].i;
    match s.builders[b]
    case Start(_) => s.(builders := s.builders[b := Locked(i)], writer := s.writer[i := Some(b)])
    case Locked(_) => s.(builders := s.builders[b := HasLow(i, s.seed[i].lo)], cache := s.cache[i := None])
    case HasLow(_, lo) =>
      s.(builders := s.builders[b := Built(i)], cache := s.cache[i := Some(Seed(lo, s.seed[i].hi))])
    case Built(_) => s.(builders := s.builders[b := HasId(i, Id(s.seed[i]))])
    case HasId(_, id) => s.(builders := s.builders[b := Published(i)], ready := s.ready[i := id])
    case Published(_) => s.(builders := s.builders[b := Done], writer := s.writer[i := None])
  }

  function CallerStep(s: State): State
    requires WellFormed(s) && !s.caller.Rest?
  {
    var i := s.caller.i;
    match s.caller
    case Invalidate(_, seed) => s.(ready := s.ready[i := INVALID_ID], caller := StoreLow(i, seed))
    case StoreLow(_, seed) => s.(seed := s.seed[i := Seed(seed.lo, s.seed[i].hi)], caller := StoreHigh(i, seed))
    case StoreHigh(_, seed) => s.(seed := s.seed[i := Seed(s.seed[i].lo, seed.hi)], caller := Load(i, seed))
    case Load(_, seed) => s.(loaded := s.loaded[i := Id(seed)], caller := Spawn(i))
    case Spawn(_) => s.(builders := s.builders + [Start(i)], caller := Rest)
  }

  // ---------------------------------------------------------------- safety

  ghost predicate Rebuilding(s: State, i: nat)
    requires WellFormed(s) && i < 2
  {
    s.writer[i].Some? && s.writer[i].value < |s.builders| && s.builders[s.writer[i].value].Rebuilds(i)
  }

  /** The slot's cache is complete; in an orderly run it was built from a seed given with this id. */
  ghost predicate Serves(s: State, i: nat, id: nat)
    requires WellFormed(s) && i < 2
  {
    s.cache[i].Some? && (s.orderly ==> s.cache[i].value in s.given && Id(s.cache[i].value) == id)
  }

  ghost predicate SlotOk(s: State, i: nat)
    requires WellFormed(s) && i < 2
  {
    && (!Rebuilding(s, i) ==> s.ready[i] == INVALID_ID || Serves(s, i, s.ready[i]))
    && (s.writer[i].Some? ==>
          s.writer[i].value < |s.builders| && s.builders[s.writer[i].value].HoldsExclusive(i))
  }

  ghost predicate BuilderOk(s: State, b: nat)
    requires WellFormed(s) && b < |s.builders|
  {
    var p := s.builders[b];
    && (!p.Done? ==> p.i < 2)
    && (!p.Done? && !p.Start? ==> s.writer[p.i] == Some(b))
    && (p.Built? ==> s.cache[p.i].Some?)
    && (p.HasId? ==> Serves(s, p.i, p.id))
    && (s.orderly && !p.Done? && p.Unnamed(p.i) ==>
          && !s.caller.On(p.i) && s.seed[p.i] in s.given
          && (p.HasLow? ==> p.lo == s.seed[p.i].lo)
          && (p.Built? ==> s.cache[p.i] == Some(s.seed[p.i]))
          && forall c :: 0 <= c < |s.builders| && s.builders[c].Unnamed(p.i) ==> c == b)
  }

  ghost predicate WorkerOk(s: State, w: nat)
    requires WellFormed(s) && w < |s.ht.workers|
  {
    && (forall i: nat | i < 2 :: s.ht.workers[w].HoldsShared(i) ==> s.writer[i] == None)
    && match s.ht.workers[w]
    case Ready(j, i) => i < 2 && Serves(s, i, Key(s, j))
    case Hashing(j, i, c) => i < 2 && Serves(s, i, Key(s, j)) && s.cache[i] == Some(c)
    case _ => true
  }

  ghost predicate JobOk(s: State, j: nat)
    requires j < |s.ht.jobs|
  {
    && s.ht.jobs[j].arg < TWO63
    && match s.ht.jobs[j].answer
    case Hashed(c) => s.orderly ==> c in s.given && Id(c) == s.ht.jobs[j].arg
    case Garbage => false
    case _ => true
  }

  ghost predicate CallerOk(s: State)
    requires WellFormed(s)
  {
    match s.caller
    case Rest => true
    case Invalidate(i, seed) => seed in s.given && (s.orderly ==> AllNamed(s, i))
    case StoreLow(i, seed) => seed in s.given && (s.orderly ==> AllNamed(s, i))
    case StoreHigh(i, seed) => seed in s.given && s.seed[i].lo == seed.lo && (s.orderly ==> AllNamed(s, i))
    case Load(i, seed) => seed in s.given && s.seed[i] == seed && (s.orderly ==> AllNamed(s, i))
    case Spawn(i) => s.seed[i] in s.given && (s.orderly ==> AllNamed(s, i))
  }

  ghost predicate Inv(s: State) {
    && WellFormed(s)
    && HT.Inv(s.ht)
    && SlotOk(s, 0) && SlotOk(s, 1)
    && (forall b :: 0 <= b < |s.builders| ==> BuilderOk(s, b))
    && (forall w :: 0 <= w < |s.ht.workers| ==> WorkerOk(s, w))
    && (forall j :: 0 <= j < |s.ht.jobs| ==> JobOk(s, j))
    && CallerOk(s)
  }

  lemma InitInv(threads: nat, s: State)
    requires Init(threads, s)
    ensures Inv(s)
  {
    HT.InitInv<Seed>(threads);
  }

  lemma HashInv(s: State, h: HT.Event<Seed>)
    requires Inv(s) && Enabled(s, Hash(h))
    ensures Inv(Next(s, Hash(h)))
  {
    var t := Next(s, Hash(h));
    HT.NextInv(s.ht, h);
    forall b | 0 <= b < |t.builders| ensures BuilderOk(t, b) {
      assert BuilderOk(s, b);
    }
    forall w | 0 <= w < |t.ht.workers| ensures WorkerOk(t, w) {
      assert WorkerOk(s, w) && HT.PcOk(s.ht, s.ht.workers[w]);
      if s.ht.workers[w].Job().Some? {
        assert HT.Holds(s.ht, w, s.ht.workers[w].j) && JobOk(s, s.ht.workers[w].j);
      }
      HashWorker(s, h, w);
    }
    forall j | 0 <= j < |t.ht.jobs| ensures JobOk(t, j) {
      HashJob(s, h, j);
    }
  }

  lemma HashWorker(s: State, h: HT.Event<Seed>, w: nat)
    requires WellFormed(s) && Enabled(s, Hash(h)) && w < |s.ht.workers|
    requires SlotOk(s, 0) && SlotOk(s, 1) && WorkerOk(s, w) && HT.PcOk(s.ht, s.ht.workers[w])
    requires s.ht.workers[w].Job().Some? ==> s.ht.workers[w].j < |s.ht.jobs| && JobOk(s, s.ht.workers[w].j)
    ensures WorkerOk(Next(s, Hash(h)), w)
  {
    if HT.Worker(h) == Some(w) {
      OwnStep(s, h, w);
    }
  }

  lemma OwnStep(s: State, h: HT.Event<Seed>, w: nat)
    requires WellFormed(s) && Enabled(s, Hash(h)) && w < |s.ht.workers| && HT.Worker(h) == Some(w)
    requires SlotOk(s, 0) && SlotOk(s, 1) && WorkerOk(s, w) && HT.PcOk(s.ht, s.ht.workers[w])
    requires s.ht.workers[w].Job().Some? ==> s.ht.workers[w].j < |s.ht.jobs| && JobOk(s, s.ht.workers[w].j)
    ensures WorkerOk(Next(s, Hash(h)), w)
  {
  }

  lemma HashJob(s: State, h: HT.Event<Seed>, j: nat)
    requires Inv(s) && Enabled(s, Hash(h)) && j < |HT.Next(s.ht, h).jobs|
    ensures JobOk(Next(s, Hash(h)), j)
  {
    assert j < |s.ht.jobs| ==> JobOk(s, j);
    assert h.Finish? ==> WorkerOk(s, h.w);
  }

  lemma BuilderInv(s: State, b: nat)
    requires Inv(s) && Enabled(s, Build(b))
    ensures Inv(Next(s, Build(b)))
  {
    var t := Next(s, Build(b));
    assert BuilderOk(s, b);
    BuilderSlot(s, b, 0);
    BuilderSlot(s, b, 1);
    forall c | 0 <= c < |t.builders| ensures BuilderOk(t, c) {
      BuilderBuilder(s, b, c);
    }
    forall w | 0 <= w < |t.ht.workers| ensures WorkerOk(t, w) {
      assert WorkerOk(s, w);
      BuilderWorker(s, b, w);
    }
    forall j | 0 <= j < |t.ht.jobs| ensures JobOk(t, j) {
      assert JobOk(s, j);
    }
    BuilderCaller(s, b);
  }

  lemma BuilderWorker(s: State, b: nat, w: nat)
    requires WellFormed(s) && Enabled(s, Build(b)) && w < |s.ht.workers|
    requires BuilderOk(s, b) && WorkerOk(s, w)
    ensures WorkerOk(BuilderStep(s, b), w)
  {
  }

  lemma BuilderCaller(s: State, b: nat)
    requires WellFormed(s) && Enabled(s, Build(b)) && CallerOk(s)
    ensures CallerOk(BuilderStep(s, b))
  {
    var t := BuilderStep(s, b);
    assert forall i: nat :: AllNamed(s, i) ==> AllNamed(t, i);
  }

  lemma BuilderSlot(s: State, b: nat, i: nat)
    requires WellFormed(s) && Enabled(s, Build(b)) && i < 2
    requires SlotOk(s, i) && BuilderOk(s, b)
    ensures SlotOk(BuilderStep(s, b), i)
  {
  }

  lemma BuilderBuilder(s: State, b: nat, c: nat)
    requires WellFormed(s) && Enabled(s, Build(b)) && c < |s.builders|
    requires BuilderOk(s, b) && BuilderOk(s, c)
    ensures BuilderOk(BuilderStep(s, b), c)
  {
  }

  lemma CallerInv(s: State)
    requires Inv(s) && Enabled(s, Step)
    ensures Inv(Next(s, Step))
  {
    var t := Next(s, Step);
    forall c | 0 <= c < |t.builders| ensures BuilderOk(t, c) {
      assert c < |s.builders| ==> BuilderOk(s, c);
      CallerBuilder(s, c);
    }
    forall w | 0 <= w < |t.ht.workers| ensures WorkerOk(t, w) {
      assert WorkerOk(s, w);
      CallerWorker(s, w);
    }
    forall j | 0 <= j < |t.ht.jobs| ensures JobOk(t, j) {
      assert JobOk(s, j);
    }
    CallerSlot(s, 0);
    CallerSlot(s, 1);
    CallerCaller(s);
  }

  lemma CallerBuilder(s: State, c: nat)
    requires WellFormed(s) && Enabled(s, Step) && CallerOk(s)
    requires c < |CallerStep(s).builders| && (c < |s.builders| ==> BuilderOk(s, c))
    ensures BuilderOk(CallerStep(s), c)
  {
    var t := CallerStep(s);
    assert forall d :: 0 <= d < |s.builders| ==> t.builders[d] == s.builders[d];
  }

  lemma CallerWorker(s: State, w: nat)
    requires WellFormed(s) && Enabled(s, Step) && w < |s.ht.workers| && WorkerOk(s, w)
    ensures WorkerOk(CallerStep(s), w)
  {
  }

  lemma CallerSlot(s: State, i: nat)
    requires WellFormed(s) && Enabled(s, Step) && i < 2 && SlotOk(s, i)
    ensures SlotOk(CallerStep(s), i)
  {
  }

  lemma CallerCaller(s: State)
    requires WellFormed(s) && Enabled(s, Step) && CallerOk(s)
    ensures CallerOk(CallerStep(s))
  {
  }

  lemma CalculateInv(s: State, seed: Seed)
    requires Inv(s) && Enabled(s, Calculate(seed))
    ensures Inv(Next(s, Calculate(seed)))
  {
    var t := Next(s, Calculate(seed));
    forall c | 0 <= c < |t.builders| ensures BuilderOk(t, c) {
      assert BuilderOk(s, c);
    }
    forall w | 0 <= w < |t.ht.workers| ensures WorkerOk(t, w) {
      assert WorkerOk(s, w);
    }
    forall j | 0 <= j < |t.ht.jobs| ensures JobOk(t, j) {
      assert JobOk(s, j);
    }
  }
}
