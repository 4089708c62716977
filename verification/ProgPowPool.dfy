/** The ProgPow pool: one notifier, any number of builder threads and of hash threads, interleaved at
    every atomic access and lock operation.

    A context is a heap object with an identity and the epoch it was created for.  A slot's lock is
    held exclusively by the builder `writer` names, and shared by the hash threads at the program
    points between taking and releasing it. */
module ProgPowPool {
  import opened Base
  import opened EpochRing
  import HT = HashThreads

  datatype Ctx = Ctx(id: nat, epoch: nat)

  /** `dataset_thd_main`; the slot's lock is held from `Locked` to `Published`. */
  datatype Builder =
    | Start(i: nat)
    | Locked(i: nat)
    | Snapped(i: nat, e: nat)      // has read `loaded_epoch`
    | Freed(i: nat, e: nat)        // has destroyed the old context, if there was one
    | Made(i: nat, e: nat)         // has stored the new one
    | Published(i: nat)            // has set `ready_epoch`
    | Done
  {
    predicate On(slot: nat) {
      !Done? && i == slot
    }

    predicate HoldsExclusive(slot: nat) {
      !Done? && !Start? && i == slot
    }

    predicate HasSnapshot(slot: nat, epoch: nat) {
      (Snapped? || Freed? || Made?) && i == slot && e == epoch
    }

    predicate Rebuilds(slot: nat) {
      (Freed? || Made?) && i == slot
    }

    predicate Waits(slot: nat) {
      (Start? || Locked?) && i == slot
    }
  }

  /** `notify_epoch` for the epochs of a `notify_block`; `rest` are the epochs still to come. */
  datatype Notifier =
    | Rest
    | Look(e: nat, k: nat, rest: seq<nat>)
    | Take(e: nat, rest: seq<nat>)
    | Invalidate(i: nat, e: nat, rest: seq<nat>)
    | Load(i: nat, e: nat, rest: seq<nat>)
    | Spawn(i: nat, rest: seq<nat>)
  {
    function Epochs(): seq<nat> {
      match this
      case Rest => []
      case Look(e, _, rest) => [e] + rest
      case Take(e, rest) => [e] + rest
      case Invalidate(_, e, rest) => [e] + rest
      case Load(_, e, rest) => [e] + rest
      case Spawn(_, rest) => rest
    }

    predicate On(slot: nat) {
      (Invalidate? || Load? || Spawn?) && i == slot
    }
  }

  /** `blocks` records the calls of `notify_block`. */
  datatype State = State(
    ht: HT.State<Ctx>,
    loaded: seq<nat>, ready: seq<nat>, ptr: seq<Option<Ctx>>, writer: seq<Option<nat>>,
    live: set<Ctx>, made: nat,
    ctr: u64, builders: seq<Builder>, notifier: Notifier, blocks: seq<nat>)

  datatype Event =
    | Hash(h: HT.Event<Ctx>)
    | Build(b: nat)
    | Notify(block: nat)
    | Step

  function Init(threads: nat): State {
    State(HT.Init(threads), EMPTY.loaded, [INVALID_EPOCH, INVALID_EPOCH], [None, None], [None, None],
          {}, 0, 0, [], Rest, [])
  }

  /** The epoch a worker computes for its job. */
  function Key(epochOf: nat -> nat, s: State, j: nat): nat
  {
    if j < |s.ht.jobs| then epochOf(s.ht.jobs[j].arg) else 0
  }

  predicate WellFormed(s: State) {
    && |s.loaded| == |s.ready| == |s.ptr| == |s.writer| == 2
    && (s.notifier.Look? ==> s.notifier.k < 2)
    && (s.notifier.Invalidate? || s.notifier.Load? || s.notifier.Spawn? ==> s.notifier.i < 2)
  }

  predicate FreeOfReaders(s: State, i: nat) {
    forall w :: 0 <= w < |s.ht.workers| ==> !s.ht.workers[w].HoldsShared(i)
  }

  /** What the pool's memory allows a hash thread to read, and when its lock is free. */
  predicate Allows(epochOf: nat -> nat, s: State, h: HT.Event<Ctx>)
    requires WellFormed(s) && HT.Enabled(s.ht, h)
  {
    match h
    case Read(w, hit) => s.ht.workers[w].i < 2 && hit == (s.ready[s.ht.workers[w].i] == Key(epochOf, s, s.ht.workers[w].j))
    case TakeLock(w) => s.ht.workers[w].i < 2 && s.writer[s.ht.workers[w].i] == None
    case Again(w, hit) => s.ht.workers[w].i < 2 && hit == (s.ready[s.ht.workers[w].i] == Key(epochOf, s, s.ht.workers[w].j))
    case Begin(w, c) => s.ht.workers[w].i < 2 && s.ptr[s.ht.workers[w].i] == Some(c)
    case Finish(w, intact) => intact == (s.ht.workers[w].b in s.live)
    case _ => true
  }

  predicate Enabled(epochOf: nat -> nat, s: State, e: Event)
    requires WellFormed(s)
  {
    match e
    case Hash(h) => HT.Enabled(s.ht, h) && Allows(epochOf, s, h)
    case Build(b) =>
      && b < |s.builders| && !s.builders[b].Done? && s.builders[b].i < 2
      && (s.builders[b].Start? ==> s.writer[s.builders[b].i] == None && FreeOfReaders(s, s.builders[b].i))
    case Notify(_) => s.notifier.Rest?
    case Step => !s.notifier.Rest?
  }

  function Next(epochOf: nat -> nat, s: State, e: Event): State
    requires WellFormed(s) && Enabled(epochOf, s, e)
  {
    match e
    case Hash(h) => s.(ht := HT.Next(s.ht, h))
    case Build(b) => BuilderStep(s, b)
    case Notify(block) =>
      s.(notifier := Look(epochOf(block), 0, [epochOf(block + 1)]), blocks := s.blocks + [block])
    case Step => NotifierStep(s)
  }

  function BuilderStep(s: State, b: nat): State
    requires WellFormed(s) && b < |s.builders| && !s.builders[b].Done? && s.builders[b].i < 2
  {
    var i := s.builders[b].i;
    match s.builders[b]
    case Start(_) => s.(builders := s.builders[b := Locked(i)], writer := s.writer[i := Some(b)])
    case Locked(_) => s.(builders := s.builders[b := Snapped(i, s.loaded[i])])
    case Snapped(_, e) =>
      s.(builders := s.builders[b := Freed(i, e)],
         live := if s.ptr[i].Some? then s.live - {s.ptr[i].value} else s.live)
    case Freed(_, e) =>
      var c := Ctx(s.made, e);
      s.(builders := s.builders[b := Made(i, e)],
         live := s.live + {c}, made := s.made + 1, ptr := s.ptr[i := Some(c)])
    case Made(_, e) => s.(builders := s.builders[b := Published(i)], ready := s.ready[i := e])
    case Published(_) => s.(builders := s.builders[b := Done], writer := s.writer[i := None])
  }

  function NextEpoch(rest: seq<nat>): Notifier {
    if rest == [] then Rest else Look(rest[0], 0, rest[1..])
  }

  function NotifierStep(s: State): State
    requires WellFormed(s) && !s.notifier.Rest?
  {
    match s.notifier
    case Look(e, k, rest) =>
      s.(notifier := if s.loaded[k] == e then NextEpoch(rest)
                     else if k + 1 < 2 then Look(e, k + 1, rest) else Take(e, rest))
    case Take(e, rest) => s.(ctr := (s.ctr + 1) % TWO64, notifier := Invalidate(s.ctr % 2, e, rest))
    case Invalidate(i, e, rest) => s.(ready := s.ready[i := INVALID_EPOCH], notifier := Load(i, e, rest))
    case Load(i, e, rest) => s.(loaded := s.loaded[i := e], notifier := Spawn(i, rest))
    case Spawn(i, rest) => s.(builders := s.builders + [Start(i)], notifier := NextEpoch(rest))
  }

  // ---------------------------------------------------------------- safety

  /** The core: unless a builder is replacing a slot's context, what the slot publishes is either nothing
      or the epoch of the live context it points to. */
  ghost predicate SlotOk(s: State, i: nat)
    requires WellFormed(s) && i < 2
  {
    && (s.ptr[i].Some? ==> s.ptr[i].value.id < s.made && s.ptr[i] != s.ptr[1 - i])
    && (Rebuilding(s, i) ==> s.builders[s.writer[i].value].Made? ==> s.ptr[i].Some?)
    && (!(Rebuilding(s, i) && s.builders[s.writer[i].value].Freed?) ==> s.ptr[i].Some? ==> s.ptr[i].value in s.live)
    && (!Rebuilding(s, i) ==> s.ready[i] == INVALID_EPOCH || PointsTo(s, i, s.ready[i]))
    && (s.writer[i].Some? ==>
          s.writer[i].value < |s.builders| && s.builders[s.writer[i].value].HoldsExclusive(i))
  }

  ghost predicate Rebuilding(s: State, i: nat)
    requires WellFormed(s) && i < 2
  {
    s.writer[i].Some? && s.writer[i].value < |s.builders| && s.builders[s.writer[i].value].Rebuilds(i)
  }

  ghost predicate PointsTo(s: State, i: nat, epoch: nat)
    requires WellFormed(s) && i < 2
  {
    s.ptr[i].Some? && s.ptr[i].value in s.live && s.ptr[i].value.epoch == epoch
  }

  ghost predicate BuilderOk(s: State, b: nat)
    requires WellFormed(s) && b < |s.builders|
  {
    var p := s.builders[b];
    && (!p.Done? ==> p.i < 2 && s.loaded[p.i] < INVALID_EPOCH)
    && (p.Snapped? || p.Freed? || p.Made? ==> p.e < INVALID_EPOCH)
    && (p.Made? ==> PointsTo(s, p.i, p.e))
    && (!p.Done? && !p.Start? ==> s.writer[p.i] == Some(b))
  }

  ghost predicate WorkerOk(epochOf: nat -> nat, s: State, w: nat)
    requires WellFormed(s) && w < |s.ht.workers|
  {
    && (forall i: nat | i < 2 :: s.ht.workers[w].HoldsShared(i) ==> s.writer[i] == None)
    && match s.ht.workers[w]
    case Ready(j, i) => i < 2 && PointsTo(s, i, Key(epochOf, s, j))
    case Hashing(j, i, c) => i < 2 && PointsTo(s, i, Key(epochOf, s, j)) && s.ptr[i] == Some(c)
    case _ => true
  }

  ghost predicate JobOk(epochOf: nat -> nat, s: State, j: nat)
    requires j < |s.ht.jobs|
  {
    match s.ht.jobs[j].answer
    case Hashed(c) => c.epoch == Key(epochOf, s, j)
    case Garbage => false
    case _ => true
  }

  ghost predicate NotifierOk(s: State)
    requires WellFormed(s)
  {
    && (forall e :: e in s.notifier.Epochs() ==> e < INVALID_EPOCH)
    && (s.notifier.Spawn? ==> s.loaded[s.notifier.i] < INVALID_EPOCH)
  }

  ghost predicate Inv(epochOf: nat -> nat, s: State) {
    && WellFormed(s)
    && HT.Inv(s.ht)
    && (forall c :: c in s.live ==> c.id < s.made)
    && SlotOk(s, 0) && SlotOk(s, 1)
    && (forall b :: 0 <= b < |s.builders| ==> BuilderOk(s, b))
    && (forall w :: 0 <= w < |s.ht.workers| ==> WorkerOk(epochOf, s, w))
    && (forall j :: 0 <= j < |s.ht.jobs| ==> JobOk(epochOf, s, j))
    && NotifierOk(s)
  }

  lemma InitInv(epochOf: nat -> nat, threads: nat)
    ensures Inv(epochOf, Init(threads))
  {
    HT.InitInv<Ctx>(threads);
  }

  lemma HashInv(epochOf: nat -> nat, s: State, h: HT.Event<Ctx>)
    requires EpochFunction(epochOf) && Inv(epochOf, s) && Enabled(epochOf, s, Hash(h))
    ensures Inv(epochOf, Next(epochOf, s, Hash(h)))
  {
    var t := Next(epochOf, s, Hash(h));
    HT.NextInv(s.ht, h);
    forall b | 0 <= b < |t.builders| ensures BuilderOk(t, b) {
      assert BuilderOk(s, b);
    }
    forall w | 0 <= w < |t.ht.workers| ensures WorkerOk(epochOf, t, w) {
      assert WorkerOk(epochOf, s, w) && HT.PcOk(s.ht, s.ht.workers[w]);
      assert s.ht.workers[w].Job().Some? ==> HT.Holds(s.ht, w, s.ht.workers[w].j);
      HashWorker(epochOf, s, h, w);
    }
    forall j | 0 <= j < |t.ht.jobs| ensures JobOk(epochOf, t, j) {
      HashJob(epochOf, s, h, j);
    }
  }

  lemma HashWorker(epochOf: nat -> nat, s: State, h: HT.Event<Ctx>, w: nat)
    requires EpochFunction(epochOf) && WellFormed(s) && Enabled(epochOf, s, Hash(h)) && w < |s.ht.workers|
    requires SlotOk(s, 0) && SlotOk(s, 1) && WorkerOk(epochOf, s, w) && HT.PcOk(s.ht, s.ht.workers[w])
    requires s.ht.workers[w].Job().Some? ==> s.ht.workers[w].j < |s.ht.jobs|
    ensures WorkerOk(epochOf, Next(epochOf, s, Hash(h)), w)
  {
    if HT.Worker(h) == Some(w) {
      OwnStep(epochOf, s, h, w);
    }
  }

  lemma OwnStep(epochOf: nat -> nat, s: State, h: HT.Event<Ctx>, w: nat)
    requires EpochFunction(epochOf) && WellFormed(s) && Enabled(epochOf, s, Hash(h)) && w < |s.ht.workers|
    requires SlotOk(s, 0) && SlotOk(s, 1) && WorkerOk(epochOf, s, w) && HT.PcOk(s.ht, s.ht.workers[w])
    requires s.ht.workers[w].Job().Some? ==> s.ht.workers[w].j < |s.ht.jobs|
    requires HT.Worker(h) == Some(w)
    ensures WorkerOk(epochOf, Next(epochOf, s, Hash(h)), w)
  {
  }

  lemma HashJob(epochOf: nat -> nat, s: State, h: HT.Event<Ctx>, j: nat)
    requires EpochFunction(epochOf) && Inv(epochOf, s) && Enabled(epochOf, s, Hash(h))
    requires j < |HT.Next(s.ht, h).jobs|
    ensures JobOk(epochOf, Next(epochOf, s, Hash(h)), j)
  {
    assert j < |s.ht.jobs| ==> JobOk(epochOf, s, j);
    assert h.Finish? ==> WorkerOk(epochOf, s, h.w);
  }

  lemma BuilderInv(epochOf: nat -> nat, s: State, b: nat)
    requires Inv(epochOf, s) && Enabled(epochOf, s, Build(b))
    ensures Inv(epochOf, Next(epochOf, s, Build(b)))
  {
    var t := Next(epochOf, s, Build(b));
    assert BuilderOk(s, b);
    BuilderSlot(epochOf, s, b, 0);
    BuilderSlot(epochOf, s, b, 1);
    BuilderBuilders(epochOf, s, b);
    BuilderWorkers(epochOf, s, b);
    forall j | 0 <= j < |t.ht.jobs| ensures JobOk(epochOf, t, j) {
      assert JobOk(epochOf, s, j);
    }
  }

  lemma BuilderBuilders(epochOf: nat -> nat, s: State, b: nat)
    requires WellFormed(s) && Enabled(epochOf, s, Build(b)) && SlotOk(s, 0) && SlotOk(s, 1)
    requires forall c :: 0 <= c < |s.builders| ==> BuilderOk(s, c)
    ensures var t := BuilderStep(s, b);
      WellFormed(t) && forall c :: 0 <= c < |t.builders| ==> BuilderOk(t, c)
  {
    var t := BuilderStep(s, b);
    forall c | 0 <= c < |t.builders| ensures BuilderOk(t, c) {
      assert BuilderOk(s, b) && BuilderOk(s, c);
      BuilderBuilder(epochOf, s, b, c);
    }
  }

  lemma BuilderWorkers(epochOf: nat -> nat, s: State, b: nat)
    requires WellFormed(s) && Enabled(epochOf, s, Build(b)) && SlotOk(s, 0) && SlotOk(s, 1) && BuilderOk(s, b)
    requires forall w :: 0 <= w < |s.ht.workers| ==> WorkerOk(epochOf, s, w)
    ensures var t := BuilderStep(s, b);
      WellFormed(t) && forall w :: 0 <= w < |t.ht.workers| ==> WorkerOk(epochOf, t, w)
  {
    var t := BuilderStep(s, b);
    forall w | 0 <= w < |t.ht.workers| ensures WorkerOk(epochOf, t, w) {
      assert WorkerOk(epochOf, s, w);
      BuilderWorker(epochOf, s, b, w);
    }
  }

  lemma BuilderSlot(epochOf: nat -> nat, s: State, b: nat, i: nat)
    requires WellFormed(s) && Enabled(epochOf, s, Build(b)) && i < 2
    requires SlotOk(s, i) && SlotOk(s, 1 - i) && BuilderOk(s, b)
    ensures SlotOk(BuilderStep(s, b), i)
  {
    if s.builders[b].i == i {
      BuilderOwnSlot(epochOf, s, b);
    }
  }

  lemma BuilderOwnSlot(epochOf: nat -> nat, s: State, b: nat)
    requires WellFormed(s) && Enabled(epochOf, s, Build(b)) && BuilderOk(s, b)
    requires SlotOk(s, s.builders[b].i) && SlotOk(s, 1 - s.builders[b].i)
    ensures SlotOk(BuilderStep(s, b), s.builders[b].i)
  {
  }

  lemma BuilderBuilder(epochOf: nat -> nat, s: State, b: nat, c: nat)
    requires WellFormed(s) && Enabled(epochOf, s, Build(b)) && c < |s.builders|
    requires SlotOk(s, 0) && SlotOk(s, 1) && BuilderOk(s, b) && BuilderOk(s, c)
    ensures BuilderOk(BuilderStep(s, b), c)
  {
  }

  lemma BuilderWorker(epochOf: nat -> nat, s: State, b: nat, w: nat)
    requires WellFormed(s) && Enabled(epochOf, s, Build(b)) && w < |s.ht.workers|
    requires SlotOk(s, 0) && SlotOk(s, 1) && BuilderOk(s, b) && WorkerOk(epochOf, s, w)
    ensures WorkerOk(epochOf, BuilderStep(s, b), w)
  {
  }

  lemma NotifierBuilder(s: State, c: nat)
    requires WellFormed(s) && !s.notifier.Rest? && NotifierOk(s)
    requires c < |NotifierStep(s).builders| && (c < |s.builders| ==> BuilderOk(s, c))
    ensures BuilderOk(NotifierStep(s), c)
  {
    assert s.notifier.Load? ==> s.notifier.Epochs()[0] == s.notifier.e && s.notifier.e in s.notifier.Epochs();
  }

  lemma NotifierWorker(epochOf: nat -> nat, s: State, w: nat)
    requires WellFormed(s) && !s.notifier.Rest? && w < |s.ht.workers| && WorkerOk(epochOf, s, w)
    ensures WellFormed(NotifierStep(s)) && WorkerOk(epochOf, NotifierStep(s), w)
  {
  }

  lemma NotifierSlot(s: State, i: nat)
    requires WellFormed(s) && !s.notifier.Rest? && i < 2 && SlotOk(s, i)
    ensures SlotOk(NotifierStep(s), i)
  {
  }

  lemma NotifierNotifier(s: State)
    requires WellFormed(s) && !s.notifier.Rest? && NotifierOk(s)
    ensures WellFormed(NotifierStep(s)) && NotifierOk(NotifierStep(s))
  {
    assert s.notifier.Load? ==> s.notifier.Epochs()[0] == s.notifier.e && s.notifier.e in s.notifier.Epochs();
    assert forall e :: e in NotifierStep(s).notifier.Epochs() ==> e in s.notifier.Epochs();
  }

  lemma NotifierInv(epochOf: nat -> nat, s: State)
    requires EpochFunction(epochOf) && Inv(epochOf, s) && Enabled(epochOf, s, Step)
    ensures Inv(epochOf, Next(epochOf, s, Step))
  {
    var t := Next(epochOf, s, Step);
    NotifierNotifier(s);
    NotifierSlot(s, 0);
    NotifierSlot(s, 1);
    forall c | 0 <= c < |t.builders| ensures BuilderOk(t, c) {
      assert c < |s.builders| ==> BuilderOk(s, c);
      NotifierBuilder(s, c);
    }
    forall w | 0 <= w < |t.ht.workers| ensures WorkerOk(epochOf, t, w) {
      assert WorkerOk(epochOf, s, w);
      NotifierWorker(epochOf, s, w);
    }
    forall j | 0 <= j < |t.ht.jobs| ensures JobOk(epochOf, t, j) {
      assert JobOk(epochOf, s, j);
    }
  }

  ghost predicate StepTo(epochOf: nat -> nat, s: State, t: State) {
    WellFormed(s) && exists e :: Enabled(epochOf, s, e) && t == Next(epochOf, s, e)
  }

  /** A run of the pool with `threads` hash threads, in any interleaving. */
  ghost predicate Run(epochOf: nat -> nat, threads: nat, run: seq<State>) {
    && run != [] && run[0] == Init(threads)
    && forall k :: 0 < k < |run| ==> StepTo(epochOf, run[k - 1], run[k])
  }

  lemma NextInv(epochOf: nat -> nat, s: State, e: Event)
    requires EpochFunction(epochOf) && Inv(epochOf, s) && Enabled(epochOf, s, e)
    ensures Inv(epochOf, Next(epochOf, s, e))
  {
    match e
    case Hash(h) => HashInv(epochOf, s, h);
    case Build(b) => BuilderInv(epochOf, s, b);
    case Step => NotifierInv(epochOf, s);
    case Notify(block) =>
      var t := Next(epochOf, s, e);
      assert forall b :: 0 <= b < |t.builders| && BuilderOk(s, b) ==> BuilderOk(t, b);
      assert forall w :: 0 <= w < |t.ht.workers| && WorkerOk(epochOf, s, w) ==> WorkerOk(epochOf, t, w);
      assert forall j :: 0 <= j < |t.ht.jobs| && JobOk(epochOf, s, j) ==> JobOk(epochOf, t, j);
  }

  lemma StepInv(epochOf: nat -> nat, s: State, t: State)
    requires EpochFunction(epochOf) && Inv(epochOf, s) && StepTo(epochOf, s, t)
    ensures Inv(epochOf, t)
  {
    var e :| Enabled(epochOf, s, e) && t == Next(epochOf, s, e);
    NextInv(epochOf, s, e);
  }

  lemma {:induction false} RunInv(epochOf: nat -> nat, threads: nat, run: seq<State>, k: nat)
    requires EpochFunction(epochOf) && Run(epochOf, threads, run) && k < |run|
    ensures Inv(epochOf, run[k])
  {
    if k == 0 {
      InitInv(epochOf, threads);
    } else {
      RunInv(epochOf, threads, run, k - 1);
      StepInv(epochOf, run[k - 1], run[k]);
    }
  }

  /** In every interleaving, while no builder holds a slot's lock the slot publishes nothing or the epoch of
      the live context it points to, and the two slots never share a context. */
  lemma PublishedIsWhatItPointsTo(epochOf: nat -> nat, threads: nat, run: seq<State>, k: nat, i: nat)
    requires EpochFunction(epochOf) && Run(epochOf, threads, run) && k < |run| && i < 2
    ensures WellFormed(run[k])
    ensures run[k].writer[i] == None ==>
      run[k].ready[i] == INVALID_EPOCH || PointsTo(run[k], i, run[k].ready[i])
    ensures run[k].ptr[i].Some? ==> run[k].ptr[i] != run[k].ptr[1 - i]
  {
    RunInv(epochOf, threads, run, k);
    assert SlotOk(run[k], i);
  }

  /** In every interleaving: a hash thread that is about to hash, or is hashing, works on a context that
      exists and is that of its job's epoch, so no context is destroyed under a reader; and no job is
      ever answered with a hash over any other context. */
  lemma HashesUseTheJobsEpoch(epochOf: nat -> nat, threads: nat, run: seq<State>, k: nat)
    requires EpochFunction(epochOf) && Run(epochOf, threads, run) && k < |run|
    ensures WellFormed(run[k]) && HT.Inv(run[k].ht)
    ensures forall w :: 0 <= w < |run[k].ht.workers| ==>
      match run[k].ht.workers[w]
      case Ready(j, i) => i < 2 && j < |run[k].ht.jobs| && PointsTo(run[k], i, epochOf(run[k].ht.jobs[j].arg))
      case Hashing(j, _, c) => c in run[k].live && j < |run[k].ht.jobs| && c.epoch == epochOf(run[k].ht.jobs[j].arg)
      case _ => true
    ensures forall j :: 0 <= j < |run[k].ht.jobs| ==>
      match run[k].ht.jobs[j].answer
      case Hashed(c) => c.epoch == epochOf(run[k].ht.jobs[j].arg)
      case Garbage => false
      case _ => true
  {
    RunInv(epochOf, threads, run, k);
    forall w | 0 <= w < |run[k].ht.workers|
      ensures match run[k].ht.workers[w]
        case Ready(j, i) => i < 2 && j < |run[k].ht.jobs| && PointsTo(run[k], i, epochOf(run[k].ht.jobs[j].arg))
        case Hashing(j, _, c) => c in run[k].live && j < |run[k].ht.jobs| && c.epoch == epochOf(run[k].ht.jobs[j].arg)
        case _ => true
    {
      assert WorkerOk(epochOf, run[k], w);
      assert run[k].ht.workers[w].Job().Some? ==> HT.Holds(run[k].ht, w, run[k].ht.workers[w].j);
    }
    forall j | 0 <= j < |run[k].ht.jobs|
      ensures match run[k].ht.jobs[j].answer
        case Hashed(c) => c.epoch == epochOf(run[k].ht.jobs[j].arg)
        case Garbage => false
        case _ => true
    {
      assert JobOk(epochOf, run[k], j);
    }
  }

  /** A builder destroys only a context that is still alive, and never while a hash thread holds the slot. */
  lemma DestroysOnlyUnusedLiveContexts(epochOf: nat -> nat, threads: nat, run: seq<State>, k: nat, b: nat)
    requires EpochFunction(epochOf) && Run(epochOf, threads, run) && k < |run|
    requires WellFormed(run[k]) && Enabled(epochOf, run[k], Build(b)) && run[k].builders[b].Snapped?
    ensures var s, i := run[k], run[k].builders[b].i;
      && FreeOfReaders(s, i)
      && (s.ptr[i].Some? ==>
            && s.ptr[i].value in s.live
            && forall w :: 0 <= w < |s.ht.workers| ==>
                 !(s.ht.workers[w].Hashing? && s.ht.workers[w].b == s.ptr[i].value))
  {
    RunInv(epochOf, threads, run, k);
    var s, i := run[k], run[k].builders[b].i;
    assert BuilderOk(s, b) && SlotOk(s, i) && SlotOk(s, 1 - i);
    forall w | 0 <= w < |s.ht.workers|
      ensures !s.ht.workers[w].HoldsShared(i)
      ensures s.ptr[i].Some? ==> !(s.ht.workers[w].Hashing? && s.ht.workers[w].b == s.ptr[i].value)
    {
      assert WorkerOk(epochOf, s, w);
    }
  }
}
