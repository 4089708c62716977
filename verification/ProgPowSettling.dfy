/** What the ProgPow pool comes to rest in, however its notifier and builders overlapped. */
module ProgPowSettling {
  import opened Base
  import opened EpochRing
  import opened ProgPowPool

  ghost predicate BuilderWaits(s: State, i: nat) {
    exists b :: 0 <= b < |s.builders| && s.builders[b].Waits(i)
  }

  ghost predicate BuilderStarts(s: State, i: nat) {
    exists b :: 0 <= b < |s.builders| && s.builders[b] == Start(i)
  }

  ghost predicate Building(s: State, i: nat, epoch: nat)
    requires WellFormed(s) && i < 2
  {
    && s.writer[i].Some? && s.writer[i].value < |s.builders|
    && s.builders[s.writer[i].value].HasSnapshot(i, epoch)
  }

  /** A slot that was assigned an epoch publishes that epoch, or someone is still to see to it; and a
      builder whose snapshot is out of date is always followed by another. */
  ghost predicate Settling(s: State, i: nat)
    requires WellFormed(s) && i < 2
  {
    && (s.loaded[i] == INVALID_EPOCH || s.notifier.On(i) || BuilderWaits(s, i)
        || Building(s, i, s.loaded[i]) || s.ready[i] == s.loaded[i])
    && (forall e | Building(s, i, e) :: e == s.loaded[i] || s.notifier == Spawn(i, s.notifier.Epochs()) || BuilderStarts(s, i))
  }

  lemma NextSettling(epochOf: nat -> nat, s: State, e: Event, i: nat)
    requires EpochFunction(epochOf) && Inv(epochOf, s) && Enabled(epochOf, s, e) && i < 2
    requires Settling(s, i)
    ensures WellFormed(Next(epochOf, s, e)) && Settling(Next(epochOf, s, e), i)
  {
    NextInv(epochOf, s, e);
    match e
    case Build(b) => BuilderSettling(epochOf, s, b, i);
    case Step =>
      assert SlotOk(s, i);
      NotifierSettling(s, i);
    case Hash(h) => SameSlots(s, Next(epochOf, s, e), i);
    case Notify(_) => SameSlots(s, Next(epochOf, s, e), i);
  }

  lemma SameSlots(s: State, t: State, i: nat)
    requires WellFormed(s) && WellFormed(t) && i < 2 && Settling(s, i)
    requires s.loaded == t.loaded && s.ready == t.ready && s.writer == t.writer && s.builders == t.builders
    requires s.notifier == t.notifier || s.notifier.Rest?
    ensures Settling(t, i)
  {
    assert BuilderWaits(s, i) <==> BuilderWaits(t, i);
    assert BuilderStarts(s, i) <==> BuilderStarts(t, i);
    assert forall e :: Building(s, i, e) <==> Building(t, i, e);
  }

  lemma BuilderSettling(epochOf: nat -> nat, s: State, b: nat, i: nat)
    requires Inv(epochOf, s) && Enabled(epochOf, s, Build(b)) && i < 2 && Settling(s, i)
    ensures Settling(BuilderStep(s, b), i)
  {
    var t := BuilderStep(s, b);
    assert BuilderOk(s, b) && SlotOk(s, i);
    if s.builders[b].i == i {
      OwnSlotSettling(epochOf, s, b, i);
    } else {
      OtherSlotSettling(s, t, i);
    }
  }

  /** A step on the other slot. */
  lemma OtherSlotSettling(s: State, t: State, i: nat)
    requires WellFormed(s) && WellFormed(t) && i < 2 && Settling(s, i) && SlotOk(s, i)
    requires s.loaded[i] == t.loaded[i] && s.ready[i] == t.ready[i] && s.writer[i] == t.writer[i]
    requires s.notifier == t.notifier && |s.builders| == |t.builders|
    requires forall c :: 0 <= c < |s.builders| && s.builders[c].On(i) ==> s.builders[c] == t.builders[c]
    ensures Settling(t, i)
  {
    if BuilderWaits(s, i) {
      var c :| 0 <= c < |s.builders| && s.builders[c].Waits(i);
      assert s.builders[c].On(i) && t.builders[c].Waits(i);
    }
    if BuilderStarts(s, i) {
      var c :| 0 <= c < |s.builders| && s.builders[c] == Start(i);
      assert s.builders[c].On(i) && t.builders[c] == Start(i);
    }
    assert s.writer[i].Some? ==> s.builders[s.writer[i].value].On(i);
    assert forall e :: Building(s, i, e) <==> Building(t, i, e);
  }

  lemma OwnSlotSettling(epochOf: nat -> nat, s: State, b: nat, i: nat)
    requires WellFormed(s) && Enabled(epochOf, s, Build(b)) && i < 2 && Settling(s, i)
    requires BuilderOk(s, b) && s.builders[b].i == i
    ensures Settling(BuilderStep(s, b), i)
  {
    var t := BuilderStep(s, b);
    if s.builders[b].Start? {
      assert t.builders[b].Waits(i);
    } else if s.builders[b].Locked? {
      assert Building(t, i, t.loaded[i]);
    } else {
      assert forall c :: 0 <= c < |s.builders| && s.builders[c].Waits(i) ==> t.builders[c] == s.builders[c];
      assert BuilderWaits(s, i) ==> BuilderWaits(t, i);
      assert BuilderStarts(s, i) ==> BuilderStarts(t, i);
      if s.builders[b].Made? {
        assert Building(s, i, s.builders[b].e);
      } else if Building(s, i, s.loaded[i]) {
        assert Building(t, i, t.loaded[i]);
      }
      assert forall e :: Building(t, i, e) ==> Building(s, i, e);
    }
  }

  lemma NotifierSettling(s: State, i: nat)
    requires WellFormed(s) && !s.notifier.Rest? && i < 2 && Settling(s, i) && SlotOk(s, i)
    ensures WellFormed(NotifierStep(s)) && Settling(NotifierStep(s), i)
  {
    var t := NotifierStep(s);
    assert forall b :: 0 <= b < |s.builders| ==> t.builders[b] == s.builders[b];
    assert forall e :: Building(s, i, e) <==> Building(t, i, e);
    if s.notifier == Spawn(i, s.notifier.Epochs()) {
      assert t.builders[|s.builders|] == Start(i) && t.builders[|s.builders|].Waits(i);
      assert BuilderStarts(t, i) && BuilderWaits(t, i);
    } else {
      assert BuilderWaits(s, i) ==> BuilderWaits(t, i);
      assert BuilderStarts(s, i) ==> BuilderStarts(t, i);
    }
  }

  // ---------------------------------------------------------------- the notifier follows the ring

  /** The ring the notifier's current `notify_block` will leave, whatever the other threads do. */
  ghost function Target(s: State): Ring
    requires WellFormed(s)
  {
    var r := Ring(s.loaded, s.ctr);
    match s.notifier
    case Rest => r
    case Look(e, _, rest) => AfterAll(AfterEpoch(r, e), rest)
    case Take(e, rest) => AfterAll(AfterEpoch(r, e), rest)
    case Invalidate(i, e, rest) => AfterAll(Ring(s.loaded[i := e], s.ctr), rest)
    case Load(i, e, rest) => AfterAll(Ring(s.loaded[i := e], s.ctr), rest)
    case Spawn(_, rest) => AfterAll(r, rest)
  }

  ghost predicate FollowsRing(epochOf: nat -> nat, s: State)
    requires WellFormed(s)
  {
    && Target(s) == Notified(epochOf, s.blocks)
    && (s.notifier.Look? ==> s.notifier.e !in s.loaded[..s.notifier.k])
    && (s.notifier.Take? ==> s.notifier.e !in s.loaded)
  }

  lemma NextFollowsRing(epochOf: nat -> nat, s: State, e: Event)
    requires WellFormed(s) && Enabled(epochOf, s, e) && FollowsRing(epochOf, s)
    ensures WellFormed(Next(epochOf, s, e)) && FollowsRing(epochOf, Next(epochOf, s, e))
  {
    match e
    case Notify(block) => NotifyFollowsRing(epochOf, s, block);
    case Step => NotifierFollowsRing(epochOf, s);
    case Hash(_) =>
    case Build(_) =>
  }

  lemma NotifyFollowsRing(epochOf: nat -> nat, s: State, block: nat)
    requires WellFormed(s) && s.notifier.Rest? && FollowsRing(epochOf, s)
    ensures FollowsRing(epochOf, Next(epochOf, s, Notify(block)))
  {
    assert (s.blocks + [block])[..|s.blocks|] == s.blocks;
    var r := AfterEpoch(Ring(s.loaded, s.ctr), epochOf(block));
    assert AfterAll(r, [epochOf(block + 1)]) == AfterAll(AfterEpoch(r, epochOf(block + 1)), []);
  }

  lemma NotifierFollowsRing(epochOf: nat -> nat, s: State)
    requires WellFormed(s) && !s.notifier.Rest? && FollowsRing(epochOf, s)
    ensures WellFormed(NotifierStep(s)) && FollowsRing(epochOf, NotifierStep(s))
  {
    match s.notifier
    case Look(e, k, rest) =>
      assert s.loaded[..k + 1] == s.loaded[..k] + [s.loaded[k]];
      assert s.loaded[..2] == s.loaded;
      AfterNextEpoch(s, rest);
    case Spawn(_, rest) =>
      AfterNextEpoch(s.(builders := s.builders + [Start(s.notifier.i)]), rest);
    case _ =>
  }

  lemma AfterNextEpoch(s: State, rest: seq<nat>)
    requires WellFormed(s)
    ensures Target(s.(notifier := NextEpoch(rest))) == AfterAll(Ring(s.loaded, s.ctr), rest)
  {
  }

  // ---------------------------------------------------------------- at rest

  ghost predicate RunInvariant(epochOf: nat -> nat, s: State) {
    Inv(epochOf, s) && Settling(s, 0) && Settling(s, 1) && FollowsRing(epochOf, s)
  }

  lemma StepSettles(epochOf: nat -> nat, s: State, t: State)
    requires EpochFunction(epochOf) && RunInvariant(epochOf, s) && StepTo(epochOf, s, t)
    ensures RunInvariant(epochOf, t)
  {
    var e :| Enabled(epochOf, s, e) && t == Next(epochOf, s, e);
    NextInv(epochOf, s, e);
    NextSettling(epochOf, s, e, 0);
    NextSettling(epochOf, s, e, 1);
    NextFollowsRing(epochOf, s, e);
  }

  lemma {:induction false} RunSettles(epochOf: nat -> nat, threads: nat, run: seq<State>, k: nat)
    requires EpochFunction(epochOf) && Run(epochOf, threads, run) && k < |run|
    ensures RunInvariant(epochOf, run[k])
  {
    if k == 0 {
      InitInv(epochOf, threads);
    } else {
      RunSettles(epochOf, threads, run, k - 1);
      StepSettles(epochOf, run[k - 1], run[k]);
    }
  }

  /** No builder is outstanding on the slot, and no notify is in progress on it. */
  ghost predicate Quiet(s: State, i: nat) {
    !s.notifier.On(i) && forall b :: 0 <= b < |s.builders| ==> !s.builders[b].On(i)
  }

  /** However many notifies and builders overlapped on a slot: once they are over, the slot publishes the
      epoch it was last assigned and points to the live context of that epoch. */
  lemma QuietSlotIsReady(epochOf: nat -> nat, threads: nat, run: seq<State>, k: nat, i: nat)
    requires EpochFunction(epochOf) && Run(epochOf, threads, run) && k < |run| && i < 2
    ensures WellFormed(run[k])
    ensures Quiet(run[k], i) && run[k].loaded[i] != INVALID_EPOCH ==>
      run[k].ready[i] == run[k].loaded[i] && PointsTo(run[k], i, run[k].loaded[i])
  {
    RunSettles(epochOf, threads, run, k);
    assert Settling(run[k], i) && SlotOk(run[k], i);
  }

  /** In the step after state `x` no builder of the slot publishes. */
  ghost predicate NobodyPublishes(run: seq<State>, x: nat, i: nat)
    requires x + 1 < |run|
  {
    forall b :: 0 <= b < |run[x].builders| && run[x].builders[b].Made? && run[x].builders[b].i == i ==>
      b < |run[x + 1].builders| && run[x + 1].builders[b] == run[x].builders[b]
  }

  /** A slot that is reassigned publishes nothing from then on until one of its builders does: no job is hashed on a
      context that is about to be destroyed. */
  lemma {:induction false} ReassignedPublishesNothing(
    epochOf: nat -> nat, threads: nat, run: seq<State>, k: nat, m: nat, i: nat)
    requires EpochFunction(epochOf) && Run(epochOf, threads, run) && 0 < k <= m < |run| && i < 2
    requires run[k - 1].notifier.Invalidate? && run[k].notifier.Load? && run[k - 1].notifier.i == i
    requires forall x {:trigger NobodyPublishes(run, x, i)} :: k <= x < m ==> NobodyPublishes(run, x, i)
    ensures WellFormed(run[m]) && run[m].ready[i] == INVALID_EPOCH
    decreases m
  {
    RunInv(epochOf, threads, run, m);
    assert StepTo(epochOf, run[m - 1], run[m]);
    if m > k {
      ReassignedPublishesNothing(epochOf, threads, run, k, m - 1, i);
      assert NobodyPublishes(run, m - 1, i);
      NothingPublished(epochOf, run[m - 1], run[m], i);
    }
  }

  lemma NothingPublished(epochOf: nat -> nat, s: State, t: State, i: nat)
    requires StepTo(epochOf, s, t) && i < 2 && s.ready[i] == INVALID_EPOCH && WellFormed(t)
    requires forall b :: 0 <= b < |s.builders| && s.builders[b].Made? && s.builders[b].i == i ==>
      b < |t.builders| && t.builders[b] == s.builders[b]
    ensures t.ready[i] == INVALID_EPOCH
  {
  }

  /** The blocks asked for so far never went backwards. */
  ghost predicate InOrder(s: State) {
    s.blocks != [] && Nondecreasing(s.blocks)
  }

  /** So in any interleaving of a run whose blocks never go backwards, when all is quiet a job for the last
      block or for the one after it finds a slot that publishes its epoch and points to its context. */
  lemma QuietPoolServesCurrentBlocks(epochOf: nat -> nat, threads: nat, run: seq<State>, k: nat, block: nat)
    requires EpochFunction(epochOf) && Run(epochOf, threads, run) && k < |run|
    requires run[k].notifier.Rest? && InOrder(run[k]) && Quiet(run[k], 0) && Quiet(run[k], 1)
    requires block == run[k].blocks[|run[k].blocks| - 1] || block == run[k].blocks[|run[k].blocks| - 1] + 1
    ensures WellFormed(run[k])
    ensures exists i: nat :: i < 2 && run[k].ready[i] == epochOf(block) && PointsTo(run[k], i, epochOf(block))
  {
    RunSettles(epochOf, threads, run, k);
    RingKeepsCurrentAndNext(epochOf, run[k].blocks);
    QuietSlotIsReady(epochOf, threads, run, k, 0);
    QuietSlotIsReady(epochOf, threads, run, k, 1);
    assert epochOf(block) in run[k].loaded;
    var i: nat :| i < 2 && run[k].loaded[i] == epochOf(block);
    assert run[k].ready[i] == epochOf(block);
  }
}
