/** Whether the seed of the job being mined stays in the RandomX pool, over any run of job messages: it does if
    the messages follow a schedule of seeds and the chain grows, and need not otherwise; nor need its epoch stay in
    the ProgPow pool. */
module SeedSchedule {
  import opened Base
  import opened Vector32
  import opened NodeJobs
  import opened EpochRing
  import RX = RandomXPool
  import RandomXRuns
  import RandomXServing

  // ---------------------------------------------------------------- on schedule

  /** `c` gives the ids of the seeds of the epochs up to the `n`-th, all different, and none of them the value
      that marks an empty slot. */
  ghost predicate Schedule(c: nat -> nat, n: nat) {
    && (forall x: nat :: x <= n ==> c(x) < INVALID_EPOCH)
    && (forall x: nat, y: nat :: x < y <= n ==> c(x) != c(y))
  }

  /** What the message makes the node ask for is its epoch's seed, and then perhaps the next epoch's. */
  ghost predicate OnSchedule(c: nat -> nat, n: nat, epochOf: nat -> nat, m: JobMessage) {
    m.height.Some? && m.epochs.Some? && 1 <= |m.epochs.value| <= 2 ==>
      var e := epochOf(m.height.value);
      e + 1 <= n && Loads(m.height.value, m.epochs.value) <= [c(e), c(e + 1)]
  }

  ghost predicate IsAdmitted(msgs: seq<(Message, u64)>, k: nat)
    requires k < |msgs|
  {
    msgs[k].0.Job? && Admitted(msgs[k].0.msg, msgs[k].1)
  }

  /** Every message that gets as far as the list is on schedule, and their heights do not go backwards. */
  ghost predicate AllOnSchedule(c: nat -> nat, n: nat, epochOf: nat -> nat, msgs: seq<(Message, u64)>) {
    && EpochFunction(epochOf) && Schedule(c, n)
    && (forall k :: 0 <= k < |msgs| && IsAdmitted(msgs, k) ==> OnSchedule(c, n, epochOf, msgs[k].0.msg))
    && (forall j, k :: 0 <= j < k < |msgs| && IsAdmitted(msgs, j) && IsAdmitted(msgs, k) ==>
          msgs[j].0.msg.height.value <= msgs[k].0.msg.height.value)
  }

  /** `top` was loaded last, of epoch `p` or the one after; what else is loaded is older, and is epoch `p` if
      `top` is not. */
  ghost predicate Holding(c: nat -> nat, r: Ring, p: nat, top: nat) {
    && r.WellFormed() && top <= p + 1
    && r.loaded[1 - r.Victim()] == c(top)
    && (r.loaded[r.Victim()] == INVALID_EPOCH || exists x: nat :: x < top && r.loaded[r.Victim()] == c(x))
    && (top == p + 1 ==> c(p) in r.loaded)
  }

  ghost predicate Held(c: nat -> nat, r: Ring, p: nat) {
    r == EMPTY || exists top: nat :: Holding(c, r, p, top)
  }

  lemma LaterHeld(c: nat -> nat, r: Ring, p: nat, q: nat)
    requires Held(c, r, p) && p <= q
    ensures Held(c, r, q)
  {
    if r != EMPTY {
      var top: nat :| Holding(c, r, p, top);
      assert Holding(c, r, q, top);
    }
  }

  /** The epoch's own seed is loaded, or was; and the next epoch's, if it was, still is. */
  lemma LoadOwn(c: nat -> nat, n: nat, r: Ring, q: nat)
    requires Schedule(c, n) && q + 1 <= n && Held(c, r, q)
    ensures var t := AfterEpoch(r, c(q));
      c(q) in t.loaded && (Holding(c, t, q, q) || Holding(c, t, q, q + 1))
      && (c(q + 1) in r.loaded ==> c(q + 1) in t.loaded)
  {
    Parity(r.ctr);
    var t := AfterEpoch(r, c(q));
    if r == EMPTY {
      assert Holding(c, t, q, q);
    } else {
      var top: nat :| Holding(c, r, q, top);
      assert c(q + 1) in r.loaded ==> c(q + 1) == r.loaded[0] || c(q + 1) == r.loaded[1];
      if c(q) in r.loaded {
        assert c(q) == r.loaded[0] || c(q) == r.loaded[1];
        assert top == q || top == q + 1;
      } else {
        assert t.loaded[r.Victim()] == c(q) && t.loaded[1 - r.Victim()] == c(top) && top < q;
        assert Holding(c, t, q, q);
      }
    }
  }

  /** Then the next epoch's, beside it. */
  lemma LoadNext(c: nat -> nat, n: nat, r: Ring, q: nat)
    requires Schedule(c, n) && q + 1 <= n && c(q) in r.loaded && (Holding(c, r, q, q) || Holding(c, r, q, q + 1))
    ensures var t := AfterEpoch(r, c(q + 1));
      c(q) in t.loaded && c(q + 1) in t.loaded && Holding(c, t, q, q + 1)
  {
    Parity(r.ctr);
    var t := AfterEpoch(r, c(q + 1));
    assert c(q + 1) in r.loaded ==> c(q + 1) == r.loaded[0] || c(q + 1) == r.loaded[1];
    assert c(q) == r.loaded[0] || c(q) == r.loaded[1];
    if c(q + 1) !in r.loaded {
      assert t.loaded[r.Victim()] == c(q + 1) && t.loaded[1 - r.Victim()] == c(q);
    }
  }

  /** One message: the seeds it asks for are all loaded afterwards, and no seed of the two epochs is lost. */
  lemma MessageHeld(c: nat -> nat, n: nat, r: Ring, q: nat, loads: seq<nat>)
    requires Schedule(c, n) && q + 1 <= n && Held(c, r, q) && loads <= [c(q), c(q + 1)]
    ensures AfterAll(r, loads).WellFormed() && Held(c, AfterAll(r, loads), q)
    ensures forall id :: id in loads ==> id in AfterAll(r, loads).loaded
    ensures forall id :: id in [c(q), c(q + 1)] && id in r.loaded ==> id in AfterAll(r, loads).loaded
  {
    if loads != [] {
      LoadOwn(c, n, r, q);
      var t := AfterEpoch(r, c(q));
      if |loads| == 1 {
        assert loads == [c(q)] && loads[1..] == [];
        assert AfterAll(r, loads) == t;
      } else {
        LoadNext(c, n, t, q);
        assert loads == [c(q), c(q + 1)] && loads[1..] == [c(q + 1)] && loads[1..][1..] == [];
        assert AfterAll(r, loads) == AfterAll(t, [c(q + 1)]) == AfterEpoch(t, c(q + 1));
      }
    }
  }

  function LastHeight(msgs: seq<(Message, u64)>): nat {
    var m := LastAdmitted(msgs);
    if m.Some? && m.value.height.Some? then m.value.height.value else 0
  }

  lemma {:induction false} LastAdmittedIs(msgs: seq<(Message, u64)>)
    ensures LastAdmitted(msgs).Some? ==>
      exists k :: 0 <= k < |msgs| && IsAdmitted(msgs, k) && LastAdmitted(msgs) == Some(msgs[k].0.msg)
  {
    if msgs != [] {
      var n := |msgs| - 1;
      if IsAdmitted(msgs, n) {
        assert LastAdmitted(msgs) == Some(msgs[n].0.msg);
      } else {
        LastAdmittedIs(msgs[..n]);
        if LastAdmitted(msgs).Some? {
          var k :| 0 <= k < n && IsAdmitted(msgs[..n], k) && LastAdmitted(msgs) == Some(msgs[..n][k].0.msg);
          assert IsAdmitted(msgs, k);
        }
      }
    }
  }

  lemma PrefixOnSchedule(c: nat -> nat, n: nat, epochOf: nat -> nat, msgs: seq<(Message, u64)>, k: nat)
    requires AllOnSchedule(c, n, epochOf, msgs) && k <= |msgs|
    ensures AllOnSchedule(c, n, epochOf, msgs[..k])
  {
    assert forall i :: 0 <= i < k ==> (IsAdmitted(msgs[..k], i) <==> IsAdmitted(msgs, i));
  }

  lemma HeightsGrow(c: nat -> nat, n: nat, epochOf: nat -> nat, msgs: seq<(Message, u64)>)
    requires AllOnSchedule(c, n, epochOf, msgs) && msgs != [] && IsAdmitted(msgs, |msgs| - 1)
    ensures LastHeight(msgs[..|msgs| - 1]) <= msgs[|msgs| - 1].0.msg.height.value
  {
    var last := |msgs| - 1;
    var before := msgs[..last];
    LastAdmittedIs(before);
    if LastAdmitted(before).Some? {
      var k :| 0 <= k < last && IsAdmitted(before, k) && LastAdmitted(before) == Some(before[k].0.msg);
      assert IsAdmitted(msgs, k);
    }
  }

  /** The published job's epoch, and that of the last message admitted, are the same. */
  predicate SameEpoch(epochOf: nat -> nat, msgs: seq<(Message, u64)>) {
    var m := LastPublished(msgs);
    m.Some? && m.value.height.Some? && epochOf(m.value.height.value) == epochOf(LastHeight(msgs))
  }

  /** The seeds the published job asked for. */
  function PublishedLoads(msgs: seq<(Message, u64)>): seq<nat> {
    var m := LastPublished(msgs);
    if m.Some? && m.value.height.Some? && m.value.epochs.Some? then Loads(m.value.height.value, m.value.epochs.value)
    else []
  }

  lemma {:induction false} PublishedIsAdmitted(msgs: seq<(Message, u64)>)
    ensures LastPublished(msgs).Some? ==>
      LastAdmitted(msgs).Some? && LastPublished(msgs).value.height.Some? && Complete(LastPublished(msgs).value)
  {
    if msgs != [] {
      PublishedIsAdmitted(msgs[..|msgs| - 1]);
    }
  }

  /** The published job is on schedule, and not above the last message admitted. */
  lemma {:induction false} PublishedOnSchedule(c: nat -> nat, n: nat, epochOf: nat -> nat, msgs: seq<(Message, u64)>)
    requires AllOnSchedule(c, n, epochOf, msgs) && LastPublished(msgs).Some?
    ensures var m := LastPublished(msgs).value;
      m.height.Some? && m.height.value <= LastHeight(msgs) && OnSchedule(c, n, epochOf, m)
  {
    PublishedIsAdmitted(msgs);
    var last := |msgs| - 1;
    var (m, garbage) := msgs[last];
    if !(m.Job? && Admitted(m.msg, garbage) && Complete(m.msg)) {
      PrefixOnSchedule(c, n, epochOf, msgs, last);
      PublishedOnSchedule(c, n, epochOf, msgs[..last]);
      if IsAdmitted(msgs, last) {
        HeightsGrow(c, n, epochOf, msgs);
      }
    } else {
      assert IsAdmitted(msgs, last);
    }
  }

  /** Whatever was asked for by messages on schedule: while no message of a later epoch was admitted, the seeds
      the published job asked for are loaded. */
  lemma {:induction false} RunHeld(c: nat -> nat, n: nat, epochOf: nat -> nat, msgs: seq<(Message, u64)>)
    requires AllOnSchedule(c, n, epochOf, msgs)
    ensures Held(c, AfterAll(EMPTY, AllLoads(msgs)), epochOf(LastHeight(msgs)))
    ensures SameEpoch(epochOf, msgs) ==>
      forall id :: id in PublishedLoads(msgs) ==> id in AfterAll(EMPTY, AllLoads(msgs)).loaded
  {
    if msgs != [] {
      var last := |msgs| - 1;
      var (m, garbage) := msgs[last];
      var before := msgs[..last];
      PrefixOnSchedule(c, n, epochOf, msgs, last);
      RunHeld(c, n, epochOf, before);
      AfterAllConcat(EMPTY, AllLoads(before), LoadsOf(m, garbage));
      if IsAdmitted(msgs, last) {
        OneMoreHeld(c, n, epochOf, msgs);
      } else {
        assert LoadsOf(m, garbage) == [];
        assert AllLoads(msgs) == AllLoads(before);
      }
    }
  }

  lemma OneMoreHeld(c: nat -> nat, n: nat, epochOf: nat -> nat, msgs: seq<(Message, u64)>)
    requires AllOnSchedule(c, n, epochOf, msgs) && msgs != [] && IsAdmitted(msgs, |msgs| - 1)
    requires var before := msgs[..|msgs| - 1];
      && Held(c, AfterAll(EMPTY, AllLoads(before)), epochOf(LastHeight(before)))
      && (SameEpoch(epochOf, before) ==>
            forall id :: id in PublishedLoads(before) ==> id in AfterAll(EMPTY, AllLoads(before)).loaded)
      && AfterAll(EMPTY, AllLoads(msgs)) ==
           AfterAll(AfterAll(EMPTY, AllLoads(before)), LoadsOf(msgs[|msgs| - 1].0, msgs[|msgs| - 1].1))
    ensures Held(c, AfterAll(EMPTY, AllLoads(msgs)), epochOf(LastHeight(msgs)))
    ensures SameEpoch(epochOf, msgs) ==>
      forall id :: id in PublishedLoads(msgs) ==> id in AfterAll(EMPTY, AllLoads(msgs)).loaded
  {
    var (m, garbage) := msgs[|msgs| - 1];
    var before := msgs[..|msgs| - 1];
    var r, q, loads := AfterAll(EMPTY, AllLoads(before)), epochOf(m.msg.height.value), LoadsOf(m, garbage);
    HeightsGrow(c, n, epochOf, msgs);
    assert OnSchedule(c, n, epochOf, m.msg);
    MessageKeeps(c, n, r, epochOf(LastHeight(before)), q, loads);
    PublishedAfter(c, n, epochOf, msgs);
    assert AfterAll(EMPTY, AllLoads(msgs)) == AfterAll(r, loads) && LastHeight(msgs) == m.msg.height.value;
  }

  /** What the published job asked for, before and after one more message. */
  lemma PublishedAfter(c: nat -> nat, n: nat, epochOf: nat -> nat, msgs: seq<(Message, u64)>)
    requires AllOnSchedule(c, n, epochOf, msgs) && msgs != [] && IsAdmitted(msgs, |msgs| - 1)
    ensures var (m, garbage) := msgs[|msgs| - 1];
      var before, q := msgs[..|msgs| - 1], epochOf(m.msg.height.value);
      || PublishedLoads(msgs) == LoadsOf(m, garbage)
      || (&& PublishedLoads(msgs) == PublishedLoads(before)
          && (SameEpoch(epochOf, msgs) ==> SameEpoch(epochOf, before) && PublishedLoads(msgs) <= [c(q), c(q + 1)]))
  {
    if !Complete(msgs[|msgs| - 1].0.msg) {
      StillPublished(c, n, epochOf, msgs);
    }
  }

  /** A message that does not complete its job leaves the published one; if it is of the same epoch, so was the
      last one before, and the published job asked for seeds of this epoch and the next. */
  lemma StillPublished(c: nat -> nat, n: nat, epochOf: nat -> nat, msgs: seq<(Message, u64)>)
    requires AllOnSchedule(c, n, epochOf, msgs) && msgs != [] && IsAdmitted(msgs, |msgs| - 1)
    requires !Complete(msgs[|msgs| - 1].0.msg)
    ensures var before, q := msgs[..|msgs| - 1], epochOf(msgs[|msgs| - 1].0.msg.height.value);
      && PublishedLoads(msgs) == PublishedLoads(before)
      && (SameEpoch(epochOf, msgs) ==> SameEpoch(epochOf, before) && PublishedLoads(msgs) <= [c(q), c(q + 1)])
  {
    var before := msgs[..|msgs| - 1];
    PrefixOnSchedule(c, n, epochOf, msgs, |msgs| - 1);
    HeightsGrow(c, n, epochOf, msgs);
    if LastPublished(before).Some? {
      PublishedOnSchedule(c, n, epochOf, before);
      PublishedIsAdmitted(before);
    }
  }

  lemma MessageKeeps(c: nat -> nat, n: nat, r: Ring, p: nat, q: nat, loads: seq<nat>)
    requires Schedule(c, n) && Held(c, r, p) && r.WellFormed() && p <= q
    requires loads != [] ==> q + 1 <= n && loads <= [c(q), c(q + 1)]
    ensures Held(c, AfterAll(r, loads), q)
    ensures forall id :: id in loads ==> id in AfterAll(r, loads).loaded
    ensures forall id :: id in [c(q), c(q + 1)] && id in r.loaded ==> id in AfterAll(r, loads).loaded
  {
    LaterHeld(c, r, p, q);
    if loads != [] {
      MessageHeld(c, n, r, q, loads);
    }
  }

  lemma {:induction false} OwnIsAskedFor(height: nat, epochs: seq<EpochEntry>, s: Seeds)
    requires EpochSeeds(height, epochs, s).Some?
    ensures var t := EpochSeeds(height, epochs, s).value;
      if t.found && !(s.found && t.current == s.current) then GetId(t.current) in Loads(height, epochs)
      else t.found == s.found && t.current == s.current
    decreases |epochs|
  {
    if epochs != [] {
      var t := EpochStep(height, epochs[0], s).value;
      OwnIsAskedFor(height, epochs[1..], t);
      assert EpochStep(height, epochs[0], NO_SEEDS).Some?;
      assert forall id :: id in Loads(height, epochs[1..]) ==> id in Loads(height, epochs);
      assert Loads(height, epochs)[0] == GetId(epochs[0].seed.value);
    }
  }

  /** The seed id of a complete job. */
  function OwnSeedId(m: JobMessage): nat
    requires m.height.Some? && Complete(m)
  {
    GetId(EpochSeeds(m.height.value, m.epochs.value, NO_SEEDS).value.current)
  }

  /** The published job's own seed stays loaded until a message of a later epoch is admitted, whether or not it
      and those in between are complete. */
  lemma ScheduledSeedStaysLoaded(c: nat -> nat, n: nat, epochOf: nat -> nat, msgs: seq<(Message, u64)>)
    requires AllOnSchedule(c, n, epochOf, msgs) && SameEpoch(epochOf, msgs)
    ensures var m := LastPublished(msgs).value;
      m.height.Some? && Complete(m) && OwnSeedId(m) in AfterAll(EMPTY, AllLoads(msgs)).loaded
  {
    var m := LastPublished(msgs).value;
    PublishedIsAdmitted(msgs);
    RunHeld(c, n, epochOf, msgs);
    OwnIsAskedFor(m.height.value, m.epochs.value, NO_SEEDS);
  }

  /** Two complete messages are on schedule if each is, and the second's height is not lower. */
  lemma TwoOnSchedule(c: nat -> nat, n: nat, epochOf: nat -> nat, a: JobMessage, b: JobMessage)
    requires Schedule(c, n) && EpochFunction(epochOf) && OnSchedule(c, n, epochOf, a) && OnSchedule(c, n, epochOf, b)
    requires Admitted(a, 0) && Admitted(b, 0) && Complete(b) && a.height.value <= b.height.value
    ensures var msgs := [(Job(a), 0), (Job(b), 0)];
      && AllOnSchedule(c, n, epochOf, msgs) && SameEpoch(epochOf, msgs)
      && LastPublished(msgs) == LastAdmitted(msgs) == Some(b)
  {
  }

  /** Such runs cross from one epoch into the next: three seeds, and two complete messages, the first of the last
      height of one epoch, the second of the first height of the next. */
  lemma SchedulesExist(a: v32, b: v32, d: v32)
    requires GetId(a) != GetId(b) && GetId(a) != GetId(d) && GetId(b) != GetId(d)
    ensures exists c: nat -> nat, epochOf: nat -> nat ::
      var msgs := [(Job(TwoEpochs(10, 0, a, b)), 0), (Job(TwoEpochs(11, 10, b, d)), 0)];
      && AllOnSchedule(c, 2, epochOf, msgs) && epochOf(10) != epochOf(11)
      && LastPublished(msgs) == LastAdmitted(msgs) == Some(TwoEpochs(11, 10, b, d)) && SameEpoch(epochOf, msgs)
  {
    var c := (x: nat) => if x == 0 then GetId(a) else if x == 1 then GetId(b) else GetId(d);
    var epochOf := (h: nat) => if h <= 10 then 0 else 1;
    TwoEpochsIsComplete(10, 0, a, b, 0);
    TwoEpochsIsComplete(11, 10, b, d, 0);
    assert EpochFunction(epochOf) && Schedule(c, 2);
    TwoOnSchedule(c, 2, epochOf, TwoEpochs(10, 0, a, b), TwoEpochs(11, 10, b, d));
  }

  // ---------------------------------------------------------------- off schedule

  /** A message of a height in the ten from `start`, which names the seeds of these and of the next ten. */
  function TwoEpochs(height: u32, start: u32, own: v32, next: v32): JobMessage
    requires start + 20 < TWO32
  {
    JobMessage(Some(height), Some("randomx"), Some([DiffEntry("randomx", Some(1))]),
               Some([Epoch(start, start + 10, Some(own)), Epoch(start + 10, start + 20, Some(next))]), Some(7), Some(""))
  }

  lemma TwoEpochsIsComplete(height: u32, start: u32, own: v32, next: v32, garbage: u64)
    requires start + 20 < TWO32 && start < height <= start + 10
    ensures var m := TwoEpochs(height, start, own, next);
      && Admitted(m, garbage) && Complete(m) && OwnSeedId(m) == GetId(own)
      && Loads(height, m.epochs.value) == LoadsOf(Job(m), garbage) == [GetId(own), GetId(next)]
  {
    var m := TwoEpochs(height, start, own, next);
    var diffs, a, b := m.diffs.value, m.epochs.value[0], m.epochs.value[1];
    assert diffs[1..] == [];
    assert BlockDiff("randomx", diffs, garbage) == BlockDiff("randomx", [], 1) == Some(1);
    assert m.epochs.value[1..] == [b] && [b][1..] == [];
    var s := Seeds(own, ZERO, true);
    assert EpochStep(height, a, NO_SEEDS) == Some(s) && EpochStep(height, b, s) == Some(Seeds(own, next, true));
    assert EpochSeeds(height, [b], s) == EpochSeeds(height, [], Seeds(own, next, true));
    assert EpochSeeds(height, m.epochs.value, NO_SEEDS) == EpochSeeds(height, [b], s) == Some(Seeds(own, next, true));
    assert Loads(height, [b]) == [GetId(next)] + Loads(height, []);
    assert Loads(height, m.epochs.value) == [GetId(own)] + Loads(height, [b]);
    assert HexCodec.FromHex("") == Some([]);
  }

  /** Two complete messages of one height, which name different seeds for the next epoch, leave the job just
      published without its own seed: the second next seed takes the slot of the first own one. */
  lemma ChangedNextSeedEvictsOwn(own: v32, next: v32, other: v32)
    requires GetId(own) != GetId(next) && GetId(own) != GetId(other) && GetId(next) != GetId(other)
    ensures var msgs := [(Job(TwoEpochs(5, 0, own, next)), 0), (Job(TwoEpochs(5, 0, own, other)), 0)];
      && LastPublished(msgs) == LastAdmitted(msgs) == Some(TwoEpochs(5, 0, own, other))
      && Complete(TwoEpochs(5, 0, own, other)) && OwnSeedId(TwoEpochs(5, 0, own, other)) == GetId(own)
      && GetId(own) !in AfterAll(EMPTY, AllLoads(msgs)).loaded
  {
    var m, n: (Message, u64) := (Job(TwoEpochs(5, 0, own, next)), 0), (Job(TwoEpochs(5, 0, own, other)), 0);
    var msgs := [m, n];
    TwoEpochsIsComplete(5, 0, own, next, 0);
    TwoEpochsIsComplete(5, 0, own, other, 0);
    var none: seq<(Message, u64)> := [];
    assert msgs[..1] == [m] && [m][..0] == none;
    assert AllLoads(none) == [];
    assert AllLoads([m]) == [] + [GetId(own), GetId(next)];
    assert AllLoads(msgs) == [GetId(own), GetId(next)] + [GetId(own), GetId(other)];
    FourLoads(GetId(own), GetId(next), GetId(other));
  }

  lemma TwoEpochsIsAnnounced(height: u32, start: u32, own: v32, next: v32, jobId: Option<u32>)
    requires start + 20 < TWO32 && start < height <= start + 10
    ensures Announcement(Job(TwoEpochs(height, start, own, next).(jobId := jobId)), 0) == Some(height)
  {
    var m := TwoEpochs(height, start, own, next).(jobId := jobId);
    TwoEpochsIsComplete(height, start, own, next, 0);
    assert IsOwn(m.epochs.value[0], height);
  }

  lemma TwoAnnounced(m: JobMessage, n: JobMessage, a: nat, b: nat)
    requires Announcement(Job(m), 0) == Some(a) && Announcement(Job(n), 0) == Some(b)
    ensures Announced([(Job(m), 0), (Job(n), 0)]) == [a, b]
  {
    var x, y: (Message, u64) := (Job(m), 0), (Job(n), 0);
    var none: seq<(Message, u64)> := [];
    assert [x][..0] == none && [x, y][..1] == [x];
    assert Announced([x]) == Announced(none) + [a];
    assert Announced([x, y]) == Announced([x]) + [b];
  }

  /** Nor does the ProgPow pool keep the published job's epoch, if a later message of a later epoch left its own
      job half filled: here its job id was missing. */
  lemma HalfFilledJobEvictsEpoch(own: v32, next: v32)
    ensures var epochOf := (b: nat) => if b < 100 then b / 10 else 10;
      var m, n := TwoEpochs(5, 0, own, next), TwoEpochs(29, 20, own, next).(jobId := None);
      var msgs: seq<(Message, u64)> := [(Job(m), 0), (Job(n), 0)];
      && EpochFunction(epochOf) && LastPublished(msgs) == Some(m) && Announced(msgs) == [5, 29]
      && epochOf(5) !in Notified(epochOf, Announced(msgs)).loaded
  {
    var epochOf := (b: nat) => if b < 100 then b / 10 else 10;
    var m, n := TwoEpochs(5, 0, own, next), TwoEpochs(29, 20, own, next).(jobId := None);
    var msgs: seq<(Message, u64)> := [(Job(m), 0), (Job(n), 0)];
    TwoEpochsIsComplete(5, 0, own, next, 0);
    TwoEpochsIsAnnounced(5, 0, own, next, Some(7));
    TwoEpochsIsAnnounced(29, 20, own, next, None);
    TwoAnnounced(m, n, 5, 29);
    assert msgs[..1] == [(Job(m), 0)];
    assert LastPublished([(Job(m), 0)]) == Some(m);
    EvictedByTwo(epochOf);
  }

  lemma EvictedByTwo(epochOf: nat -> nat)
    requires EpochFunction(epochOf) && epochOf(5) == epochOf(6) < epochOf(29) < epochOf(30)
    ensures epochOf(5) !in Notified(epochOf, [5, 29]).loaded
  {
    BothStayLoadedIff(epochOf, [5, 29], 5);
    assert !NotBetween(epochOf([5, 29][1]), epochOf(5), epochOf(30));
  }

  lemma FourLoads(x: nat, y: nat, z: nat)
    requires x != y && x != z && y != z && x < INVALID_EPOCH && y < INVALID_EPOCH && z < INVALID_EPOCH
    ensures x !in AfterAll(EMPTY, [x, y] + [x, z]).loaded
  {
    var r1, r2, r3 := Ring([x, INVALID_EPOCH], 1), Ring([x, y], 2), Ring([z, y], 3);
    assert EMPTY.loaded[0 := x] == r1.loaded && AfterEpoch(EMPTY, x) == r1;
    assert r1.loaded[1 := y] == r2.loaded && AfterEpoch(r1, y) == r2;
    assert AfterEpoch(r2, x) == r2;
    assert r2.loaded[0 := z] == r3.loaded && AfterEpoch(r2, z) == r3;
    var all := [x, y] + [x, z];
    assert all[1..] == [y, x, z] && all[1..][1..] == [x, z] && all[1..][1..][1..] == [z] && [z][1..] == [];
    assert AfterAll(r2, [x, z]) == AfterAll(r2, [z]) by {
      assert [x, z][1..] == [z];
    }
    assert AfterAll(r2, [z]) == AfterAll(r3, []);
    assert AfterAll(r1, [y, x, z]) == AfterAll(r2, [x, z]);
  }

  /** And there are such seeds. */
  lemma SuchSeedsExist()
    ensures exists own: v32, next: v32, other: v32 ::
      GetId(own) != GetId(next) && GetId(own) != GetId(other) && GetId(next) != GetId(other)
  {
    SmallId(1);
    SmallId(2);
    SmallId(3);
    assert GetId(Small(1)) != GetId(Small(2)) && GetId(Small(1)) != GetId(Small(3)) && GetId(Small(2)) != GetId(Small(3));
  }

  function Small(x: byte): v32 {
    [x] + seq(31, _ => 0)
  }

  lemma SmallId(x: byte)
    ensures GetId(Small(x)) == x
  {
    var d := Small(x)[..8];
    assert d == [x] + Zeros(7);
    assert d[1..] == Zeros(7);
    ZerosAreZero(7);
  }

  function Zeros(n: nat): (b: seq<byte>)
    ensures |b| == n && forall k :: 0 <= k < n ==> b[k] == 0
  {
    seq(n, _ => 0)
  }

  lemma {:induction false} ZerosAreZero(n: nat)
    ensures LittleEndian(Zeros(n)) == 0
  {
    if n > 0 {
      assert Zeros(n)[1..] == Zeros(n - 1);
      ZerosAreZero(n - 1);
    }
  }

  // ---------------------------------------------------------------- the pool

  /** What is left to ask for when `has_dataset` is asked first. */
  function Missing(r: Ring, ids: seq<nat>): seq<nat>
    requires r.WellFormed()
    decreases |ids|
  {
    if ids == [] then []
    else if ids[0] in r.loaded then Missing(r, ids[1..])
    else [ids[0]] + Missing(AfterEpoch(r, ids[0]), ids[1..])
  }

  lemma {:induction false} MissingSuffices(r: Ring, ids: seq<nat>)
    requires r.WellFormed()
    ensures AfterAll(r, Missing(r, ids)) == AfterAll(r, ids)
    decreases |ids|
  {
    if ids != [] {
      var t := AfterEpoch(r, ids[0]);
      MissingSuffices(t, ids[1..]);
      if ids[0] !in r.loaded {
        assert ([ids[0]] + Missing(t, ids[1..]))[1..] == Missing(t, ids[1..]);
      }
    }
  }

  /** The calls of `calculate_dataset` in the first `k` steps of a run. */
  ghost function CallIds(run: seq<RX.State>, k: nat): seq<nat>
    requires k < |run|
  {
    if k == 0 then []
    else if run[k - 1].caller.Rest? && run[k].caller.Invalidate? then CallIds(run, k - 1) + [RX.Id(run[k].caller.seed)]
    else CallIds(run, k - 1)
  }

  /** Step `m` begins a call only for a seed that no slot is loaded with. */
  ghost predicate AskedFirst(run: seq<RX.State>, m: nat)
    requires 0 < m < |run|
  {
    run[m - 1].caller.Rest? && run[m].caller.Invalidate? ==> RX.Id(run[m].caller.seed) !in run[m - 1].loaded
  }

  /** The ring when the call in progress will be over. */
  function Target(s: RX.State): Ring
    requires RX.WellFormed(s)
  {
    if s.caller.Rest? || s.caller.Spawn? then Ring(s.loaded, s.ctr)
    else Ring(s.loaded[s.caller.i := RX.Id(s.caller.seed)], s.ctr)
  }

  lemma StepTarget(s: RX.State, t: RX.State)
    requires RandomXRuns.StepTo(s, t)
    requires s.caller.Rest? && t.caller.Invalidate? ==> RX.Id(t.caller.seed) !in s.loaded
    ensures RX.WellFormed(t) && TargetMoves(s, t)
  {
    var e :| RX.Enabled(s, e) && t == RX.Next(s, e);
    NextTarget(s, e);
  }

  /** A call moves the target as the ring says; nothing else does. */
  ghost predicate TargetMoves(s: RX.State, t: RX.State)
    requires RX.WellFormed(s) && RX.WellFormed(t)
  {
    Target(t) ==
      if s.caller.Rest? && t.caller.Invalidate? then AfterEpoch(Target(s), RX.Id(t.caller.seed)) else Target(s)
  }

  lemma NextTarget(s: RX.State, e: RX.Event)
    requires RX.WellFormed(s) && RX.Enabled(s, e) && (e.Calculate? ==> RX.Id(e.seed) !in s.loaded)
    ensures RX.WellFormed(RX.Next(s, e)) && TargetMoves(s, RX.Next(s, e))
  {
    match e
    case Step => CallerTarget(s);
    case Calculate(seed) => CallTarget(s, seed);
    case Hash(_) => assert Unmoved(s, RX.Next(s, e));
    case Build(_) => assert Unmoved(s, RX.Next(s, e));
  }

  /** Nothing happened to what the target depends on. */
  ghost predicate Unmoved(s: RX.State, t: RX.State) {
    t.loaded == s.loaded && t.ctr == s.ctr && t.caller == s.caller && RX.WellFormed(s) && RX.WellFormed(t)
  }

  lemma CallTarget(s: RX.State, seed: RX.Seed)
    requires RX.WellFormed(s) && s.caller.Rest? && RX.Id(seed) !in s.loaded
    ensures var t := RX.Next(s, RX.Calculate(seed));
      RX.WellFormed(t) && t.caller == RX.Invalidate(s.ctr % 2, seed) && Target(t) == AfterEpoch(Target(s), RX.Id(seed))
  {
  }

  lemma CallerTarget(s: RX.State)
    requires RX.WellFormed(s) && !s.caller.Rest?
    ensures RX.WellFormed(RX.CallerStep(s)) && Target(RX.CallerStep(s)) == Target(s)
    ensures !RX.CallerStep(s).caller.Invalidate?
  {
  }

  lemma {:induction false} CallsMakeTheRing(threads: nat, run: seq<RX.State>, k: nat)
    requires RandomXRuns.Run(threads, run) && k < |run| && forall m :: 0 < m <= k ==> AskedFirst(run, m)
    ensures RX.WellFormed(run[k]) && Target(run[k]) == AfterAll(EMPTY, CallIds(run, k))
  {
    if k > 0 {
      CallsMakeTheRing(threads, run, k - 1);
      assert RandomXRuns.StepTo(run[k - 1], run[k]) && AskedFirst(run, k);
      StepTarget(run[k - 1], run[k]);
      if run[k - 1].caller.Rest? && run[k].caller.Invalidate? {
        var r, id := Target(run[k - 1]), RX.Id(run[k].caller.seed);
        AfterAllConcat(EMPTY, CallIds(run, k - 1), [id]);
        assert [id][1..] == [];
        assert AfterAll(r, [id]) == AfterEpoch(r, id);
      }
    }
  }

  /** The counterpart of what holds for ProgPow: if the node's messages are on schedule and it asks for what is
      missing only, then in any interleaving, when all is quiet, a job for the published job's seed finds a slot
      that publishes its id over a cache built, whole, from the slot's seed, which has that id. */
  lemma QuietPoolServesCurrentSeed(
    c: nat -> nat, n: nat, epochOf: nat -> nat, msgs: seq<(Message, u64)>, threads: nat, run: seq<RX.State>, k: nat)
    requires AllOnSchedule(c, n, epochOf, msgs) && SameEpoch(epochOf, msgs)
    requires RandomXRuns.Run(threads, run) && k < |run| && forall m :: 0 < m <= k ==> AskedFirst(run, m)
    requires CallIds(run, k) == Missing(EMPTY, AllLoads(msgs))
    requires run[k].caller.Rest? && RandomXRuns.FreeOfBuilders(run[k], 0) && RandomXRuns.FreeOfBuilders(run[k], 1)
    ensures RX.WellFormed(run[k])
    ensures var m := LastPublished(msgs).value;
      m.height.Some? && Complete(m) &&
      exists i: nat :: i < 2 && run[k].ready[i] == OwnSeedId(m)
        && run[k].cache[i] == Some(run[k].seed[i]) && RX.Id(run[k].seed[i]) == OwnSeedId(m)
  {
    ScheduledSeedStaysLoaded(c, n, epochOf, msgs);
    MissingSuffices(EMPTY, AllLoads(msgs));
    CallsMakeTheRing(threads, run, k);
    var id := OwnSeedId(LastPublished(msgs).value);
    assert id in run[k].loaded;
    var i: nat :| i < 2 && run[k].loaded[i] == id;
    RandomXRuns.QuietSlotIsReady(threads, run, k, i);
    assert id < TWO63;
  }

  /** So a job for that seed which is popped then is hashed over a seed with its id, not refused, if all stays quiet
      until it is fulfilled. */
  lemma QuietPoolHashesCurrentSeed(
    c: nat -> nat, n: nat, epochOf: nat -> nat, msgs: seq<(Message, u64)>,
    threads: nat, run: seq<RX.State>, k: nat, last: nat, j: nat)
    requires AllOnSchedule(c, n, epochOf, msgs) && SameEpoch(epochOf, msgs)
    requires RandomXRuns.Run(threads, run) && k <= last < |run| && forall m :: 0 < m <= k ==> AskedFirst(run, m)
    requires CallIds(run, k) == Missing(EMPTY, AllLoads(msgs))
    requires RandomXServing.PoppedAt(run, k, j) && RandomXServing.QuietFrom(run, k, last)
    requires var m := LastPublished(msgs).value;
      m.height.Some? && Complete(m) && j < |run[k].ht.jobs| && run[k].ht.jobs[j].arg == OwnSeedId(m)
    ensures j < |run[last].ht.jobs|
    ensures run[last].ht.jobs[j].fulfilled > 0 ==>
      run[last].ht.jobs[j].answer.Hashed? && RX.Id(run[last].ht.jobs[j].answer.built) == run[k].ht.jobs[j].arg
  {
    assert RandomXServing.Quiet(run[k]);
    QuietPoolServesCurrentSeed(c, n, epochOf, msgs, threads, run, k);
    RandomXServing.QuietPoolHashes(threads, run, k, last, j);
  }
}
