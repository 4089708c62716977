/** What a submit's verdict owes to the hash pool that is asked.

    `Session` says what is asked and what the verdict is for any answer.  The pools say what they answer.  Together:
    the verdict is the one the notice's own seed, or the epoch of its height, deserves, always for ProgPow, and for
    RandomX as long as the calls of `calculate_dataset` found the slots they reassign finished. */
module PoolAnswers {
  import opened Base
  import opened Vector32
  import opened Session
  import HT = HashThreads
  import Rx = RandomXPool
  import RandomXRuns
  import RandomXGuard
  import RandomXNaming
  import RandomXMisnaming
  import Runs
  import RandomXServing
  import EpochRing
  import Pp = ProgPowPool
  import ProgPowSettling
  import ProgPowServing

  /** What a client can read of its job: an error, or a hash of its work over what the pool hashed on; after a
      hash over memory that changed meanwhile, any hash. */
  predicate Reads<B>(a: HT.Answer<B>, hash: B -> v32, answer: Option<v32>) {
    match a
    case Unset => true
    case AllOnes => answer.None?
    case Hashed(b) => answer == Some(hash(b))
    case Garbage => answer.Some?
  }

  /** The verdict if the pool failed, or else if the work has this hash. */
  predicate IsDeserved(n: Notice, nodeJobId: u32, s: Submission, failed: bool, hash: v32, v: Verdict)
    requires Readable(n) && Refusal(n, s).None?
  {
    if failed then v == ServerError else IsFair(n, nodeJobId, NonceOf(s), hash, v)
  }

  /** A seed as the RandomX pool copies it. */
  function Halves(d: v32): Rx.Seed {
    Rx.Seed(LittleEndian(d[..16]), LittleEndian(d[16..]))
  }

  lemma SameId(d: v32)
    ensures Rx.Id(Halves(d)) == GetId(d)
  {
    IdIsOfTheLowHalf(d);
  }

  /** The job a submit has pushed, and the pool has served. */
  ghost predicate ServedRx(n: Notice, s: Submission, t: Rx.State, j: nat) {
    && Readable(n) && n.powType.RandomX? && Refusal(n, s).None?
    && j < |t.ht.jobs| && t.ht.jobs[j].fulfilled > 0
    && exists data :: Asked(n, s) == [RxJob(data, t.ht.jobs[j].arg)]
  }

  ghost predicate ServedPp(n: Notice, s: Submission, t: Pp.State, j: nat) {
    && Readable(n) && n.powType.ProgPow? && Refusal(n, s).None?
    && j < |t.ht.jobs| && t.ht.jobs[j].fulfilled > 0
    && exists data, nonce :: Asked(n, s) == [PpJob(data, t.ht.jobs[j].arg, nonce)]
  }

  /** The RandomX hash of the notice's blob with the miner's nonce, over a seed. */
  function RxHash(rx: (Rx.Seed, seq<byte>) -> v32, n: Notice, s: Submission): Rx.Seed -> v32
    requires Readable(n) && Refusal(n, s).None?
  {
    seed => rx(seed, WithNonce(BlobOf(n), NonceOf(s)))
  }

  lemma AskedRx(n: Notice, s: Submission)
    requires Readable(n) && n.powType.RandomX? && Refusal(n, s).None?
    ensures Asked(n, s) == [RxJob(WithNonce(BlobOf(n), NonceOf(s)), GetId(SeedOf(n)))]
  {
  }

  /** If every call found the slot it reassigned publishing what it was loaded with, and no other seed given has the
      id of the notice's, the verdict is what the hash over the notice's seed deserves. */
  lemma RandomXVerdictIsDeserved(
    threads: nat, run: seq<Rx.State>, k: nat, j: nat, rx: (Rx.Seed, seq<byte>) -> v32,
    n: Notice, nodeJobId: u32, s: Submission, answer: Option<v32>, v: Verdict)
    requires RandomXRuns.Run(threads, run) && k < |run|
    requires forall m :: 0 < m <= k ==> RandomXGuard.CallsFinishedSlot(run, m)
    requires ServedRx(n, s, run[k], j) && Reads(run[k].ht.jobs[j].answer, RxHash(rx, n, s), answer)
    requires forall seed :: seed in run[k].given && Rx.Id(seed) == GetId(SeedOf(n)) ==> seed == Halves(SeedOf(n))
    requires IsAnswer(n, nodeJobId, answer, s, v)
    ensures IsDeserved(n, nodeJobId, s, run[k].ht.jobs[j].answer.AllOnes?, RxHash(rx, n, s)(Halves(SeedOf(n))), v)
  {
    RandomXGuard.GuardedHashesUseTheJobsSeed(threads, run, k);
    RandomXRuns.RunInv(threads, run, k);
    HT.JobsAccounted(run[k].ht, j);
  }

  /** For ProgPow the verdict is what the hash over the context of the height's epoch deserves, in every run. */
  lemma ProgPowVerdictIsDeserved(
    epochOf: nat -> nat, threads: nat, run: seq<Pp.State>, k: nat, j: nat, pp: (nat, HashJob) -> v32,
    n: Notice, nodeJobId: u32, s: Submission, answer: Option<v32>, v: Verdict)
    requires EpochRing.EpochFunction(epochOf) && Pp.Run(epochOf, threads, run) && k < |run|
    requires ServedPp(n, s, run[k], j)
    requires Reads(run[k].ht.jobs[j].answer, (c: Pp.Ctx) => pp(c.epoch, WorkOf(n, NonceOf(s)).value), answer)
    requires IsAnswer(n, nodeJobId, answer, s, v)
    ensures IsDeserved(n, nodeJobId, s, run[k].ht.jobs[j].answer.AllOnes?,
                       pp(epochOf(n.height), WorkOf(n, NonceOf(s)).value), v)
  {
    Pp.HashesUseTheJobsEpoch(epochOf, threads, run, k);
    HT.JobsAccounted(run[k].ht, j);
  }

  /** Nor is it a server error if all was quiet from the job's pop on, and a slot published the seed's id. */
  lemma QuietRandomXShareIsChecked(
    threads: nat, run: seq<Rx.State>, k: nat, m: nat, j: nat, rx: (Rx.Seed, seq<byte>) -> v32,
    n: Notice, nodeJobId: u32, s: Submission, answer: Option<v32>, v: Verdict)
    requires RandomXRuns.Run(threads, run) && k <= m < |run|
    requires forall x :: 0 < x <= m ==> RandomXGuard.CallsFinishedSlot(run, x)
    requires RandomXServing.PoppedAt(run, k, j) && RandomXServing.QuietFrom(run, k, m)
    requires ServedRx(n, s, run[m], j) && GetId(SeedOf(n)) in run[k].ready
    requires Reads(run[m].ht.jobs[j].answer, RxHash(rx, n, s), answer)
    requires forall seed :: seed in run[m].given && Rx.Id(seed) == GetId(SeedOf(n)) ==> seed == Halves(SeedOf(n))
    requires IsAnswer(n, nodeJobId, answer, s, v)
    ensures IsFair(n, nodeJobId, NonceOf(s), RxHash(rx, n, s)(Halves(SeedOf(n))), v)
  {
    RandomXServing.SameJobSince(threads, run, k, m, j);
    RandomXServing.QuietPoolHashes(threads, run, k, m, j);
    RandomXVerdictIsDeserved(threads, run, m, j, rx, n, nodeJobId, s, answer, v);
  }

  /** Nor if blocks came in order, all was quiet from the job's pop on, and the height is the last block's or the
      next. */
  lemma QuietProgPowShareIsChecked(
    epochOf: nat -> nat, threads: nat, run: seq<Pp.State>, k: nat, m: nat, j: nat, pp: (nat, HashJob) -> v32,
    n: Notice, nodeJobId: u32, s: Submission, answer: Option<v32>, v: Verdict)
    requires EpochRing.EpochFunction(epochOf) && Pp.Run(epochOf, threads, run) && k <= m < |run|
    requires ProgPowServing.PoppedAt(run, k, j) && ProgPowServing.QuietFrom(run, k, m)
    requires run[k].notifier.Rest? && ProgPowSettling.InOrder(run[k])
    requires var last := run[k].blocks[|run[k].blocks| - 1]; n.height == last || n.height == last + 1
    requires ServedPp(n, s, run[m], j)
    requires Reads(run[m].ht.jobs[j].answer, (c: Pp.Ctx) => pp(c.epoch, WorkOf(n, NonceOf(s)).value), answer)
    requires IsAnswer(n, nodeJobId, answer, s, v)
    ensures IsFair(n, nodeJobId, NonceOf(s), pp(epochOf(n.height), WorkOf(n, NonceOf(s)).value), v)
  {
    ProgPowServing.SameJobSince(epochOf, threads, run, k, m, j);
    ProgPowServing.QuietPoolHashesCurrentBlocks(epochOf, threads, run, k, m, j);
    ProgPowVerdictIsDeserved(epochOf, threads, run, m, j, pp, n, nodeJobId, s, answer, v);
  }

  /** Without the guard it need not be: after a call whose seed does not match, the pool can go on to serve a submit
      for a notice of that seed so that the verdict is the one a hash over a seed with another id deserves. */
  lemma UnmatchedCallMisjudges(
    threads: nat, run: seq<Rx.State>, k: nat, rx: (Rx.Seed, seq<byte>) -> v32,
    n: Notice, nodeJobId: u32, s: Submission)
    requires RandomXRuns.Run(threads, run) && k < |run| && threads > 0 && run[k].caller.Rest?
    requires Readable(n) && n.powType.RandomX? && Refusal(n, s).None?
    requires !RandomXNaming.Matching(run[k], Halves(SeedOf(n)))
    ensures Rx.WellFormed(run[k])
    ensures exists t: Rx.State, j: nat, other: Rx.Seed ::
      && Runs.Reaches(RandomXNaming.By(RandomXNaming.AnyCalls), Rx.Next(run[k], Rx.Calculate(Halves(SeedOf(n)))), t)
      && ServedRx(n, s, t, j) && t.ht.jobs[j].answer == HT.Hashed(other) && Rx.Id(other) != GetId(SeedOf(n))
      && (forall answer, v :: Reads(t.ht.jobs[j].answer, RxHash(rx, n, s), answer) && IsAnswer(n, nodeJobId, answer, s, v)
            ==> IsDeserved(n, nodeJobId, s, false, RxHash(rx, n, s)(other), v))
  {
    var seed := Halves(SeedOf(n));
    SameId(SeedOf(n));
    RandomXMisnaming.UnmatchedCallMisnames(threads, run, k, seed);
    var t :| Runs.Reaches(RandomXNaming.By(RandomXNaming.AnyCalls), Rx.Next(run[k], Rx.Calculate(seed)), t)
      && RandomXMisnaming.MisnamesLast(t, Rx.Id(seed));
    var j: nat := |t.ht.jobs| - 1;
    AskedRx(n, s);
    assert ServedRx(n, s, t, j);
  }
}
