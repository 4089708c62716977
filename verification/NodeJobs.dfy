/** The node's list of jobs: what a job message does to it, which job is published, and what a published
    job is known to be. */
module NodeJobs {
  import opened Base
  import opened Vector32
  import HexCodec
  import EpochRing

  const PREPOW_SIZE: nat := 384
  const NONCE_SIZE: nat := 8
  const MAX_JOBS: nat := 5

  datatype PowType = RandomX | ProgPow | Cuckoo

  /** An entry of `block_difficulty`; the second element matters only if the first is the job's algorithm. */
  datatype DiffEntry = BadDiff | DiffEntry(algo: string, diff: Option<u64>)

  /** An entry of `epochs`; the seed is looked at only if the epoch is used. */
  datatype EpochEntry = BadEpoch | Epoch(start: u32, end: u32, seed: Option<v32>)

  /** A job message's fields, as the typed accessors find them; `None` where they throw. */
  datatype JobMessage = JobMessage(
    height: Option<u32>, algorithm: Option<string>, diffs: Option<seq<DiffEntry>>,
    epochs: Option<seq<EpochEntry>>, jobId: Option<u32>, prepow: Option<string>)

  datatype Message =
    | Refused                      // not JSON, or an exception before the method is looked at, or an unknown method
    | Notice                       // an error answer, a submit's or a login's answer
    | Job(msg: JobMessage)

  function AlgorithmType(name: string): Option<PowType> {
    if name == "randomx" then Some(RandomX)
    else if name == "progpow" then Some(ProgPow)
    else if name == "cuckoo" then Some(Cuckoo)
    else None
  }

  /** The last entry for the algorithm; `init` if there is none; nothing if the list does not parse. */
  function BlockDiff(algo: string, diffs: seq<DiffEntry>, init: u64): Option<u64> {
    if diffs == [] then Some(init)
    else if diffs[0].BadDiff? then None
    else if diffs[0].algo != algo then BlockDiff(algo, diffs[1..], init)
    else if diffs[0].diff.None? then None
    else BlockDiff(algo, diffs[1..], diffs[0].diff.value)
  }

  /** The entry parses, as far as it is looked at. */
  predicate Parses(e: DiffEntry, algo: string) {
    e.DiffEntry? && (e.algo == algo ==> e.diff.Some?)
  }

  predicate Names(e: DiffEntry, algo: string) {
    e.DiffEntry? && e.algo == algo
  }

  predicate NamedLast(algo: string, diffs: seq<DiffEntry>, k: nat) {
    k < |diffs| && Names(diffs[k], algo) && forall l :: k < l < |diffs| ==> !Names(diffs[l], algo)
  }

  /** The difficulty is that of the last entry for the algorithm, if all that are looked at parse. */
  lemma {:induction false} LastDifficulty(algo: string, diffs: seq<DiffEntry>, init: u64)
    ensures var d := BlockDiff(algo, diffs, init);
      && (d.Some? <==> forall k :: 0 <= k < |diffs| ==> Parses(diffs[k], algo))
      && (d.Some? ==> forall k :: 0 <= k < |diffs| && NamedLast(algo, diffs, k) ==> Some(d.value) == diffs[k].diff)
      && (d.Some? && (forall k :: 0 <= k < |diffs| ==> !Names(diffs[k], algo)) ==> d.value == init)
  {
    if diffs != [] {
      var e, more := diffs[0], diffs[1..];
      var next := if Names(e, algo) && e.diff.Some? then e.diff.value else init;
      LastDifficulty(algo, more, next);
      assert forall k :: 0 < k < |diffs| ==> diffs[k] == more[k - 1];
      assert forall k :: 0 <= k < |more| ==> more[k] == diffs[k + 1];
      assert Parses(e, algo) ==> BlockDiff(algo, diffs, init) == BlockDiff(algo, more, next);
      forall k | 0 < k < |diffs| && NamedLast(algo, diffs, k) ensures NamedLast(algo, more, k - 1) {
      }
    }
  }

  /** The seeds found so far and whether the height's own epoch was among them. */
  datatype Seeds = Seeds(current: v32, next: v32, found: bool)

  const ZERO: v32 := [0, 0, 0, 0, 0, 0, 0, 0, 0, 0, 0, 0, 0, 0, 0, 0, 0, 0, 0, 0, 0, 0, 0, 0, 0, 0, 0, 0, 0, 0, 0, 0]
  const NO_SEEDS := Seeds(ZERO, ZERO, false)

  /** The node's first height is one too low. */
  predicate Contains(e: EpochEntry, height: nat) {
    e.Epoch? && e.start + 1 <= height <= e.end
  }

  function EpochStep(height: nat, e: EpochEntry, s: Seeds): Option<Seeds> {
    if e.BadEpoch? || e.end == 0 || e.end <= e.start then None
    else if Contains(e, height) then
      if e.seed.None? then None else Some(s.(current := e.seed.value, found := true))
    else if height < e.start + 1 then
      if e.seed.None? then None else Some(s.(next := e.seed.value))
    else None
  }

  function EpochSeeds(height: nat, epochs: seq<EpochEntry>, s: Seeds): Option<Seeds> {
    if epochs == [] then Some(s)
    else
      var t := EpochStep(height, epochs[0], s);
      if t.None? then None else EpochSeeds(height, epochs[1..], t.value)
  }

  /** An epoch that contains the height, or comes after it. */
  predicate InOrder(e: EpochEntry, height: nat) {
    e.Epoch? && e.start < e.end && height <= e.end && e.seed.Some?
  }

  /** The list of epochs is read through exactly if all are in order; the height's own is found exactly if one
      contains it. */
  lemma {:induction false} EpochSeedsIff(height: nat, epochs: seq<EpochEntry>, s: Seeds)
    ensures var t := EpochSeeds(height, epochs, s);
      && (t.Some? <==> forall k :: 0 <= k < |epochs| ==> InOrder(epochs[k], height))
      && (t.Some? ==> (t.value.found <==> s.found || exists k :: 0 <= k < |epochs| && IsOwn(epochs[k], height)))
    decreases |epochs|
  {
    if epochs != [] {
      var e, more := epochs[0], epochs[1..];
      assert forall k :: 0 < k < |epochs| ==> epochs[k] == more[k - 1];
      assert forall k :: 0 <= k < |more| ==> more[k] == epochs[k + 1];
      var t := EpochStep(height, e, s);
      assert t.Some? <==> InOrder(e, height);
      if t.Some? {
        assert t.value.found <==> s.found || IsOwn(e, height);
        EpochSeedsIff(height, more, t.value);
      }
    }
  }

  predicate IsOwn(e: EpochEntry, height: nat) {
    e.Epoch? && e.start < height <= e.end
  }

  /** The ProgPow pool is told of the block: one or two epochs, all in order, and one of them the height's own. */
  predicate Announces(m: JobMessage) {
    && m.height.Some? && m.epochs.Some? && 1 <= |m.epochs.value| <= 2
    && (forall k :: 0 <= k < |m.epochs.value| ==> InOrder(m.epochs.value[k], m.height.value))
    && exists k :: 0 <= k < |m.epochs.value| && IsOwn(m.epochs.value[k], m.height.value)
  }

  /** The decoded work to hash: the message's bytes and room for a nonce. */
  function Prepow(text: string): Option<seq<byte>> {
    if |text| / 2 > PREPOW_SIZE - NONCE_SIZE || HexCodec.FromHex(text).None? then None
    else Some(HexCodec.FromHex(text).value + [0, 0, 0, 0, 0, 0, 0, 0])
  }

  /** What it takes for a message to reach the point where its job is put on the list; `garbage` is what
      the difficulty variable happens to hold. */
  predicate Admitted(m: JobMessage, garbage: u64) {
    && m.height.Some? && m.height.value != 0
    && m.algorithm.Some? && AlgorithmType(m.algorithm.value).Some?
    && m.diffs.Some? && BlockDiff(m.algorithm.value, m.diffs.value, garbage).Some?
    && BlockDiff(m.algorithm.value, m.diffs.value, garbage).value != 0
  }

  /** What more it takes for that job to be published. */
  predicate Complete(m: JobMessage)
    requires m.height.Some?
  {
    && m.epochs.Some? && 1 <= |m.epochs.value| <= 2
    && EpochSeeds(m.height.value, m.epochs.value, NO_SEEDS).Some?
    && EpochSeeds(m.height.value, m.epochs.value, NO_SEEDS).value.found
    && m.jobId.Some?
    && m.prepow.Some? && Prepow(m.prepow.value).Some?
  }

  lemma {:induction false} SomeNamedLast(algo: string, diffs: seq<DiffEntry>, n: nat)
    requires n <= |diffs| && forall l :: n <= l < |diffs| ==> !Names(diffs[l], algo)
    ensures (forall k :: 0 <= k < n ==> !Names(diffs[k], algo)) || exists k :: 0 <= k < n && NamedLast(algo, diffs, k)
  {
    if n > 0 {
      if Names(diffs[n - 1], algo) {
        assert NamedLast(algo, diffs, n - 1);
      } else {
        SomeNamedLast(algo, diffs, n - 1);
      }
    }
  }

  /** Just which messages get their job onto the list: of a known algorithm, with a height and a difficulty other
      than zero, the difficulty being what the variable held if no entry names the algorithm. */
  lemma AdmittedIff(m: JobMessage, garbage: u64)
    requires m.height.Some? && m.algorithm.Some? && m.diffs.Some?
    ensures var algo, diffs := m.algorithm.value, m.diffs.value;
      Admitted(m, garbage) <==>
        && m.height.value != 0 && algo in ["randomx", "progpow", "cuckoo"]
        && (forall k :: 0 <= k < |diffs| ==> Parses(diffs[k], algo))
        && (forall k :: 0 <= k < |diffs| && NamedLast(algo, diffs, k) ==> diffs[k].diff != Some(0))
        && ((forall k :: 0 <= k < |diffs| ==> !Names(diffs[k], algo)) ==> garbage != 0)
  {
    var algo, diffs := m.algorithm.value, m.diffs.value;
    LastDifficulty(algo, diffs, garbage);
    SomeNamedLast(algo, diffs, |diffs|);
  }

  /** And just which of these have their job published: those whose block is announced, with a job id and a work of
      at most 376 bytes in hexadecimal. */
  lemma CompleteIff(m: JobMessage)
    requires m.height.Some?
    ensures Complete(m) <==>
      && Announces(m) && m.jobId.Some? && m.prepow.Some?
      && |m.prepow.value| / 2 <= 376 && HexCodec.IsHexText(m.prepow.value)
  {
    if m.epochs.Some? {
      EpochSeedsIff(m.height.value, m.epochs.value, NO_SEEDS);
    }
    if m.prepow.Some? {
      HexCodec.DecodesExactly(m.prepow.value);
      HexCodec.HexTextIs(m.prepow.value);
    }
  }

  /** The seed a published job carries is that of one of its message's epochs that contains its height. */
  lemma {:induction false} FoundSeedIsOfAnEpoch(height: nat, epochs: seq<EpochEntry>, s: Seeds)
    requires EpochSeeds(height, epochs, s).Some?
    ensures var t := EpochSeeds(height, epochs, s).value;
      if t.found && (!s.found || t.current != s.current)
      then exists e :: e in epochs && Contains(e, height) && e.seed == Some(t.current)
      else t.found == s.found && t.current == s.current
  {
    if epochs != [] {
      var t := EpochStep(height, epochs[0], s).value;
      FoundSeedIsOfAnEpoch(height, epochs[1..], t);
      var u := EpochSeeds(height, epochs, s).value;
      if u.found && (!s.found || u.current != s.current) {
        if u.found && (!t.found || u.current != t.current) {
          var e :| e in epochs[1..] && Contains(e, height) && e.seed == Some(u.current);
          assert e in epochs;
        } else {
          assert epochs[0] in epochs;
        }
      }
    }
  }

  /** A published job's work fits its buffer with room for a nonce, and is refused if its text has odd length. */
  lemma PrepowFits(text: string)
    requires Prepow(text).Some?
    ensures |Prepow(text).value| == |text| / 2 + NONCE_SIZE <= PREPOW_SIZE && |text| % 2 == 0
    ensures HexCodec.ToHex(Prepow(text).value[..|text| / 2]) == HexCodec.LowerCase(text)
  {
    HexCodec.DecodesExactly(text);
    HexCodec.EncodeDecoded(text);
    assert Prepow(text).value[..|text| / 2] == HexCodec.FromHex(text).value;
  }

  // ---------------------------------------------------------------- the seeds to load

  /** The ids of the seeds looked at, in order, up to the entry that fails. */
  function Loads(height: nat, epochs: seq<EpochEntry>): seq<nat>
    decreases |epochs|
  {
    if epochs == [] || EpochStep(height, epochs[0], NO_SEEDS).None? then []
    else [GetId(epochs[0].seed.value)] + Loads(height, epochs[1..])
  }

  /** The job's own cache is loaded when the job is published, exactly unless it was loaded only in the slot
      next to be overwritten and the following epoch's, named second, was not loaded. */
  lemma PublishedSeedIsLoadedIff(height: nat, epochs: seq<EpochEntry>, r: EpochRing.Ring)
    requires r.WellFormed() && 1 <= |epochs| <= 2
    requires EpochSeeds(height, epochs, NO_SEEDS).Some? && EpochSeeds(height, epochs, NO_SEEDS).value.found
    ensures var seeds := EpochSeeds(height, epochs, NO_SEEDS).value;
      var own, next := GetId(seeds.current), GetId(seeds.next);
      own in EpochRing.AfterAll(r, Loads(height, epochs)).loaded <==>
      !(|epochs| == 2 && Contains(epochs[0], height) && !Contains(epochs[1], height) &&
        r.loaded[r.Victim()] == own && r.loaded[1 - r.Victim()] != own && next !in r.loaded)
  {
    var a := epochs[0];
    var seeds := EpochSeeds(height, epochs, NO_SEEDS).value;
    var x := GetId(a.seed.value);
    assert EpochStep(height, a, NO_SEEDS).Some?;
    var r1 := EpochRing.AfterEpoch(r, x);
    assert x in r1.loaded by { LoadedThen(r, x); }
    if |epochs| == 1 {
      assert epochs[1..] == [];
      assert Loads(height, epochs) == [x];
      assert [x][1..] == [];
    } else {
      var b := epochs[1];
      assert epochs[1..] == [b] && [b][1..] == [];
      var y := GetId(b.seed.value);
      assert Loads(height, [b]) == [y];
      assert Loads(height, epochs) == [x, y];
      assert [x, y][1..] == [y] && [y][1..] == [];
      var r2 := EpochRing.AfterEpoch(r1, y);
      assert EpochRing.AfterAll(r, [x, y]) == EpochRing.AfterAll(r1, [y]) == r2;
      EpochRing.TwoLoadsKeepBothIff(r, x, y);
      LoadedThen(r1, y);
      var s1 := EpochStep(height, a, NO_SEEDS).value;
      assert EpochSeeds(height, epochs, NO_SEEDS) == EpochSeeds(height, [b], s1) == EpochStep(height, b, s1);
    }
  }

  lemma LoadedThen(r: EpochRing.Ring, x: nat)
    requires r.WellFormed()
    ensures x in EpochRing.AfterEpoch(r, x).loaded
  {
    assert x !in r.loaded ==> EpochRing.AfterEpoch(r, x).loaded[r.Victim()] == x;
  }

  // ---------------------------------------------------------------- the list

  class JobData {
    var powType: PowType
    var blockDiff: u64
    var height: u32
    var jobId: u32
    const prepow: array<byte>
    var prepowLen: nat
    var rxSeed: v32
    var rxNextSeed: v32
    /** The message this job is made from, and what the difficulty variable held before. */
    ghost const origin: JobMessage
    ghost const garbage: u64

    constructor (ghost m: JobMessage, ghost garbage: u64, powType: PowType, blockDiff: u64)
      ensures fresh(prepow) && prepow.Length == PREPOW_SIZE
      ensures this.powType == powType && this.blockDiff == blockDiff && origin == m && this.garbage == garbage
      ensures rxSeed == ZERO && rxNextSeed == ZERO
    {
      prepow := new byte[PREPOW_SIZE];
      this.powType, this.blockDiff, origin, this.garbage := powType, blockDiff, m, garbage;
      rxSeed, rxNextSeed := ZERO, ZERO;
      height, jobId, prepowLen := 0, 0, 0;
    }

    /** Every field is what the job's message says. */
    ghost predicate Filled()
      reads this, prepow
    {
      && prepow.Length == PREPOW_SIZE && prepowLen <= prepow.Length
      && Admitted(origin, garbage) && Complete(origin)
      && height == origin.height.value
      && AlgorithmType(origin.algorithm.value) == Some(powType)
      && BlockDiff(origin.algorithm.value, origin.diffs.value, garbage) == Some(blockDiff)
      && origin.jobId == Some(jobId)
      && Prepow(origin.prepow.value) == Some(prepow[..prepowLen])
      && EpochSeeds(height, origin.epochs.value, NO_SEEDS) == Some(Seeds(rxSeed, rxNextSeed, true))
    }

    /** So the work fits, leaves room for a nonce, and the seed is of an epoch of the job's height. */
    lemma FilledMeans()
      requires Filled()
      ensures 8 <= prepowLen <= 384
      ensures prepow[prepowLen - NONCE_SIZE..prepowLen] == [0, 0, 0, 0, 0, 0, 0, 0]
      ensures HexCodec.ToHex(prepow[..prepowLen - NONCE_SIZE]) == HexCodec.LowerCase(origin.prepow.value)
      ensures blockDiff != 0 && height != 0 && Some(height) == origin.height
      ensures powType == if origin.algorithm == Some("randomx") then RandomX
        else if origin.algorithm == Some("progpow") then ProgPow else Cuckoo
      ensures powType.Cuckoo? ==> origin.algorithm == Some("cuckoo")
      ensures forall k :: 0 <= k < |origin.diffs.value| && NamedLast(origin.algorithm.value, origin.diffs.value, k) ==>
        Some(blockDiff) == origin.diffs.value[k].diff
      ensures exists e :: e in origin.epochs.value && Contains(e, height) && e.seed == Some(rxSeed)
    {
      var text := origin.prepow.value;
      LastDifficulty(origin.algorithm.value, origin.diffs.value, garbage);
      PrepowFits(text);
      FoundSeedIsOfAnEpoch(height, origin.epochs.value, NO_SEEDS);
      assert prepowLen == |Prepow(text).value| == |text| / 2 + NONCE_SIZE;
      assert prepow[..prepowLen][prepowLen - NONCE_SIZE..] == prepow[prepowLen - NONCE_SIZE..prepowLen];
      assert prepow[..prepowLen][..|text| / 2] == prepow[..prepowLen - NONCE_SIZE];
    }

    /** `hex2bin` into the buffer, then eight zero bytes behind; false if the text is too long or no hex. */
    method FillPrepow(text: string) returns (ok: bool)
      requires prepow.Length == PREPOW_SIZE
      modifies this`prepowLen, prepow
      ensures ok <==> Prepow(text).Some?
      ensures ok ==> prepowLen <= prepow.Length && prepow[..prepowLen] == Prepow(text).value
    {
      if |text| / 2 > PREPOW_SIZE - NONCE_SIZE {
        return false;
      }
      ok := HexCodec.HexToBin(text, prepow);
      if !ok {
        return;
      }
      HexCodec.DecodesExactly(text);
      prepowLen := |text| / 2;
      for i := 0 to NONCE_SIZE
        invariant prepowLen == |text| / 2 <= PREPOW_SIZE - NONCE_SIZE
        invariant prepow[..prepowLen] == HexCodec.FromHex(text).value
        invariant forall k :: prepowLen <= k < prepowLen + i ==> prepow[k] == 0
      {
        prepow[prepowLen + i] := 0;
      }
      prepowLen := prepowLen + NONCE_SIZE;
      assert prepow[..prepowLen] == prepow[..|text| / 2] + prepow[|text| / 2..prepowLen];
      EightZeros(prepow[|text| / 2..prepowLen]);
    }
  }

  lemma EightZeros(b: seq<byte>)
    requires |b| == 8 && forall k :: 0 <= k < 8 ==> b[k] == 0
    ensures b == [0, 0, 0, 0, 0, 0, 0, 0]
  {
  }

  lemma BlockDiffStep(algo: string, diffs: seq<DiffEntry>, i: nat, init: u64)
    requires i < |diffs|
    ensures BlockDiff(algo, diffs[i..], init) ==
      (if diffs[i].BadDiff? then None
       else if diffs[i].algo != algo then BlockDiff(algo, diffs[i + 1..], init)
       else if diffs[i].diff.None? then None
       else BlockDiff(algo, diffs[i + 1..], diffs[i].diff.value))
  {
    assert diffs[i..][1..] == diffs[i + 1..];
  }

  method FindDifficulty(algo: string, diffs: seq<DiffEntry>, garbage: u64) returns (diff: Option<u64>)
    ensures diff == BlockDiff(algo, diffs, garbage)
  {
    var blockDiff := garbage;
    assert diffs[0..] == diffs;
    for i := 0 to |diffs|
      invariant BlockDiff(algo, diffs[i..], blockDiff) == BlockDiff(algo, diffs, garbage)
    {
      BlockDiffStep(algo, diffs, i, blockDiff);
      if diffs[i].BadDiff? {
        return None;
      }
      if diffs[i].algo == algo {
        if diffs[i].diff.None? {
          return None;
        }
        blockDiff := diffs[i].diff.value;
      }
    }
    assert diffs[|diffs|..] == [];
    return Some(blockDiff);
  }

  lemma EpochsStep(height: nat, epochs: seq<EpochEntry>, i: nat, s: Seeds)
    requires i < |epochs|
    ensures EpochSeeds(height, epochs[i..], s) ==
      (if EpochStep(height, epochs[i], s).None? then None
       else EpochSeeds(height, epochs[i + 1..], EpochStep(height, epochs[i], s).value))
    ensures Loads(height, epochs[i..]) ==
      (if EpochStep(height, epochs[i], s).None? then []
       else [GetId(epochs[i].seed.value)] + Loads(height, epochs[i + 1..]))
  {
    assert epochs[i..][1..] == epochs[i + 1..];
  }

  lemma LoadsStep(r: EpochRing.Ring, x: nat, more: seq<nat>)
    requires r.WellFormed()
    ensures EpochRing.AfterAll(r, [x] + more) == EpochRing.AfterAll(EpochRing.AfterEpoch(r, x), more)
  {
    assert ([x] + more)[1..] == more;
  }

  class Node {
    var jobs: seq<JobData>
    var current: JobData?
    /** What the two pools are loaded with: seed ids and epochs. */
    var seeds: EpochRing.Ring
    var epochs: EpochRing.Ring
    const epochOf: nat -> nat
    /** How many jobs were left on the list half filled. */
    ghost var strays: nat

    ghost predicate Valid()
      reads this, jobs, set j | j in jobs :: j.prepow
    {
      && (forall i, j :: 0 <= i < j < |jobs| ==> jobs[i] != jobs[j])
      && (current != null ==> current in jobs && current.Filled())
      && |jobs| <= MAX_JOBS + strays
      && seeds.WellFormed() && epochs.WellFormed()
    }

    constructor (epochOf: nat -> nat)
      ensures Valid() && jobs == [] && current == null && strays == 0 && this.epochOf == epochOf
      ensures seeds == epochs == EpochRing.EMPTY
    {
      jobs, current, strays, this.epochOf := [], null, 0, epochOf;
      seeds, epochs := EpochRing.EMPTY, EpochRing.EMPTY;
    }

    method LoadSeed(seed: v32)
      requires seeds.WellFormed()
      modifies this`seeds
      ensures seeds == EpochRing.AfterEpoch(old(seeds), GetId(seed))
    {
      seeds := EpochRing.AfterEpoch(seeds, GetId(seed));
    }

    /** The loop over the message's epochs: seeds are stored in the job, and loaded as they are met. */
    method ChooseSeeds(job: JobData, height: u32, entries: seq<EpochEntry>) returns (ok: bool)
      requires seeds.WellFormed() && job.rxSeed == job.rxNextSeed == ZERO
      modifies this`seeds, job`rxSeed, job`rxNextSeed
      ensures seeds == EpochRing.AfterAll(old(seeds), Loads(height, entries))
      ensures ok <==> EpochSeeds(height, entries, NO_SEEDS).Some? && EpochSeeds(height, entries, NO_SEEDS).value.found
      ensures ok ==> EpochSeeds(height, entries, NO_SEEDS) == Some(Seeds(job.rxSeed, job.rxNextSeed, true))
    {
      var found := false;
      assert entries[0..] == entries;
      for i := 0 to |entries|
        invariant seeds.WellFormed()
        invariant EpochSeeds(height, entries[i..], Seeds(job.rxSeed, job.rxNextSeed, found)) ==
          EpochSeeds(height, entries, NO_SEEDS)
        invariant EpochRing.AfterAll(seeds, Loads(height, entries[i..])) ==
          EpochRing.AfterAll(old(seeds), Loads(height, entries))
      {
        var e := entries[i];
        EpochsStep(height, entries, i, Seeds(job.rxSeed, job.rxNextSeed, found));
        if e.BadEpoch? || e.end == 0 || e.end <= e.start {
          return false;
        }
        var start := e.start + 1;
        if start <= height <= e.end {
          found := true;
          if e.seed.None? {
            return false;
          }
          job.rxSeed := e.seed.value;
          LoadsStep(seeds, GetId(e.seed.value), Loads(height, entries[i + 1..]));
          LoadSeed(job.rxSeed);
        } else if height < start {
          if e.seed.None? {
            return false;
          }
          job.rxNextSeed := e.seed.value;
          LoadsStep(seeds, GetId(e.seed.value), Loads(height, entries[i + 1..]));
          LoadSeed(job.rxNextSeed);
        } else {
          return false;
        }
      }
      assert entries[|entries|..] == [];
      return found;
    }

    /** What follows once the job is on the list, up to its being complete. */
    method FillJob(job: JobData, m: JobMessage) returns (ok: bool)
      requires seeds.WellFormed() && epochs.WellFormed()
      requires job.prepow.Length == PREPOW_SIZE && job.rxSeed == job.rxNextSeed == ZERO
      requires Admitted(m, job.garbage) && job.origin == m
      requires AlgorithmType(m.algorithm.value) == Some(job.powType)
      requires BlockDiff(m.algorithm.value, m.diffs.value, job.garbage) == Some(job.blockDiff)
      modifies this`seeds, this`epochs, job, job.prepow
      ensures ok <==> Complete(m)
      ensures ok ==> job.Filled()
      ensures seeds.WellFormed() && epochs.WellFormed()
      ensures seeds == SeedsAfter(old(seeds), m)
      ensures epochs ==
        if Announces(m) then EpochRing.AfterBlock(epochOf, old(epochs), m.height.value) else old(epochs)
    {
      var height := m.height.value;
      if m.epochs.None? || (|m.epochs.value| != 1 && |m.epochs.value| != 2) {
        return false;
      }
      EpochSeedsIff(height, m.epochs.value, NO_SEEDS);
      ok := ChooseSeeds(job, height, m.epochs.value);
      if !ok {
        return;
      }
      epochs := EpochRing.AfterBlock(epochOf, epochs, height);
      if m.jobId.None? {
        return false;
      }
      job.jobId := m.jobId.value;
      job.height := height;
      if m.prepow.None? {
        return false;
      }
      ok := job.FillPrepow(m.prepow.value);
    }

    /** The kind and difficulty of a message's job; difficulty 0 if there is to be none. */
    method Admit(m: JobMessage, garbage: u64) returns (powType: PowType, blockDiff: u64)
      ensures blockDiff != 0 <==> Admitted(m, garbage)
      ensures Admitted(m, garbage) ==>
        && AlgorithmType(m.algorithm.value) == Some(powType)
        && BlockDiff(m.algorithm.value, m.diffs.value, garbage) == Some(blockDiff)
    {
      powType, blockDiff := RandomX, 0;
      if m.height.None? || m.height.value == 0 || m.algorithm.None? {
        return;
      }
      var known := AlgorithmType(m.algorithm.value);
      if known.None? || m.diffs.None? {
        return;
      }
      var diff := FindDifficulty(m.algorithm.value, m.diffs.value, garbage);
      if diff.Some? {
        powType, blockDiff := known.value, diff.value;
      }
    }

    /** A job message; false when the connection is to be given up.  A complete job is put on the list and
        published, the oldest leaving if there are too many; an admitted one that proves incomplete stays on
        the list half filled; no other job is touched. */
    method ProcessJob(m: JobMessage, garbage: u64) returns (ok: bool)
      requires Valid()
      modifies this
      ensures Valid()
      ensures ok <==> m.height == Some(0) || (Admitted(m, garbage) && Complete(m))
      ensures !Admitted(m, garbage) ==>
        jobs == old(jobs) && current == old(current) && strays == old(strays) && seeds == old(seeds)
      ensures Admitted(m, garbage) ==> seeds == SeedsAfter(old(seeds), m)
      ensures epochs ==
        if Admitted(m, garbage) && Announces(m) then EpochRing.AfterBlock(epochOf, old(epochs), m.height.value)
        else old(epochs)
      ensures Admitted(m, garbage) && Complete(m) ==>
        && strays == old(strays)
        && current != null && fresh(current) && current.origin == m && current.Filled()
        && jobs == (if |old(jobs)| < 5 then old(jobs) else old(jobs)[1..]) + [current]
      ensures Admitted(m, garbage) && !Complete(m) ==>
        && strays == old(strays) + 1
        && current == old(current)
        && |jobs| == |old(jobs)| + 1 && jobs[..|old(jobs)|] == old(jobs) && fresh(jobs[|old(jobs)|])
    {
      var powType, blockDiff := Admit(m, garbage);
      if blockDiff == 0 {
        return m.height == Some(0);
      }
      var job := new JobData(m, garbage, powType, blockDiff);
      jobs := jobs + [job];
      ok := FillJob(job, m);
      if !ok {
        strays := strays + 1;
        return;
      }
      current := job;
      if |jobs| > MAX_JOBS {
        jobs := jobs[1..];
      }
      assert jobs[|jobs| - 1] == current;
    }

    /** Any message. */
    method ProcessMessage(msg: Message, garbage: u64) returns (ok: bool)
      requires Valid()
      modifies this
      ensures Valid()
      ensures msg.Refused? ==> !ok
      ensures msg.Notice? ==> ok
      ensures old(current) != null ==> current != null
      ensures current != old(current) <==> msg.Job? && Admitted(msg.msg, garbage) && Complete(msg.msg)
      ensures current != old(current) ==> current != null && fresh(current) && current.origin == msg.msg && ok
      ensures forall j :: j in jobs ==> j in old(jobs) || fresh(j)
      ensures seeds == EpochRing.AfterAll(old(seeds), LoadsOf(msg, garbage))
      ensures epochs == if Announcement(msg, garbage).None? then old(epochs)
        else EpochRing.AfterBlock(epochOf, old(epochs), Announcement(msg, garbage).value)
    {
      match msg
      case Refused => ok := false;
      case Notice => ok := true;
      case Job(m) => ok := ProcessJob(m, garbage);
    }

    /** Over any mix of messages, and of reconnections after those that are refused, what is published is the
        job of the last complete one, filled, and still on the list; and the pools are loaded with the seeds and
        the blocks asked for, the epochs of the published job and of the next among them for as long as no others
        have taken their place. */
    method Run(msgs: seq<(Message, u64)>)
      requires Valid() && current == null
      modifies this
      ensures Valid()
      ensures current == null <==> LastPublished(msgs) == None
      ensures current != null ==>
        LastPublished(msgs) == Some(current.origin) && current in jobs && current.Filled()
      ensures seeds == EpochRing.AfterAll(old(seeds), AllLoads(msgs))
      ensures old(epochs) == EpochRing.EMPTY ==> epochs == EpochRing.Notified(epochOf, Announced(msgs))
      ensures (
        && old(epochs) == EpochRing.EMPTY && EpochRing.EpochFunction(epochOf) && Nondecreasing(Announced(msgs))
        && current != null) ==>
        && Announced(msgs) != []
        && ((epochOf(current.height) in epochs.loaded && epochOf(current.height + 1) in epochs.loaded)
            <==> EpochRing.StillNewest(epochOf, Announced(msgs), current.height))
    {
      for i := 0 to |msgs|
        invariant Valid() && seeds == EpochRing.AfterAll(old(seeds), AllLoads(msgs[..i]))
        invariant old(epochs) == EpochRing.EMPTY ==> epochs == EpochRing.Notified(epochOf, Announced(msgs[..i]))
        invariant LastPublished(msgs[..i]) == if current == null then None else Some(current.origin)
      {
        assert msgs[..i + 1][..i] == msgs[..i] && msgs[..i + 1][i] == msgs[i];
        var (m, garbage) := msgs[i];
        EpochRing.AfterAllConcat(old(seeds), AllLoads(msgs[..i]), LoadsOf(m, garbage));
        OneMoreAnnounced(epochOf, msgs[..i + 1]);
        var ok := ProcessMessage(m, garbage);
      }
      assert msgs[..|msgs|] == msgs;
      if EpochRing.EpochFunction(epochOf) && Nondecreasing(Announced(msgs)) && current != null {
        PublishedEpochsAreLoadedIff(epochOf, msgs);
      }
    }
  }

  /** The ids of the seeds a message makes the node ask for, in order. */
  function LoadsOf(msg: Message, garbage: u64): seq<nat> {
    if msg.Job? && Admitted(msg.msg, garbage) && msg.msg.epochs.Some? && 1 <= |msg.msg.epochs.value| <= 2
    then Loads(msg.msg.height.value, msg.msg.epochs.value)
    else []
  }

  function AllLoads(msgs: seq<(Message, u64)>): seq<nat> {
    if msgs == [] then []
    else AllLoads(msgs[..|msgs| - 1]) + LoadsOf(msgs[|msgs| - 1].0, msgs[|msgs| - 1].1)
  }

  /** The last message whose job was put on the list. */
  function LastAdmitted(msgs: seq<(Message, u64)>): Option<JobMessage> {
    if msgs == [] then None
    else
      var (m, garbage) := msgs[|msgs| - 1];
      if m.Job? && Admitted(m.msg, garbage) then Some(m.msg) else LastAdmitted(msgs[..|msgs| - 1])
  }

  /** The job of the last message that is complete. */
  function LastPublished(msgs: seq<(Message, u64)>): Option<JobMessage> {
    if msgs == [] then None
    else
      var (m, garbage) := msgs[|msgs| - 1];
      if m.Job? && Admitted(m.msg, garbage) && Complete(m.msg) then Some(m.msg)
      else LastPublished(msgs[..|msgs| - 1])
  }

  function SeedsAfter(r: EpochRing.Ring, m: JobMessage): EpochRing.Ring
    requires r.WellFormed() && m.height.Some?
  {
    if m.epochs.Some? && 1 <= |m.epochs.value| <= 2
    then EpochRing.AfterAll(r, Loads(m.height.value, m.epochs.value))
    else r
  }

  /** The block a message makes the node announce to the ProgPow pool, as soon as its epochs are in order. */
  function Announcement(msg: Message, garbage: u64): Option<nat> {
    if msg.Job? && Admitted(msg.msg, garbage) && Announces(msg.msg) then Some(msg.msg.height.value) else None
  }

  function Announced(msgs: seq<(Message, u64)>): seq<nat> {
    if msgs == [] then []
    else
      var block := Announcement(msgs[|msgs| - 1].0, msgs[|msgs| - 1].1);
      Announced(msgs[..|msgs| - 1]) + if block.Some? then [block.value] else []
  }

  lemma OneMoreAnnounced(epochOf: nat -> nat, msgs: seq<(Message, u64)>)
    requires msgs != []
    ensures var before, block := msgs[..|msgs| - 1], Announcement(msgs[|msgs| - 1].0, msgs[|msgs| - 1].1);
      EpochRing.Notified(epochOf, Announced(msgs)) ==
      if block.None? then EpochRing.Notified(epochOf, Announced(before))
      else EpochRing.AfterBlock(epochOf, EpochRing.Notified(epochOf, Announced(before)), block.value)
  {
    var before, block := Announced(msgs[..|msgs| - 1]), Announcement(msgs[|msgs| - 1].0, msgs[|msgs| - 1].1);
    if block.Some? {
      assert (before + [block.value])[..|before|] == before;
    } else {
      assert before + [] == before;
    }
  }

  /** The published job's block was announced. */
  lemma {:induction false} PublishedIsAnnounced(msgs: seq<(Message, u64)>)
    ensures LastPublished(msgs).Some? ==>
      LastPublished(msgs).value.height.Some? && LastPublished(msgs).value.height.value in Announced(msgs)
  {
    if msgs != [] {
      PublishedIsAnnounced(msgs[..|msgs| - 1]);
      var (m, garbage) := msgs[|msgs| - 1];
      if m.Job? && Admitted(m.msg, garbage) && Complete(m.msg) {
        EpochSeedsIff(m.msg.height.value, m.msg.epochs.value, NO_SEEDS);
      }
    }
  }

  /** The ProgPow pool is loaded for the published job and the next block exactly if no epoch announced lies
      strictly between the job's and the newest. */
  lemma PublishedEpochsAreLoadedIff(epochOf: nat -> nat, msgs: seq<(Message, u64)>)
    requires EpochRing.EpochFunction(epochOf) && Nondecreasing(Announced(msgs)) && LastPublished(msgs).Some?
    ensures var r, m := EpochRing.Notified(epochOf, Announced(msgs)), LastPublished(msgs).value;
      && m.height.Some? && Announced(msgs) != []
      && ((epochOf(m.height.value) in r.loaded && epochOf(m.height.value + 1) in r.loaded)
          <==> EpochRing.StillNewest(epochOf, Announced(msgs), m.height.value))
      && (epochOf(m.height.value) == epochOf(Announced(msgs)[|Announced(msgs)| - 1]) ==>
            epochOf(m.height.value) in r.loaded && epochOf(m.height.value + 1) in r.loaded)
  {
    PublishedIsAnnounced(msgs);
    var c := LastPublished(msgs).value.height.value;
    if epochOf(c) == epochOf(Announced(msgs)[|Announced(msgs)| - 1]) {
      EpochRing.SameEpochIsStillNewest(epochOf, Announced(msgs), c);
    }
    EpochRing.BothStayLoadedIff(epochOf, Announced(msgs), LastPublished(msgs).value.height.value);
  }
}
