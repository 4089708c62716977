/** A miner's session: the work it is sent, the shares it submits, and what is hashed for them.

    What a submit is judged by is stated in terms of the notice the miner was sent, not of the fields the
    session keeps, which every submit for RandomX changes in place. */
module Session {
  import opened Base
  import opened Vector32
  import opened HexCodec
  import opened NodeJobs
  import Difficulty

  /** A job as it is sent: texts, as the miner reads them. */
  datatype Notice = Notice(
    blob: string, jobId: string, target: string, powType: PowType, seed: string, height: u32)

  /** What is pushed to a hash pool. */
  datatype HashJob =
    | RxJob(data: seq<byte>, datasetId: nat)
    | PpJob(data: seq<byte>, blockNumber: nat, nonce: u64)

  /** The members of a submit; `None` where one is missing or not a string. */
  datatype Submission = Submission(jobId: Option<string>, nonce: Option<string>, result: Option<string>)

  /** What is sent to the node when a share makes a block. */
  datatype Block = Block(height: u32, jobId: u32, nonce: u64, hash: v32)

  datatype Verdict =
    | MalformedSubmit
    | InvalidJobId
    | InvalidNonce
    | InvalidResult
    | StaleJobId
    | ServerError
    | BadShare
    | Accepted(block: Option<Block>)

  function IdText(id: u32): string {
    ToHex(Word(id))
  }

  /** A notice whose texts decode to a blob with room for a nonce and to a seed. */
  predicate Readable(n: Notice) {
    && FromHex(n.blob).Some? && |FromHex(n.blob).value| >= NONCE_SIZE
    && FromHex(n.seed).Some? && |FromHex(n.seed).value| == 32
  }

  function BlobOf(n: Notice): (b: seq<byte>)
    requires Readable(n)
    ensures |b| >= NONCE_SIZE
  {
    FromHex(n.blob).value
  }

  function SeedOf(n: Notice): v32
    requires Readable(n)
  {
    FromHex(n.seed).value
  }

  /** The blob with its final four bytes replaced by the nonce a miner found. */
  function WithNonce(blob: seq<byte>, nonce: seq<byte>): (b: seq<byte>)
    requires |blob| >= NONCE_SIZE && |nonce| == 4
    ensures |b| == |blob|
  {
    blob[..|blob| - 4] + nonce
  }

  /** The work a notice and a nonce stand for; none for a kind of work there is no pool for. */
  function WorkOf(n: Notice, nonce: seq<byte>): Option<HashJob>
    requires Readable(n) && |nonce| == 4
  {
    var blob := BlobOf(n);
    match n.powType
    case RandomX => Some(RxJob(WithNonce(blob, nonce), GetId(SeedOf(n))))
    case ProgPow =>
      var total := nonce + blob[|blob| - 8..|blob| - 4];
      LittleEndianBound(total);
      Widths(|total|);
      Some(PpJob(blob[..|blob| - 8], n.height, LittleEndian(total)))
    case Cuckoo => None
  }

  /** The nonce the node is told: the last eight bytes of the blob with the miner's nonce, read big-endian. */
  function FullNonce(n: Notice, nonce: seq<byte>): u64
    requires Readable(n) && |nonce| == 4
  {
    var last := WithNonce(BlobOf(n), nonce)[|BlobOf(n)| - 8..];
    BigEndianBound(last);
    Widths(|last|);
    BigEndian(last)
  }

  predicate WellFormed(s: Submission) {
    && s.jobId.Some? && s.nonce.Some? && s.result.Some?
    && |s.jobId.value| == 8 && |s.nonce.value| == 8 && |s.result.value| == 64
  }

  predicate Decodable(s: Submission)
    requires WellFormed(s)
  {
    AllHex(s.jobId.value) && AllHex(s.nonce.value) && AllHex(s.result.value[48..])
  }

  /** What is wrong with the members of a submit, if anything. */
  function Fault(s: Submission): (fault: Option<Verdict>)
    ensures fault.None? <==> WellFormed(s) && Decodable(s)
  {
    if !WellFormed(s) then Some(MalformedSubmit)
    else if !AllHex(s.jobId.value) then Some(InvalidJobId)
    else if !AllHex(s.nonce.value) then Some(InvalidNonce)
    else if !AllHex(s.result.value[48..]) then Some(InvalidResult)
    else None
  }

  function NonceOf(s: Submission): (nonce: seq<byte>)
    requires WellFormed(s) && Decodable(s)
    ensures |nonce| == 4
  {
    DecodesExactly(s.nonce.value);
    FromHex(s.nonce.value).value
  }

  /** Why a submit is refused without looking at its share: it is malformed, or not for the job sent last. */
  function Refusal(n: Notice, s: Submission): (refusal: Option<Verdict>)
    ensures refusal.None? ==> WellFormed(s) && Decodable(s)
  {
    if Fault(s).Some? then Fault(s)
    else if LowerCase(s.jobId.value) != n.jobId then Some(StaleJobId)
    else None
  }

  /** What is asked of a pool for a submit: the work of the notice with its nonce, unless it is refused. */
  function Asked(n: Notice, s: Submission): seq<HashJob>
    requires Readable(n)
  {
    if Refusal(n, s).Some? then [] else AskedFor(n, NonceOf(s))
  }

  function AskedFor(n: Notice, nonce: seq<byte>): seq<HashJob>
    requires Readable(n) && |nonce| == 4
  {
    var work := WorkOf(n, nonce);
    if work.Some? then [work.value] else []
  }

  /** A hash, read big-endian, is bad if its leading 32 bits exceed the target; its leading 64 make a block if
      they divide the greatest such number more than 4096 times. */
  predicate IsFair(n: Notice, nodeJobId: u32, nonce: seq<byte>, h: v32, v: Verdict)
    requires Readable(n) && |nonce| == 4
  {
    var blob := WithNonce(BlobOf(n), nonce);
    if BigEndian(h[..4]) > 0xF_FFFF then v == BadShare
    else
      && v.Accepted?
      && (v.block.Some? <==> MakesBlock(BigEndian(h[..8])))
      && (v.block.Some? ==>
            && v.block.value.height == n.height && v.block.value.jobId == nodeJobId
            && v.block.value.nonce == BigEndian(blob[|blob| - 8..]) && v.block.value.hash == h)
  }

  predicate MakesBlock(work: nat) {
    work == 0 || 0xFFFF_FFFF_FFFF_FFFF / work > 4096
  }

  /** What a submit is answered, given the notice last sent, the node's id of its job, and what the pool
      answers: a hash, right or wrong, or nothing. */
  predicate IsAnswer(n: Notice, nodeJobId: u32, answer: Option<v32>, s: Submission, v: Verdict)
    requires Readable(n)
  {
    if s.jobId.None? || s.nonce.None? || s.result.None?
       || |s.jobId.value| != 8 || |s.nonce.value| != 8 || |s.result.value| != 64 then v == MalformedSubmit
    else if !AllHex(s.jobId.value) then v == InvalidJobId
    else if !AllHex(s.nonce.value) then v == InvalidNonce
    else if !AllHex(s.result.value[48..]) then v == InvalidResult
    else if LowerCase(s.jobId.value) != n.jobId then v == StaleJobId
    else IsShareAnswer(n, nodeJobId, answer, NonceOf(s), v)
  }

  predicate IsShareAnswer(n: Notice, nodeJobId: u32, answer: Option<v32>, nonce: seq<byte>, v: Verdict)
    requires Readable(n) && |nonce| == 4
  {
    if n.powType.Cuckoo? || answer.None? then v == ServerError else IsFair(n, nodeJobId, nonce, answer.value, v)
  }

  /** What is hashed: for RandomX the whole blob with the nonce in its last four bytes, over the seed's id; for
      ProgPow the blob without its last eight, with the extra nonce of the blob above the miner's. */
  lemma WorkIs(n: Notice, nonce: seq<byte>)
    requires Readable(n) && |nonce| == 4
    ensures var blob := BlobOf(n);
      var k := |blob|;
      match WorkOf(n, nonce)
      case Some(RxJob(data, id)) => n.powType.RandomX? && id == GetId(SeedOf(n)) && data == blob[..k - 4] + nonce
      case Some(PpJob(data, number, total)) =>
        && n.powType.ProgPow? && number == n.height && data == blob[..k - 8]
        && total == LittleEndian(blob[k - 8..k - 4]) * 0x1_0000_0000 + LittleEndian(nonce)
      case None => n.powType.Cuckoo?
  {
    TotalNonce(nonce, BlobOf(n)[|BlobOf(n)| - 8..|BlobOf(n)| - 4]);
  }

  // ---------------------------------------------------------------- numbers and texts

  /** The number a client's job id text is read as is `id` exactly if it is the text `id` is sent as. */
  lemma IdReadBack(text: string, id: u32)
    requires FromHex(text).Some? && |text| == 8
    ensures LittleEndian(FromHex(text).value) == id <==> LowerCase(text) == IdText(id)
  {
    var b := FromHex(text).value;
    DecodesExactly(text);
    SameBytesIff(text, Word(id));
    WordOfBytes(b);
    WordValue(id);
  }

  lemma SentIdIsLower(id: u32)
    ensures LowerCase(IdText(id)) == IdText(id)
    ensures FromHex(IdText(id)).Some? && |IdText(id)| == 8
  {
    DecodeEncoded(Word(id));
    EncodeDecoded(IdText(id));
    ToHexConcat(Word(id), []);
  }

  lemma IdTextsDiffer(a: u32, b: u32)
    requires IdText(a) == IdText(b)
    ensures a == b
  {
    SentIdIsLower(a);
    IdReadBack(IdText(a), a);
    IdReadBack(IdText(a), b);
  }

  /** ProgPow's nonce: the extra nonce above the miner's. */
  lemma TotalNonce(nonce: seq<byte>, extra: seq<byte>)
    requires |nonce| == |extra| == 4
    ensures LittleEndian(nonce) < TWO32 && LittleEndian(extra) < TWO32
    ensures LittleEndian(nonce + extra) == LittleEndian(extra) * TWO32 + LittleEndian(nonce)
  {
    LittleEndianBound(nonce);
    LittleEndianBound(extra);
    Widths(|nonce|);
    LittleEndianAppend(nonce, extra);
  }

  /** The node's nonce: byte-swapping the miner's nonce above the extra nonce. */
  lemma SwappedNonce(nonce: seq<byte>, extra: seq<byte>)
    requires |nonce| == |extra| == 4
    ensures ByteSwap(LittleEndian(nonce) * TWO32 + LittleEndian(extra), 8) == BigEndian(extra + nonce)
  {
    TotalNonce(extra, nonce);
    SwappedLoad(extra + nonce);
  }

  lemma SameRemainder(a: nat, b: nat)
    requires a < b && a % TWO32 == b % TWO32
    ensures b >= a + TWO32
  {
    var q := b / TWO32 - a / TWO32;
    assert b - a == TWO32 * q;
  }

  lemma NextId(first: nat, k: nat)
    ensures ((first + k) % TWO32 + 1) % TWO32 == (first + k + 1) % TWO32
  {
  }

  lemma BlobText(work: seq<byte>, extra: seq<byte>)
    ensures ToHex(work + extra + [0, 0, 0, 0]) == ToHex(work) + ToHex(extra) + "00000000"
  {
    var zeros: seq<byte> := [0, 0, 0, 0];
    ToHexConcat(work + extra, zeros);
    ToHexConcat(work, extra);
    ZeroText(zeros);
  }

  lemma {:induction false} ZeroText(zeros: seq<byte>)
    requires zeros == [0, 0, 0, 0]
    ensures ToHex(zeros) == "00000000"
  {
    var b: seq<byte> := [0];
    ToHexConcat(b + b, b + b);
    ToHexConcat(b, b);
    assert b[1..] == [];
    assert ToHex(b) == "00";
    assert zeros == (b + b) + (b + b);
  }

  method HexOf(b: seq<byte>) returns (text: string)
    ensures text == ToHex(b) && FromHex(text) == Some(b)
  {
    var buffer := new char[2 * |b| + 1];
    BinToHex(b, buffer);
    ToHexConcat(b, []);
    DecodeEncoded(b);
    assert buffer[..2 * |b|] == buffer[..2 * |b| + 1][..2 * |b|];
    return buffer[..2 * |b|];
  }

  /** The 32-bit test. */
  method IsGoodShare(h: v32) returns (good: bool)
    ensures good <==> BigEndian(h[..4]) <= 0xF_FFFF
    ensures good <==> Difficulty.WorkToDiff(GetWork64(h)) >= 4096
  {
    WorkIsBigEndian(h);
    Difficulty.FixedDifficultyIsExact(h);
    good := GetWork32(h) <= Difficulty.DiffToTarget(Difficulty.FIX_DIFF);
  }

  /** Four bytes in memory read as a number. */
  method LoadWord(b: seq<byte>) returns (x: u32)
    requires |b| == 4
    ensures x == LittleEndian(b)
  {
    WordOfBytes(b);
    x := LittleEndian(b);
  }

  method WorkDifficulty(h: v32) returns (diff: nat)
    ensures diff > 4096 <==> MakesBlock(BigEndian(h[..8]))
  {
    WorkIsBigEndian(h);
    diff := Difficulty.WorkToDiff(GetWork64(h));
  }

  method SwapNonces(nonce: u32, extra: u32, ghost n: Notice, ghost c: Copy, ghost b: seq<byte>) returns (full: u64)
    requires Serves(n, c) && |b| == 4 && nonce == LittleEndian(b) && extra == c.extra
    ensures full == FullNonce(n, b)
  {
    FullNonceIs(n, c, b);
    full := ByteSwap(nonce * TWO32 + extra, 8);
  }

  /** Reads a text of known length. */
  method ReadHex(text: string, n: nat) returns (b: Option<seq<byte>>)
    requires |text| == 2 * n
    ensures b.Some? <==> AllHex(text)
    ensures b.Some? ==> FromHex(text) == b && |b.value| == n
  {
    DecodesExactly(text);
    assert |text| / 2 == n && (|text| + 1) / 2 == n;
    var buffer := new byte[n];
    var ok := HexToBin(text, buffer);
    b := if ok then Some(buffer[..n]) else None;
  }

  /** The job id and the nonce of a submit; the claimed work is read, and not used. */
  method ReadSubmission(s: Submission) returns (fault: Option<Verdict>, id: seq<byte>, nonce: seq<byte>)
    ensures fault == Fault(s)
    ensures fault.None? ==>
      FromHex(s.jobId.value) == Some(id) && |id| == 4 && FromHex(s.nonce.value) == Some(nonce) && |nonce| == 4
  {
    if s.jobId.None? || s.nonce.None? || s.result.None? ||
       |s.jobId.value| != 8 || |s.nonce.value| != 8 || |s.result.value| != 64
    {
      return Some(MalformedSubmit), [], [];
    }
    var i := ReadHex(s.jobId.value, 4);
    if i.None? {
      return Some(InvalidJobId), [], [];
    }
    var n := ReadHex(s.nonce.value, 4);
    if n.None? {
      return Some(InvalidNonce), [], [];
    }
    var claim := ReadHex(s.result.value[48..], 8);
    if claim.None? {
      return Some(InvalidResult), [], [];
    }
    return None, i.value, n.value;
  }

  /** The stale check. */
  method CheckJobId(s: Submission, jobid: u32, ghost n: Notice) returns (refusal: Option<Verdict>, nonce: seq<byte>)
    requires n.jobId == IdText(jobid)
    ensures refusal == Refusal(n, s)
    ensures refusal.None? ==> nonce == NonceOf(s)
  {
    var fault, id;
    fault, id, nonce := ReadSubmission(s);
    if fault.Some? {
      return fault, nonce;
    }
    IdReadBack(s.jobId.value, jobid);
    var netJobId := LoadWord(id);
    refusal := if netJobId != jobid then Some(StaleJobId) else None;
  }

  // ---------------------------------------------------------------- what the session keeps

  /** The session's copy of a job, as a value. */
  datatype Copy = Copy(powType: PowType, height: u32, blob: seq<byte>, seed: v32, id: u32, extra: u32)

  /** The copy agrees with what was sent, but for the nonce of a share hashed since. */
  ghost predicate Serves(n: Notice, c: Copy) {
    && Readable(n) && |BlobOf(n)| == |c.blob|
    && c.blob[..|c.blob| - 4] == BlobOf(n)[..|c.blob| - 4]
    && c.blob[|c.blob| - 8..|c.blob| - 4] == Word(c.extra)
    && n.jobId == IdText(c.id)
    && n.powType == c.powType && n.height == c.height && SeedOf(n) == c.seed
  }

  /** The jobs sent carry these ids, and the ids count up. */
  ghost predicate Numbered(notices: seq<Notice>, ids: seq<u32>) {
    && |notices| == |ids|
    && (forall k :: 0 <= k < |ids| ==> notices[k].jobId == IdText(ids[k]))
    && CountUp(ids)
  }

  ghost predicate CountUp(ids: seq<u32>) {
    forall k :: 0 < k < |ids| ==> ids[k] == Succ(ids[k - 1])
  }

  function Succ(id: u32): u32 {
    (id + 1) % TWO32
  }

  function NoticeOf(c: Copy): Notice {
    Notice.Notice(ToHex(c.blob), IdText(c.id), ToHex(Word(Difficulty.DiffToTarget(Difficulty.FIX_DIFF))),
                  c.powType, ToHex(c.seed), c.height)
  }

  /** What is sent of a job: its text in lower case, then the extra nonce and room for the miner's; its kind,
      seed and height; and the target of difficulty 4096. */
  ghost predicate Sent(n: Notice, c: Copy, text: string) {
    && Serves(n, c)
    && n.blob == LowerCase(text) + ToHex(Word(c.extra)) + "00000000"
    && n.seed == ToHex(c.seed) && n.target == "ffff0f00"
  }

  /** A blob with the four bytes `back` from its end replaced. */
  function Patched(blob: seq<byte>, back: nat, b: seq<byte>): (r: seq<byte>)
    requires 4 <= back <= |blob| && |b| == 4
    ensures |r| == |blob|
  {
    blob[..|blob| - back] + b + blob[|blob| - back + 4..]
  }

  /** Work a text stands for: with the extra nonce in place, it is sent as that text in lower case, the extra
      nonce, and room for the miner's. */
  ghost predicate IsWork(work: seq<byte>, text: string) {
    && NONCE_SIZE <= |work| <= PREPOW_SIZE
    && forall extra: seq<byte> {:trigger Patched(work, 8, extra)} ::
         |extra| == 4 ==> ToHex(Patched(work, 8, extra)) == LowerCase(text) + ToHex(extra) + "00000000"
  }

  /** The job holds the work of this text. */
  ghost predicate Usable(job: JobData, text: string)
    reads job, job.prepow
  {
    job.prepowLen <= job.prepow.Length == PREPOW_SIZE && IsWork(job.prepow[..job.prepowLen], text)
  }

  /** Every job the node publishes holds the work of its message. */
  lemma PublishedIsUsable(node: Node)
    requires node.Valid() && node.current != null
    ensures node.current.origin.prepow.Some? && Usable(node.current, node.current.origin.prepow.value)
  {
    FilledIsUsable(node.current);
  }

  lemma FilledIsUsable(job: JobData)
    requires job.Filled()
    ensures job.origin.prepow.Some? && Usable(job, job.origin.prepow.value)
  {
    DecodedWork(job);
    DecodedIsWork(job.prepow[..job.prepowLen], job.origin.prepow.value);
  }

  lemma DecodedWork(job: JobData)
    requires job.Filled()
    ensures NONCE_SIZE <= job.prepowLen <= PREPOW_SIZE == job.prepow.Length && job.origin.prepow.Some?
    ensures var work := job.prepow[..job.prepowLen];
      ToHex(work[..|work| - 8]) == LowerCase(job.origin.prepow.value) && work[|work| - 4..] == [0, 0, 0, 0]
  {
    var work, n := job.prepow[..job.prepowLen], job.prepowLen;
    job.FilledMeans();
    assert work[..n - 8] == job.prepow[..n - 8];
    assert work[n - 4..] == job.prepow[n - 8..n][4..];
  }

  lemma DecodedIsWork(work: seq<byte>, text: string)
    requires NONCE_SIZE <= |work| <= PREPOW_SIZE
    requires ToHex(work[..|work| - 8]) == LowerCase(text) && work[|work| - 4..] == [0, 0, 0, 0]
    ensures IsWork(work, text)
  {
    forall extra: seq<byte> | |extra| == 4
      ensures ToHex(Patched(work, 8, extra)) == LowerCase(text) + ToHex(extra) + "00000000"
    {
      WhatIsSent(work, text, extra);
    }
  }

  lemma WhatIsSent(work: seq<byte>, text: string, extra: seq<byte>)
    requires |work| >= 8 && ToHex(work[..|work| - 8]) == LowerCase(text) && work[|work| - 4..] == [0, 0, 0, 0]
    requires |extra| == 4
    ensures ToHex(Patched(work, 8, extra)) == LowerCase(text) + ToHex(extra) + "00000000"
  {
    BlobText(work[..|work| - 8], extra);
  }

  lemma NoticeServes(c: Copy)
    requires |c.blob| >= NONCE_SIZE && c.blob[|c.blob| - 8..|c.blob| - 4] == Word(c.extra)
    ensures Serves(NoticeOf(c), c)
  {
    DecodeEncoded(c.blob);
    DecodeEncoded(c.seed);
  }

  lemma PatchedIsSent(work: seq<byte>, c: Copy, text: string)
    requires IsWork(work, text) && c.blob == Patched(work, 8, Word(c.extra))
    ensures Sent(NoticeOf(c), c, text)
  {
    assert c.blob[|work| - 8..|work| - 4] == Word(c.extra);
    NoticeServes(c);
    TargetText();
  }

  lemma TargetText()
    ensures ToHex(Word(Difficulty.DiffToTarget(Difficulty.FIX_DIFF))) == "ffff0f00"
  {
    var b := Word(Difficulty.DiffToTarget(Difficulty.FIX_DIFF));
    assert b == [0xFF, 0xFF, 0x0F, 0x00];
    EncodedText(b, ToHex(b));
    assert IsLowerPair(ToHex(b), 0, b[0]) && IsLowerPair(ToHex(b), 1, b[1]);
    assert IsLowerPair(ToHex(b), 2, b[2]) && IsLowerPair(ToHex(b), 3, b[3]);
  }

  /** The last eight bytes of a blob served, with a nonce in place. */
  lemma LastBytes(n: Notice, c: Copy, nonce: seq<byte>)
    requires Serves(n, c) && |nonce| == 4
    ensures var extra := c.blob[|c.blob| - 8..|c.blob| - 4];
      && BlobOf(n)[|c.blob| - 8..|c.blob| - 4] == extra
      && WithNonce(BlobOf(n), nonce)[|c.blob| - 8..] == extra + nonce
  {
    var k := |c.blob|;
    var kept := c.blob[..k - 4];
    assert kept[k - 8..] == c.blob[k - 8..k - 4];
    assert BlobOf(n)[..k - 4][k - 8..] == BlobOf(n)[k - 8..k - 4];
    assert WithNonce(BlobOf(n), nonce) == kept + nonce;
  }

  lemma FullNonceIs(n: Notice, c: Copy, nonce: seq<byte>)
    requires Serves(n, c) && |nonce| == 4
    ensures ByteSwap(LittleEndian(nonce) * TWO32 + c.extra, 8) == FullNonce(n, nonce)
  {
    LastBytes(n, c, nonce);
    SwappedNonce(nonce, Word(c.extra));
    WordValue(c.extra);
  }

  lemma ProgPowWork(n: Notice, c: Copy, nonce: seq<byte>)
    requires Serves(n, c) && |nonce| == 4 && c.powType == ProgPow
    ensures LittleEndian(nonce) < TWO32
    ensures WorkOf(n, nonce) ==
      Some(PpJob(c.blob[..|c.blob| - 8], c.height, c.extra * TWO32 + LittleEndian(nonce)))
  {
    LastBytes(n, c, nonce);
    TotalNonce(nonce, Word(c.extra));
    WordValue(c.extra);
    var k := |c.blob|;
    assert c.blob[..k - 8] == c.blob[..k - 4][..k - 8];
    assert BlobOf(n)[..k - 8] == BlobOf(n)[..k - 4][..k - 8];
  }

  /** Patching the nonce in gives the blob to hash, and does not disturb what is served. */
  lemma RandomXWork(n: Notice, c: Copy, nonce: seq<byte>)
    requires Serves(n, c) && |nonce| == 4 && c.powType == RandomX
    ensures var blob := Patched(c.blob, 4, nonce);
      WorkOf(n, nonce) == Some(RxJob(blob, GetId(c.seed))) && Serves(n, c.(blob := blob))
  {
    var k, blob := |c.blob|, Patched(c.blob, 4, nonce);
    assert blob == c.blob[..k - 4] + nonce;
    assert blob[..k - 4] == c.blob[..k - 4];
    assert blob[k - 8..k - 4] == blob[..k - 4][k - 8..] == c.blob[k - 8..k - 4];
  }

  // ---------------------------------------------------------------- the session

  class Client {
    // the copy of the node's job
    var powType: PowType
    var height: u32
    var nodeJobId: u32
    const prepow: array<byte>
    var prepowLen: nat
    var rxSeed: v32

    var jobid: u32
    const extraNonce: u32
    var loggedIn: bool
    var aborting: bool

    /** The jobs sent so far, and their ids. */
    var notices: seq<Notice>
    ghost var ids: seq<u32>

    /** The copy, as a value. */
    ghost var kept: Copy

    /** What was asked of the pools. */
    ghost var pushed: seq<HashJob>

    ghost predicate InStep()
      reads this, prepow
    {
      && NONCE_SIZE <= prepowLen <= prepow.Length == PREPOW_SIZE
      && kept.blob == prepow[..prepowLen] && kept.powType == powType && kept.height == height
      && kept.seed == rxSeed && kept.id == jobid && kept.extra == extraNonce
    }

    /** It does so for the notice sent last. */
    ghost predicate Serving()
      reads this, prepow
    {
      notices != [] && InStep() && Serves(notices[|notices| - 1], kept)
    }

    ghost predicate Valid()
      reads this, prepow
    {
      && prepow.Length == PREPOW_SIZE
      && (loggedIn <==> notices != [])
      && (loggedIn ==> Serving())
      && Numbered(notices, ids)
      && (loggedIn ==> jobid == ids[|ids| - 1])
    }

    constructor (extraNonce: u32)
      ensures Valid() && fresh(prepow) && !loggedIn && !aborting && jobid == 0 && notices == []
      ensures this.extraNonce == extraNonce && pushed == []
    {
      this.extraNonce, pushed := extraNonce, [];
      prepow := new byte[PREPOW_SIZE];
      powType, height, nodeJobId, prepowLen, rxSeed := RandomX, 0, 0, 0, ZERO;
      jobid, loggedIn, aborting, notices, ids := 0, false, false, [], [];
    }

    /** The structure is copied whole. */
    method GetNewJob(job: JobData)
      requires job.prepow.Length == prepow.Length == PREPOW_SIZE && job.prepow != prepow
      requires NONCE_SIZE <= job.prepowLen <= PREPOW_SIZE
      modifies this`powType, this`height, this`nodeJobId, this`prepowLen, this`rxSeed, this`jobid, this`kept, prepow
      ensures InStep() && nodeJobId == job.jobId && jobid == Succ(old(jobid))
      ensures kept == Copy(job.powType, job.height, job.prepow[..job.prepowLen], job.rxSeed, jobid, extraNonce)
    {
      powType, height, nodeJobId, rxSeed := job.powType, job.height, job.jobId, job.rxSeed;
      prepowLen := job.prepowLen;
      forall i | 0 <= i < PREPOW_SIZE {
        prepow[i] := job.prepow[i];
      }
      jobid := Succ(jobid);
      kept := Copy(powType, height, prepow[..prepowLen], rxSeed, jobid, extraNonce);
    }

    /** `memcpy` of a 32-bit number over the four bytes `back` from the end. */
    method Patch(back: nat, x: u32, ghost b: seq<byte>)
      requires InStep() && 4 <= back <= prepowLen && b == Word(x)
      modifies prepow, this`kept
      ensures InStep()
      ensures kept == old(kept).(blob := Patched(old(kept).blob, back, b))
    {
      var bytes := Word(x);
      var at := prepowLen - back;
      forall i | 0 <= i < 4 {
        prepow[at + i] := bytes[i];
      }
      kept := kept.(blob := prepow[..prepowLen]);
      assert kept.blob == Patched(old(kept).blob, back, b);
    }

    /** A write that fails or falls short ends the connection. */
    method NetSend()
      modifies this`aborting
      ensures old(aborting) ==> aborting
    {
      var written: bool :| true;
      if !written {
        aborting := true;
      }
    }

    /** Puts the extra nonce into a job just copied, and sends it. */
    method SendJob(ghost text: string)
      requires InStep() && IsWork(kept.blob, text)
      modifies this`notices, this`aborting, this`kept, prepow
      ensures InStep() && kept == old(kept).(blob := kept.blob)
      ensures |notices| == |old(notices)| + 1 && notices[..|old(notices)|] == old(notices)
      ensures Sent(notices[|old(notices)|], kept, text)
      ensures old(aborting) ==> aborting
    {
      ghost var work := kept.blob;
      Patch(8, extraNonce, Word(extraNonce));
      PatchedIsSent(work, kept, text);
      var n := MakeNotice();
      notices := notices + [n];
      NetSend();
    }

    /** The same for a session that was sent none. */
    method SendFirst(ghost text: string)
      requires InStep() && IsWork(kept.blob, text) && notices == []
      modifies this`notices, this`aborting, this`kept, this`ids, prepow
      ensures InStep() && kept == old(kept).(blob := kept.blob)
      ensures |notices| == 1 && Sent(notices[0], kept, text)
      ensures Numbered(notices, ids) && jobid == ids[|ids| - 1]
      ensures old(aborting) ==> aborting
    {
      SendJob(text);
      ids := [jobid];
    }

    /** The same for a session that was sent a job before. */
    method SendNext(ghost text: string)
      requires InStep() && IsWork(kept.blob, text)
      requires notices != [] && Numbered(notices, ids) && jobid == Succ(ids[|ids| - 1])
      modifies this`notices, this`aborting, this`kept, this`ids, prepow
      ensures Serving() && kept == old(kept).(blob := kept.blob)
      ensures |notices| == |old(notices)| + 1 && notices[..|old(notices)|] == old(notices)
      ensures Sent(notices[|old(notices)|], kept, text)
      ensures Numbered(notices, ids) && jobid == ids[|ids| - 1]
      ensures old(aborting) ==> aborting
    {
      SendJob(text);
      ids := ids + [jobid];
      NumberedMore(old(notices), notices, old(ids), jobid);
    }

    /** The texts to send. */
    method MakeNotice() returns (n: Notice)
      requires InStep()
      ensures n == NoticeOf(kept)
    {
      var blob := HexOf(prepow[..prepowLen]);
      var id := HexOf(Word(jobid));
      var target := HexOf(Word(Difficulty.DiffToTarget(Difficulty.FIX_DIFF)));
      var seed := HexOf(rxSeed);
      return Notice.Notice(blob, id, target, powType, seed, height);
    }

    /** Sends an answer. */
    method Reply()
      requires Valid()
      modifies this`aborting
      ensures Valid()
    {
      NetSend();
    }

    /** A first login is answered with a job; a second is refused, and nothing changes. */
    method Login(job: JobData, ghost text: string) returns (ok: bool)
      requires Valid() && job.prepow != prepow && Usable(job, text)
      modifies this, prepow
      ensures Valid() && loggedIn && ok == !old(loggedIn)
      ensures !ok ==> notices == old(notices) && jobid == old(jobid) && prepow[..] == old(prepow[..])
      ensures ok ==> |notices| == 1 && Sent(notices[0], kept, text)
      ensures ok ==> kept == Copy(job.powType, job.height, kept.blob, job.rxSeed, Succ(old(jobid)), extraNonce)
      ensures ok ==> jobid == kept.id && nodeJobId == job.jobId
    {
      if loggedIn {
        Reply();
        return false;
      }
      ghost var work := job.prepow[..job.prepowLen];
      GetNewJob(job);
      assert kept.blob == work && IsWork(work, text);
      SendFirst(text);
      loggedIn := true;
      return true;
    }

    /** Sends a job just copied, if the session is logged in. */
    method Announce(ghost text: string)
      requires InStep() && IsWork(kept.blob, text) && (loggedIn <==> notices != []) && Numbered(notices, ids)
      requires loggedIn ==> jobid == Succ(ids[|ids| - 1])
      modifies this`notices, this`aborting, this`kept, this`ids, prepow
      ensures Numbered(notices, ids) && (loggedIn ==> Serving() && jobid == ids[|ids| - 1])
      ensures kept == old(kept).(blob := kept.blob)
      ensures if !loggedIn then notices == old(notices)
        else
          && |notices| == |old(notices)| + 1 && notices[..|old(notices)|] == old(notices)
          && Sent(notices[|old(notices)|], kept, text)
    {
      if !loggedIn {
        return;
      }
      SendNext(text);
    }

    /** A new block replaces the job of every session, and is announced to those logged in. */
    method OnNewBlock(job: JobData, ghost text: string) returns (keep: bool)
      requires Valid() && job.prepow != prepow && Usable(job, text)
      modifies this, prepow
      ensures Valid() && keep == !old(aborting) && loggedIn == old(loggedIn)
      ensures if old(aborting) || !old(loggedIn) then notices == old(notices)
        else
          && |notices| == |old(notices)| + 1 && notices[..|old(notices)|] == old(notices)
          && Sent(notices[|old(notices)|], kept, text)
      ensures !old(aborting) ==>
        kept == Copy(job.powType, job.height, kept.blob, job.rxSeed, Succ(old(jobid)), extraNonce)
      ensures !old(aborting) ==> jobid == kept.id && nodeJobId == job.jobId
      ensures old(aborting) ==> kept == old(kept) && jobid == old(jobid) && nodeJobId == old(nodeJobId)
    {
      if aborting {
        return false;
      }
      GetNewJob(job);
      Announce(text);
      return true;
    }

    /** Pushes the work with a nonce, and waits; `answer` is what the pool makes of it. */
    method CheckClientWork(nonce: u32, ghost b: seq<byte>, answer: Option<v32>) returns (h: Option<v32>)
      requires Serving() && |b| == 4 && nonce == LittleEndian(b)
      modifies prepow, this`kept, this`pushed
      ensures Serving()
      ensures pushed == old(pushed) + AskedFor(notices[|notices| - 1], b)
      ensures h == if WorkOf(notices[|notices| - 1], b).Some? then answer else None
    {
      match powType
      case RandomX =>
        h := CheckRandomX(nonce, b, answer);
      case ProgPow =>
        h := CheckProgPow(nonce, b, answer);
      case Cuckoo =>
        h := None;
    }

    method CheckRandomX(nonce: u32, ghost b: seq<byte>, answer: Option<v32>) returns (h: Option<v32>)
      requires Serving() && powType == RandomX && |b| == 4 && nonce == LittleEndian(b)
      modifies prepow, this`kept, this`pushed
      ensures Serving() && h == answer
      ensures WorkOf(notices[|notices| - 1], b).Some?
      ensures pushed == old(pushed) + [WorkOf(notices[|notices| - 1], b).value]
    {
      ghost var n, c := notices[|notices| - 1], kept;
      RandomXWork(n, c, b);
      WordOfBytes(b);
      Patch(4, nonce, b);
      h := PushJob(RxJob(prepow[..prepowLen], GetId(rxSeed)), answer);
    }

    method CheckProgPow(nonce: u32, ghost b: seq<byte>, answer: Option<v32>) returns (h: Option<v32>)
      requires Serving() && powType == ProgPow && |b| == 4 && nonce == LittleEndian(b)
      modifies this`pushed
      ensures Serving() && h == answer
      ensures WorkOf(notices[|notices| - 1], b).Some?
      ensures pushed == old(pushed) + [WorkOf(notices[|notices| - 1], b).value]
    {
      ghost var n, c := notices[|notices| - 1], kept;
      ProgPowWork(n, c, b);
      assert prepow[..prepowLen - 8] == c.blob[..|c.blob| - 8];
      h := PushJob(PpJob(prepow[..prepowLen - 8], height, extraNonce * TWO32 + nonce), answer);
    }

    /** `push_job`, and the wait for the promise. */
    method PushJob(job: HashJob, answer: Option<v32>) returns (h: Option<v32>)
      modifies this`pushed
      ensures pushed == old(pushed) + [job] && h == answer
    {
      pushed := pushed + [job];
      h := answer;
    }

    /** However many submits went before, the pool is asked for the work of the notice last sent with this
        submit's nonce, once, if the submit is not refused; and what the pool answers decides. */
    method Submit(s: Submission, answer: Option<v32>) returns (v: Verdict)
      requires Valid() && loggedIn
      modifies prepow, this`kept, this`aborting, this`pushed
      ensures Valid()
      ensures pushed == old(pushed) + Asked(notices[|notices| - 1], s)
      ensures IsAnswer(notices[|notices| - 1], nodeJobId, answer, s, v)
    {
      assert Serving();
      ghost var n := notices[|notices| - 1];
      v := Judge(s, answer, n);
      NetSend();
    }

    /** The answer to send. */
    method Judge(s: Submission, answer: Option<v32>, ghost n: Notice) returns (v: Verdict)
      requires Serving() && n == notices[|notices| - 1]
      modifies prepow, this`kept, this`pushed
      ensures Serving()
      ensures pushed == old(pushed) + Asked(n, s)
      ensures IsAnswer(n, nodeJobId, answer, s, v)
    {
      var refusal, nonce := CheckJobId(s, jobid, n);
      if refusal.Some? {
        return refusal.value;
      }
      var x := LoadWord(nonce);
      v := JudgeShare(x, nonce, answer, n);
    }

    /** The rest of a submit for the current job. */
    method JudgeShare(nonce: u32, ghost b: seq<byte>, answer: Option<v32>, ghost n: Notice) returns (v: Verdict)
      requires Serving() && n == notices[|notices| - 1] && |b| == 4 && nonce == LittleEndian(b)
      modifies prepow, this`kept, this`pushed
      ensures Serving()
      ensures pushed == old(pushed) + AskedFor(n, b)
      ensures IsShareAnswer(n, nodeJobId, answer, b, v)
    {
      var h := CheckClientWork(nonce, b, answer);
      v := Answer(nonce, h, n, b, answer);
    }

    /** What to answer to what the pool made of the work. */
    method Answer(nonce: u32, h: Option<v32>, ghost n: Notice, ghost b: seq<byte>, ghost answer: Option<v32>)
      returns (v: Verdict)
      requires Serves(n, kept) && kept.extra == extraNonce && kept.height == height
      requires |b| == 4 && nonce == LittleEndian(b)
      requires h == if WorkOf(n, b).Some? then answer else None
      ensures IsShareAnswer(n, nodeJobId, answer, b, v)
    {
      if h.None? {
        return ServerError;
      }
      v := Reward(nonce, h.value, n, b);
    }

    /** The two tests of a hash. */
    method Reward(nonce: u32, h: v32, ghost n: Notice, ghost b: seq<byte>) returns (v: Verdict)
      requires Serves(n, kept) && kept.extra == extraNonce && kept.height == height
      requires |b| == 4 && nonce == LittleEndian(b)
      ensures IsFair(n, nodeJobId, b, h, v)
    {
      var good := IsGoodShare(h);
      if !good {
        return BadShare;
      }
      var diff := WorkDifficulty(h);
      if diff > 4096 {
        var fullNonce := SwapNonces(nonce, extraNonce, n, kept, b);
        return Accepted(Some(Block(height, nodeJobId, fullNonce, h)));
      }
      return Accepted(None);
    }

    /** Naming any earlier job, less than 2^32 jobs back, is answered as stale, if not refused before; naming
        the last is not. */
    lemma OnlyTheLastJobIsFresh(k: nat, answer: Option<v32>, s: Submission, v: Verdict)
      requires Valid() && k < |notices| && |notices| - k <= TWO32
      requires WellFormed(s) && Decodable(s) && s.jobId.value == notices[k].jobId
      requires IsAnswer(notices[|notices| - 1], nodeJobId, answer, s, v)
      ensures v == StaleJobId <==> k != |notices| - 1
    {
      EarlierIdDiffers(notices, ids, k);
    }
  }

  lemma NumberedMore(before: seq<Notice>, after: seq<Notice>, ids: seq<u32>, id: u32)
    requires Numbered(before, ids) && |after| == |before| + 1 && after[..|before|] == before && before != []
    requires id == Succ(ids[|ids| - 1]) && after[|before|].jobId == IdText(id)
    ensures Numbered(after, ids + [id])
  {
    assert forall k :: 0 <= k < |before| ==> after[k] == after[..|before|][k];
  }

  lemma {:induction false} CountsFromFirst(ids: seq<u32>, k: nat)
    requires CountUp(ids) && k < |ids|
    ensures ids[k] == (ids[0] + k) % TWO32
  {
    if k > 0 {
      CountsFromFirst(ids, k - 1);
      NextId(ids[0], k - 1);
    }
  }

  lemma EarlierIdDiffers(notices: seq<Notice>, ids: seq<u32>, k: nat)
    requires Numbered(notices, ids) && k < |notices| && |notices| - k <= TWO32
    ensures LowerCase(notices[k].jobId) == notices[|notices| - 1].jobId <==> k == |notices| - 1
  {
    var last := |notices| - 1;
    var a, b := ids[k], ids[last];
    SentIdIsLower(a);
    if k != last && IdText(a) == IdText(b) {
      IdTextsDiffer(a, b);
      CountsFromFirst(ids, k);
      CountsFromFirst(ids, last);
      SameRemainder(ids[0] + k, ids[0] + last);
      assert false;
    }
  }
}
