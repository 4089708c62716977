/** Which epochs the two dataset slots of the ProgPow pool are loaded with, over any run of `notify_block`.

    A slot is overwritten in ring order when an epoch is asked for that no slot is loaded with.  The epoch
    of a block is given by a function about which only two things are known: it never decreases with the
    block number, and it is never the value that marks an empty slot. */
module EpochRing {
  import opened Base

  const INVALID_EPOCH: nat := TWO64 - 1

  ghost predicate EpochFunction(epochOf: nat -> nat) {
    && (forall b :: epochOf(b) < INVALID_EPOCH)
    && (forall a, b :: a <= b ==> epochOf(a) <= epochOf(b))
  }

  /** `ctr` is the `size_t` of `fetch_add`, wrapping at 2^64. */
  datatype Ring = Ring(loaded: seq<nat>, ctr: u64) {
    predicate WellFormed() {
      |loaded| == 2
    }

    function Victim(): nat {
      ctr % 2
    }
  }

  const EMPTY := Ring([INVALID_EPOCH, INVALID_EPOCH], 0)

  function AfterEpoch(r: Ring, epoch: nat): Ring
    requires r.WellFormed()
  {
    if epoch in r.loaded then r
    else Ring(r.loaded[r.Victim() := epoch], (r.ctr + 1) % TWO64)
  }

  function AfterBlock(epochOf: nat -> nat, r: Ring, block: nat): Ring
    requires r.WellFormed()
  {
    AfterEpoch(AfterEpoch(r, epochOf(block)), epochOf(block + 1))
  }

  function AfterAll(r: Ring, epochs: seq<nat>): (r': Ring)
    requires r.WellFormed()
    ensures r'.WellFormed()
    decreases |epochs|
  {
    if epochs == [] then r else AfterAll(AfterEpoch(r, epochs[0]), epochs[1..])
  }

  lemma {:induction false} AfterAllConcat(r: Ring, xs: seq<nat>, ys: seq<nat>)
    requires r.WellFormed()
    ensures AfterAll(r, xs + ys) == AfterAll(AfterAll(r, xs), ys)
    decreases |xs|
  {
    if xs == [] {
      assert xs + ys == ys;
    } else {
      assert (xs + ys)[1..] == xs[1..] + ys;
      AfterAllConcat(AfterEpoch(r, xs[0]), xs[1..], ys);
    }
  }

  function Notified(epochOf: nat -> nat, blocks: seq<nat>): (r: Ring)
    ensures r.WellFormed()
  {
    if blocks == [] then EMPTY
    else AfterBlock(epochOf, Notified(epochOf, blocks[..|blocks| - 1]), blocks[|blocks| - 1])
  }

  /** `top` was loaded last: it is not the next to be overwritten, and any other loaded epoch is older. */
  ghost predicate Newest(r: Ring, top: nat) {
    && r.WellFormed()
    && r.loaded[1 - r.Victim()] == top < INVALID_EPOCH
    && (r.loaded[r.Victim()] == INVALID_EPOCH || r.loaded[r.Victim()] < top)
  }

  /** What every `notify_block` of a run with nondecreasing block numbers leaves behind. */
  ghost predicate Holds(epochOf: nat -> nat, r: Ring, block: nat) {
    && Newest(r, epochOf(block + 1))
    && epochOf(block) in r.loaded
  }

  lemma NotifyEpochNewest(r: Ring, top: nat, epoch: nat)
    requires r == EMPTY || (Newest(r, top) && epoch >= top)
    requires epoch < INVALID_EPOCH
    ensures Newest(AfterEpoch(r, epoch), epoch)
    ensures Newest(r, top) ==> AfterEpoch(r, epoch) == r || (epoch > top && top in AfterEpoch(r, epoch).loaded)
  {
    Parity(r.ctr);
  }

  lemma Parity(n: u64)
    ensures ((n + 1) % TWO64) % 2 == 1 - n % 2
  {
    if n + 1 == TWO64 {
      assert (n + 1) % TWO64 == 0;
    }
  }

  lemma NotifyBlockHolds(epochOf: nat -> nat, r: Ring, last: nat, block: nat)
    requires EpochFunction(epochOf)
    requires r == EMPTY || (Holds(epochOf, r, last) && last <= block)
    ensures Holds(epochOf, AfterBlock(epochOf, r, block), block)
  {
    var e, f := epochOf(block), epochOf(block + 1);
    if r != EMPTY && epochOf(last + 1) > e {
      assert last == block;
    } else {
      NotifyEpochNewest(r, epochOf(last + 1), e);
      NotifyEpochNewest(AfterEpoch(r, e), e, f);
    }
  }

  /** After any nonempty run with nondecreasing block numbers the epochs of the last block and of the one
      after it are both loaded, and the two slots never hold the same epoch. */
  lemma {:induction false} RingKeepsCurrentAndNext(epochOf: nat -> nat, blocks: seq<nat>)
    requires EpochFunction(epochOf) && Nondecreasing(blocks) && blocks != []
    ensures Holds(epochOf, Notified(epochOf, blocks), blocks[|blocks| - 1])
    ensures Notified(epochOf, blocks).loaded[0] != Notified(epochOf, blocks).loaded[1]
  {
    var n := |blocks| - 1;
    if n > 0 {
      RingKeepsCurrentAndNext(epochOf, blocks[..n]);
    }
    NotifyBlockHolds(epochOf, Notified(epochOf, blocks[..n]), if n > 0 then blocks[n - 1] else 0, blocks[n]);
  }

  /** The epochs a run of blocks asks for. */
  function Asked(epochOf: nat -> nat, blocks: seq<nat>): set<nat> {
    if blocks == [] then {}
    else
      var n := |blocks| - 1;
      Asked(epochOf, blocks[..n]) + {epochOf(blocks[n]), epochOf(blocks[n] + 1)}
  }

  predicate Asks(epochOf: nat -> nat, block: nat, x: nat) {
    x == epochOf(block) || x == epochOf(block + 1)
  }

  lemma {:induction false} AskedMeans(epochOf: nat -> nat, blocks: seq<nat>, x: nat)
    ensures x in Asked(epochOf, blocks) <==> exists k :: 0 <= k < |blocks| && Asks(epochOf, blocks[k], x)
  {
    if blocks != [] {
      var n := |blocks| - 1;
      AskedMeans(epochOf, blocks[..n], x);
      assert x in Asked(epochOf, blocks) <==> x in Asked(epochOf, blocks[..n]) || Asks(epochOf, blocks[n], x);
      assert forall k :: 0 <= k < n ==> blocks[..n][k] == blocks[k];
    }
  }

  /** The slots hold `top`, the newest epoch asked for, and the newest below it, if there is one. */
  ghost predicate TwoNewest(r: Ring, asked: set<nat>, top: nat) {
    && Newest(r, top) && top in asked
    && (r.loaded[r.Victim()] != INVALID_EPOCH ==> r.loaded[r.Victim()] in asked)
    && (forall x :: x in asked && x != top ==>
          x < top && r.loaded[r.Victim()] != INVALID_EPOCH && x <= r.loaded[r.Victim()])
  }

  lemma LoadTwoNewest(r: Ring, asked: set<nat>, top: nat, epoch: nat)
    requires if r == EMPTY then asked == {} else TwoNewest(r, asked, top) && epoch >= top
    requires epoch < INVALID_EPOCH
    ensures TwoNewest(AfterEpoch(r, epoch), asked + {epoch}, epoch)
  {
    Parity(r.ctr);
  }

  lemma BlockTwoNewest(epochOf: nat -> nat, r: Ring, asked: set<nat>, last: nat, block: nat)
    requires EpochFunction(epochOf)
    requires if r == EMPTY then asked == {}
      else TwoNewest(r, asked, epochOf(last + 1)) && Holds(epochOf, r, last) && epochOf(last) in asked && last <= block
    ensures TwoNewest(AfterBlock(epochOf, r, block), asked + {epochOf(block), epochOf(block + 1)}, epochOf(block + 1))
  {
    var e, f := epochOf(block), epochOf(block + 1);
    if r != EMPTY && last == block {
      assert asked + {e, f} == asked;
    } else {
      LoadTwoNewest(r, asked, epochOf(last + 1), e);
      LoadTwoNewest(AfterEpoch(r, e), asked + {e}, e, f);
      assert asked + {e} + {f} == asked + {e, f};
    }
  }

  lemma {:induction false} RingHoldsTwoNewest(epochOf: nat -> nat, blocks: seq<nat>)
    requires EpochFunction(epochOf) && Nondecreasing(blocks) && blocks != []
    ensures TwoNewest(Notified(epochOf, blocks), Asked(epochOf, blocks), epochOf(blocks[|blocks| - 1] + 1))
  {
    var n := |blocks| - 1;
    if n > 0 {
      RingHoldsTwoNewest(epochOf, blocks[..n]);
      RingKeepsCurrentAndNext(epochOf, blocks[..n]);
    }
    BlockTwoNewest(epochOf, Notified(epochOf, blocks[..n]), Asked(epochOf, blocks[..n]),
                   if n > 0 then blocks[n - 1] else 0, blocks[n]);
  }

  lemma BothOfTwoNewest(r: Ring, asked: set<nat>, top: nat, e: nat, f: nat)
    requires TwoNewest(r, asked, top) && e in asked && f in asked && e <= f < INVALID_EPOCH
    ensures (e in r.loaded && f in r.loaded) <==> forall x :: x in asked ==> x <= e || x == top
  {
    assert forall x :: x in r.loaded <==> x == r.loaded[r.Victim()] || x == top;
  }

  /** No epoch asked for lies strictly between that of block `c` and the newest. */
  ghost predicate StillNewest(epochOf: nat -> nat, blocks: seq<nat>, c: nat)
    requires blocks != []
  {
    forall k :: 0 <= k < |blocks| ==>
      && NotBetween(epochOf(blocks[k]), epochOf(c), epochOf(blocks[|blocks| - 1] + 1))
      && NotBetween(epochOf(blocks[k] + 1), epochOf(c), epochOf(blocks[|blocks| - 1] + 1))
  }

  predicate NotBetween(x: nat, e: nat, top: nat) {
    x <= e || x == top
  }

  lemma StillNewestMeans(epochOf: nat -> nat, blocks: seq<nat>, c: nat)
    requires blocks != []
    ensures var top := epochOf(blocks[|blocks| - 1] + 1);
      StillNewest(epochOf, blocks, c) <==> forall x :: x in Asked(epochOf, blocks) ==> NotBetween(x, epochOf(c), top)
  {
    var e, top, asked := epochOf(c), epochOf(blocks[|blocks| - 1] + 1), Asked(epochOf, blocks);
    if StillNewest(epochOf, blocks, c) {
      forall x | x in asked ensures NotBetween(x, e, top) {
        AskedMeans(epochOf, blocks, x);
        var k :| 0 <= k < |blocks| && Asks(epochOf, blocks[k], x);
      }
    }
    if forall x :: x in asked ==> NotBetween(x, e, top) {
      forall k | 0 <= k < |blocks|
        ensures NotBetween(epochOf(blocks[k]), e, top) && NotBetween(epochOf(blocks[k] + 1), e, top)
      {
        BlockIsAsked(epochOf, blocks, k);
      }
    }
  }

  lemma BlockIsAsked(epochOf: nat -> nat, blocks: seq<nat>, k: nat)
    requires k < |blocks|
    ensures epochOf(blocks[k]) in Asked(epochOf, blocks) && epochOf(blocks[k] + 1) in Asked(epochOf, blocks)
  {
    AskedMeans(epochOf, blocks, epochOf(blocks[k]));
    AskedMeans(epochOf, blocks, epochOf(blocks[k] + 1));
    assert Asks(epochOf, blocks[k], epochOf(blocks[k])) && Asks(epochOf, blocks[k], epochOf(blocks[k] + 1));
  }

  /** For just how long the epochs of an earlier block and of the next stay loaded while later ones are asked for. */
  lemma BothStayLoadedIff(epochOf: nat -> nat, blocks: seq<nat>, c: nat)
    requires EpochFunction(epochOf) && Nondecreasing(blocks) && c in blocks
    ensures var r := Notified(epochOf, blocks);
      (epochOf(c) in r.loaded && epochOf(c + 1) in r.loaded) <==> StillNewest(epochOf, blocks, c)
  {
    var r, asked, top := Notified(epochOf, blocks), Asked(epochOf, blocks), epochOf(blocks[|blocks| - 1] + 1);
    var k :| 0 <= k < |blocks| && blocks[k] == c;
    RingHoldsTwoNewest(epochOf, blocks);
    BlockIsAsked(epochOf, blocks, k);
    BothOfTwoNewest(r, asked, top, epochOf(c), epochOf(c + 1));
    StillNewestMeans(epochOf, blocks, c);
    assert forall x :: x in asked ==> (NotBetween(x, epochOf(c), top) <==> x <= epochOf(c) || x == top);
  }

  /** As long as no block of a later epoch is asked for they do. */
  lemma SameEpochIsStillNewest(epochOf: nat -> nat, blocks: seq<nat>, c: nat)
    requires EpochFunction(epochOf) && Nondecreasing(blocks) && blocks != []
    requires epochOf(c) == epochOf(blocks[|blocks| - 1])
    ensures StillNewest(epochOf, blocks, c)
  {
    forall k | 0 <= k < |blocks|
      ensures NotBetween(epochOf(blocks[k]), epochOf(c), epochOf(blocks[|blocks| - 1] + 1))
      ensures NotBetween(epochOf(blocks[k] + 1), epochOf(c), epochOf(blocks[|blocks| - 1] + 1))
    {
      assert blocks[k] <= blocks[|blocks| - 1];
    }
  }

  /** From any ring at all, two loads leave both epochs loaded exactly unless the first is loaded only in the
      slot that is next to be overwritten while the second is not loaded. */
  lemma TwoLoadsKeepBothIff(r: Ring, e: nat, f: nat)
    requires r.WellFormed()
    ensures
      var r' := AfterEpoch(AfterEpoch(r, e), f);
      (e in r'.loaded && f in r'.loaded) <==>
      !(r.loaded[r.Victim()] == e && r.loaded[1 - r.Victim()] != e && f !in r.loaded)
  {
    Parity(r.ctr);
    assert forall q: Ring, x | q.WellFormed() :: x in q.loaded <==> x == q.loaded[0] || x == q.loaded[1];
  }

  /** From any ring at all, one `notify_block` leaves both epochs loaded exactly unless the current epoch is
      loaded only in the slot that is next to be overwritten while the following epoch is not loaded. */
  lemma NotifyBlockKeepsBothIff(epochOf: nat -> nat, r: Ring, block: nat)
    requires r.WellFormed()
    ensures
      var r', e, f := AfterBlock(epochOf, r, block), epochOf(block), epochOf(block + 1);
      (e in r'.loaded && f in r'.loaded) <==>
      !(r.loaded[r.Victim()] == e && r.loaded[1 - r.Victim()] != e && f !in r.loaded)
  {
    TwoLoadsKeepBothIff(r, epochOf(block), epochOf(block + 1));
  }

  /** So the order of blocks matters: with ten blocks to an epoch, stepping back over an epoch's border and
      forward again (blocks 10, 9, 19) leaves the epoch of the last block unloaded. */
  lemma SteppingBackEvictsTheCurrentEpoch()
    ensures var epochOf := (b: nat) => if b < 100 then b / 10 else 10;
      EpochFunction(epochOf) && epochOf(19) !in Notified(epochOf, [10, 9, 19]).loaded
  {
    var epochOf := (b: nat) => if b < 100 then b / 10 else 10;
    assert epochOf(9) == 0 && epochOf(10) == epochOf(11) == epochOf(19) == 1 && epochOf(20) == 2;
    var r1, r2, r3 := Ring([1, INVALID_EPOCH], 1), Ring([1, 0], 2), Ring([2, 0], 3);
    assert EMPTY.loaded[0 := 1] == r1.loaded && AfterEpoch(EMPTY, 1) == r1 && AfterEpoch(r1, 1) == r1;
    assert AfterBlock(epochOf, EMPTY, 10) == r1;
    assert r1.loaded[1 := 0] == r2.loaded && AfterEpoch(r1, 0) == r2 && AfterEpoch(r2, 1) == r2;
    assert AfterBlock(epochOf, r1, 9) == r2;
    assert AfterBlock(epochOf, r2, 19) == r3;
    assert [10][..0] == [] && [10, 9][..1] == [10] && [10, 9, 19][..2] == [10, 9];
    assert Notified(epochOf, []) == EMPTY;
    assert Notified(epochOf, [10]) == r1;
    assert Notified(epochOf, [10, 9]) == r2;
  }

  /** The pool's slots and counter as `notify_block` sees them. */
  class EpochSlots {
    var loaded: array<nat>
    var ctr: u64
    const epochOf: nat -> nat

    ghost predicate Valid() reads this {
      loaded.Length == 2
    }

    ghost function Contents(): Ring
      reads this, loaded
    {
      Ring(loaded[..], ctr)
    }

    constructor (epochOf: nat -> nat)
      ensures Valid() && fresh(loaded) && Contents() == EMPTY && this.epochOf == epochOf
    {
      loaded, ctr, this.epochOf := new nat[2](_ => INVALID_EPOCH), 0, epochOf;
    }

    method HasDataset(epoch: nat) returns (found: bool)
      requires Valid()
      ensures found <==> epoch in loaded[..]
    {
      for i := 0 to loaded.Length
        invariant epoch !in loaded[..i]
      {
        if epoch == loaded[i] {
          return true;
        }
      }
      return false;
    }

    method NotifyEpoch(epoch: nat)
      requires Valid()
      modifies this`ctr, loaded
      ensures Contents() == AfterEpoch(old(Contents()), epoch)
    {
      var found := HasDataset(epoch);
      if !found {
        var i := ctr % loaded.Length;
        ctr := (ctr + 1) % TWO64;
        loaded[i] := epoch;
      }
    }

    /** Called with nondecreasing block numbers, it keeps the epochs of the block and of the next one loaded. */
    method NotifyBlock(block: nat, ghost last: nat)
      requires Valid() && EpochFunction(epochOf)
      requires Contents() == EMPTY || (Holds(epochOf, Contents(), last) && last <= block)
      modifies this`ctr, loaded
      ensures Contents() == AfterBlock(epochOf, old(Contents()), block)
      ensures Holds(epochOf, Contents(), block)
    {
      NotifyBlockHolds(epochOf, Contents(), last, block);
      NotifyEpoch(epochOf(block));
      NotifyEpoch(epochOf(block + 1));
    }
  }
}
