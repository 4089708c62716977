/** Shares are judged by 32 bits of a hash, blocks by 64: how the two tests agree. */
module Difficulty {
  import opened Base
  import opened Vector32

  const FIX_DIFF: nat := 4096

  function DiffToTarget(diff: nat): nat
    requires diff > 0
  {
    0xFFFF_FFFF / diff
  }

  function WorkToDiff(work: nat): nat {
    if work == 0 then 0xFFFF_FFFF_FFFF_FFFF else 0xFFFF_FFFF_FFFF_FFFF / work
  }

  /** The share test: not "Bad share". */
  predicate AcceptsShare(hash: v32, diff: nat)
    requires diff > 0
  {
    GetWork32(hash) <= DiffToTarget(diff)
  }

  lemma AtMostQuotient(w: nat, d: nat, n: nat)
    requires d > 0
    ensures w <= n / d <==> w * d <= n
  {
    var q, r := n / d, n % d;
    assert n == q * d + r;
    if w <= q {
      assert (q - w) * d >= 0;
      assert w * d + (q - w) * d == q * d;
    } else {
      assert (w - q - 1) * d >= 0;
      assert w * d == q * d + d + (w - q - 1) * d;
    }
  }

  lemma DiffAtLeast(work: nat, d: nat)
    requires work < TWO64 && 0 < d < TWO32
    ensures WorkToDiff(work) >= d <==> work * d < TWO64
  {
    if work > 0 {
      AtMostQuotient(d, work, TWO64 - 1);
      assert d * work == work * d;
    }
  }

  lemma AcceptedIs(hash: v32, d: nat)
    requires 0 < d
    ensures AcceptsShare(hash, d) <==> GetWork32(hash) * d < TWO32
  {
    AtMostQuotient(GetWork32(hash), d, TWO32 - 1);
  }

  lemma UpperHalf(w: nat, low: nat, d: nat)
    requires (w * TWO32 + low) * d < TWO64
    ensures w * d < TWO32
  {
    assert (w * TWO32 + low) * d == (w * d) * TWO32 + low * d;
    assert low * d >= 0;
  }

  /** A hash whose 64-bit difficulty is at least `d` is accepted as a share of difficulty `d`. */
  lemma BlockWorkIsAccepted(hash: v32, d: nat)
    requires 0 < d < TWO32 && WorkToDiff(GetWork64(hash)) >= d
    ensures AcceptsShare(hash, d)
  {
    WorkIsBigEndian(hash);
    AcceptedIs(hash, d);
    DiffAtLeast(GetWork64(hash), d);
    UpperHalf(GetWork32(hash), BigEndian(hash[4..8]), d);
  }

  lemma StrictMultiple(w: nat, k: nat, d: nat)
    requires d > 0 && w * d < k * d
    ensures w < k
  {
    assert (k - w) * d == k * d - w * d;
    assert k - w <= 0 ==> (k - w) * d <= 0;
  }

  lemma WholeHalves(w: nat, low: nat, k: nat, d: nat)
    requires d > 0 && k * d == TWO32 && w * d < TWO32 && low < TWO32
    ensures (w * TWO32 + low) * d < TWO64
  {
    StrictMultiple(w, k, d);
    assert (k - w - 1) * d >= 0;
    assert (w + 1) * d + (k - w - 1) * d == k * d;
    assert (w * TWO32 + low) * d + (TWO32 - low) * d == TWO32 * ((w + 1) * d);
    assert (TWO32 - low) * d > 0;
  }

  /** The two tests agree on every hash when `d` divides 2^32 ... */
  lemma SharesAreExact(hash: v32, d: nat)
    requires 0 < d < TWO32 && TWO32 % d == 0
    ensures AcceptsShare(hash, d) <==> WorkToDiff(GetWork64(hash)) >= d
  {
    WorkIsBigEndian(hash);
    AcceptedIs(hash, d);
    DiffAtLeast(GetWork64(hash), d);
    var w, low, k := GetWork32(hash), BigEndian(hash[4..8]), TWO32 / d;
    assert k * d == TWO32;
    if w * d < TWO32 {
      WholeHalves(w, low, k, d);
    } else if WorkToDiff(GetWork64(hash)) >= d {
      UpperHalf(w, low, d);
    }
  }

  /** ... as the fixed difficulty does ... */
  lemma FixedDifficultyIsExact(hash: v32)
    ensures AcceptsShare(hash, FIX_DIFF) <==> WorkToDiff(GetWork64(hash)) >= 4096
  {
    SharesAreExact(hash, FIX_DIFF);
  }

  lemma JustTooMuch(q: nat, d: nat)
    requires 0 < d < TWO32 && TWO32 % d != 0 && q == 0xFFFF_FFFF / d
    ensures q * d < TWO32 && (q * TWO32 + 0xFFFF_FFFF) * d >= TWO64
  {
    AtMostQuotient(q, d, TWO32 - 1);
    AtMostQuotient(q + 1, d, TWO32 - 1);
    NoMultiple(q + 1, d);
    assert (q * TWO32 + 0xFFFF_FFFF) * d == TWO32 * ((q + 1) * d) - d;
  }

  lemma NoMultiple(k: nat, d: nat)
    requires d > 0 && TWO32 % d != 0
    ensures k * d != TWO32
  {
    var q, r := TWO32 / d, TWO32 % d;
    assert TWO32 == q * d + r;
    assert (k - q) * d == k * d - q * d;
    assert k - q <= 0 ==> (k - q) * d <= 0;
    assert k - q >= 1 ==> (k - q) * d >= d;
  }

  function HashOfWork(work: nat): v32
  {
    ToBigEndian(work, 8) + seq(24, _ => 0)
  }

  /** For any other `d` a hash with the largest accepted upper half and all ones below is accepted with
      less than difficulty `d`. */
  lemma OtherDifficultiesAcceptTooMuch(d: nat)
    requires 0 < d < TWO32 && TWO32 % d != 0
    ensures exists hash: v32 :: AcceptsShare(hash, d) && WorkToDiff(GetWork64(hash)) < d
  {
    var q := 0xFFFF_FFFF / d;
    AtMostQuotient(q, 1, TWO32 - 1);
    JustTooMuch(q, d);
    AtMostItself(q, d);
    var work := q * TWO32 + 0xFFFF_FFFF;
    var hash := HashOfWork(work);
    assert hash[..8] == ToBigEndian(work, 8);
    Widths(|hash[..8]|);
    BigEndianRoundTrip(work, |hash[..8]|);
    WorkIsBigEndian(hash);
    AcceptedIs(hash, d);
    DiffAtLeast(work, d);
    assert GetWork32(hash) == q;
  }

  lemma AtMostItself(q: nat, d: nat)
    requires d > 0
    ensures q <= q * d
  {
    assert q * (d - 1) >= 0;
  }

  /** ... and on every hash only then. */
  lemma SharesAreExactOnlyForDivisors(d: nat)
    requires 0 < d < TWO32
    ensures (forall hash: v32 :: AcceptsShare(hash, d) <==> WorkToDiff(GetWork64(hash)) >= d) <==> TWO32 % d == 0
  {
    if TWO32 % d == 0 {
      forall hash: v32 ensures AcceptsShare(hash, d) <==> WorkToDiff(GetWork64(hash)) >= d {
        SharesAreExact(hash, d);
      }
    } else {
      OtherDifficultiesAcceptTooMuch(d);
    }
  }
}
