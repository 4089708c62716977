/** The fast integer printer: two digits at a time from a table, by falling through a switch; sixty-four
    bits by splitting off nine digits; signs by wrapping negation. */
module Itoa {
  import opened Base
  import opened Decimal

  const ROWS: seq<string> := [
    "00010203040506070809", "10111213141516171819", "20212223242526272829", "30313233343536373839",
    "40414243444546474849", "50515253545556575859", "60616263646566676869", "70717273747576777879",
    "80818283848586878889", "90919293949596979899"]

  /** The table `lut`. */
  const LUT: string := Concat(ROWS)

  function Concat(rows: seq<string>): string {
    if rows == [] then [] else rows[0] + Concat(rows[1..])
  }

  lemma {:induction false} ConcatAt(rows: seq<string>, r: nat, k: nat)
    requires (forall i :: 0 <= i < |rows| ==> |rows[i]| == 20) && r < |rows| && k < 20
    ensures |Concat(rows)| == 20 * |rows| && Concat(rows)[20 * r + k] == rows[r][k]
  {
    if r > 0 {
      ConcatAt(rows[1..], r - 1, k);
    } else if |rows| > 1 {
      ConcatAt(rows[1..], 0, k);
    } else {
      assert Concat(rows[1..]) == [];
    }
  }

  /** Entry `d` of row `r`. */
  ghost predicate EntryIs(row: string, r: nat, d: nat) {
    |row| == 20 && r < 10 && d < 10 && row[2 * d] == Digit(r) && row[2 * d + 1] == Digit(d)
  }

  lemma RowAt(r: nat, d: nat)
    requires r < 10 && d < 10
    ensures EntryIs(ROWS[r], r, d)
  {
    if d == 0 {} else if d == 1 {} else if d == 2 {} else if d == 3 {} else if d == 4 {}
    else if d == 5 {} else if d == 6 {} else if d == 7 {} else if d == 8 {} else {}
  }

  ghost predicate TwoDigitRows(rows: seq<string>) {
    |rows| == 10 && forall r: nat, d: nat :: r < 10 && d < 10 ==> EntryIs(rows[r], r, d)
  }

  lemma TableRows()
    ensures TwoDigitRows(ROWS)
  {
    forall r: nat, d: nat | r < 10 && d < 10 ensures EntryIs(ROWS[r], r, d) {
      RowAt(r, d);
    }
  }

  /** The digits of a number below 100. */
  function Pair(d: nat): string
    requires d < 100
  {
    [Digit(d / 10), Digit(d % 10)]
  }

  lemma TableEntry(rows: seq<string>, d: nat)
    requires TwoDigitRows(rows) && d < 100
    ensures |Concat(rows)| == 200 && [Concat(rows)[2 * d], Concat(rows)[2 * d + 1]] == Pair(d)
  {
    var r, e := d / 10, d % 10;
    assert EntryIs(rows[r], r, e);
    forall i: nat | i < 10 ensures |rows[i]| == 20 {
      assert EntryIs(rows[i], i, 0);
    }
    ConcatAt(rows, r, 2 * e);
    ConcatAt(rows, r, 2 * e + 1);
    assert d == 10 * r + e;
    assert 20 * r + 2 * e == 2 * d;
  }

  lemma LutPair(d: nat)
    requires d < 100
    ensures |LUT| == 200 && [LUT[2 * d], LUT[2 * d + 1]] == Pair(d)
  {
    TableRows();
    TableEntry(ROWS, d);
  }

  function Mul32(a: u32, b: u32): u32 {
    (a * b) % TWO32
  }

  function Sub32(a: u32, b: u32): u32 {
    (a - b) % TWO32
  }

  /** What a buffer holds after `text` was written at `p`. */
  ghost predicate Wrote(now: seq<char>, before: seq<char>, p: nat, text: seq<char>) {
    p + |text| <= |before| && now == before[..p] + text + before[p + |text|..]
  }

  method OutChar(c: char, buf: array<char>, p: nat) returns (q: nat)
    requires p < buf.Length
    modifies buf
    ensures q == p + 1 && Wrote(buf[..], old(buf[..]), p, [c])
  {
    buf[p] := c;
    q := p + 1;
  }

  /** `out(dd(d), p)`. */
  method OutPair(d: nat, buf: array<char>, p: nat) returns (q: nat)
    requires d < 100 && p + 2 <= buf.Length
    modifies buf
    ensures q == p + 2 && Wrote(buf[..], old(buf[..]), p, Pair(d))
  {
    LutPair(d);
    buf[p] := LUT[2 * d];
    buf[p + 1] := LUT[2 * d + 1];
    assert Pair(d) == [buf[p], buf[p + 1]];
    q := p + 2;
  }

  lemma WroteMore(a: seq<char>, b: seq<char>, c: seq<char>, p: nat, s: seq<char>, t: seq<char>)
    requires Wrote(b, a, p, s) && Wrote(c, b, p + |s|, t)
    ensures Wrote(c, a, p, s + t)
  {
    assert b[..p + |s|] == a[..p] + s;
    assert b[p + |s| + |t|..] == a[p + |s| + |t|..];
  }

  // ---------------------------------------------------------------- the switch

  lemma NarrowFixed(d: nat, n: nat)
    ensures n == 1 && d < 10 ==> Fixed(d, n) == [Digit(d)]
    ensures n == 2 && d < 100 ==> Fixed(d, n) == Pair(d)
  {
    if n == 2 && d < 100 {
      assert Fixed(d / 10, n - 1) == Fixed(d / 10 / 10, n - 2) + [Digit(d / 10 % 10)];
    }
  }

  /** Two digits, then the other `k`. */
  lemma FixedPair(u: nat, q: nat, r: nat, k: nat, n: nat)
    requires u == q * Pow10(k) + r && n == k + 2 && q < 100 && r < Pow10(k)
    ensures Fixed(u, n) == Pair(q) + Fixed(r, k)
  {
    FixedSplit(u, q, r, n - k, k);
    NarrowFixed(q, n - k);
  }

  /** The digits still to be printed when the switch is entered at `case n`: the low `n` of `u`, or for an
      odd `n` one less, the caller having printed the first. */
  function Remaining(u: nat, n: nat): string {
    Fixed(u, if n % 2 == 0 then n else n - 1)
  }

  /** Where the switch, entered at `case n` with `u0` and `d0`, stands before `case k:`. */
  ghost predicate Printing(n: nat, k: nat, u0: nat, d0: nat, u: nat, d: nat, text: string) {
    && (n >= k ==> u < Pow10(k) && text + Fixed(u, k) == Remaining(u0, n))
    && (n < k ==> u == u0 && d == d0 && text == [])
  }

  lemma PairPrinted(n: nat, k: nat, u0: nat, d0: nat, u: nat, d: nat, text: string, q: nat, r: nat)
    requires 2 <= k <= n && Printing(n, k, u0, d0, u, d, text)
    requires u == q * Pow10(k - 2) + r && q < 100 && r < Pow10(k - 2)
    ensures Printing(n, k - 2, u0, d0, r, q, text + Pair(q))
  {
    FixedPair(u, q, r, k - 2, k);
    assert (text + Pair(q)) + Fixed(r, k - 2) == text + Fixed(u, k);
  }

  lemma FirstTakenOff(k: nat, u0: nat, d0: nat, r: nat)
    requires k > 2 && k % 2 == 0 && u0 == d0 * Pow10(k - 2) + r && r < Pow10(k - 2)
    ensures Printing(k - 1, k - 2, u0, d0, r, d0, [])
  {
    FixedSplit(u0, d0, r, 0, k - 2);
    assert [] + Fixed(r, k - 2) == Fixed(r, k - 2);
  }

  lemma EnteredBelow(n: nat, k: nat, u0: nat, d0: nat)
    requires n < k - 1 && k % 2 == 0 && u0 < Pow10(n)
    ensures Printing(n, k - 2, u0, d0, u0, d0, [])
  {
    if n == k - 2 {
      assert [] + Fixed(u0, n) == Fixed(u0, n);
    }
  }

  lemma DivBelow(u: nat, a: nat, b: nat)
    requires b > 0 && u < a * b
    ensures u / b < a
  {
    var d := u / b;
    assert d * b <= u;
    assert (d - a) * b == d * b - a * b;
    assert d - a >= 0 ==> (d - a) * b >= 0;
  }

  method LeadingPair(u: u32, unit: nat) returns (d: nat)
    requires unit > 0 && u < 100 * unit
    ensures d == u / unit && d < 100
  {
    DivBelow(u, 100, unit);
    d := u / unit;
  }

  lemma TakeOff(u: nat, unit: nat)
    requires unit > 0
    ensures u == (u / unit) * unit + u % unit
  {
  }

  /** `u -= d * unit`, modulo 2^32. */
  method TakeOffDigits(u: u32, d: nat, unit: nat) returns (r: u32)
    requires 0 < unit < TWO32 && d == u / unit
    ensures r == u % unit
  {
    TakeOff(u, unit);
    r := Sub32(u, Mul32(d, unit));
  }

  /** The labels `case k:` and `case k - 1:`, where `unit` is 10^(k - 2): entered at `k` or above they print
      two digits of `u` and take them off; entered at `k - 1` they take off the digit printed before. */
  method Labels(n: nat, k: nat, unit: nat, u: u32, d: nat, buf: array<char>, p: nat)
    returns (u': u32, d': nat, q: nat)
    requires 2 < k && 0 < unit < TWO32
    requires n >= k ==> u < 100 * unit && p + 2 <= buf.Length
    requires n == k - 1 ==> d == u / unit
    requires p <= buf.Length
    modifies buf
    ensures u' == if n >= k - 1 then u % unit else u
    ensures d' == if n >= k then u / unit else d
    ensures n >= k ==> q == p + 2 && d' < 100 && Wrote(buf[..], old(buf[..]), p, Pair(d'))
    ensures n < k ==> q == p && buf[..] == old(buf[..])
  {
    u', d', q := u, d, p;
    if n >= k {
      d' := LeadingPair(u', unit);
      q := OutPair(d', buf, q);
    }
    if n >= k - 1 {
      u' := TakeOffDigits(u', d', unit);
    }
  }

  /** The same step on the state of the switch, with the buffer it has written. */
  ghost predicate At(n: nat, k: nat, u0: nat, d0: nat, u: nat, d: nat, before: seq<char>, now: seq<char>, p: nat, q: nat) {
    p <= q <= |now| && Wrote(now, before, p, now[p..q]) && Printing(n, k, u0, d0, u, d, now[p..q])
  }

  lemma CaseDone(n: nat, k: nat, unit: nat, u0: nat, d0: nat, u: nat, d: nat, u': nat, d': nat,
                 before: seq<char>, now: seq<char>, now': seq<char>, p: nat, q: nat, q': nat)
    requires 2 < k && k % 2 == 0 && unit == Pow10(k - 2) && u0 < Pow10(n)
    requires At(n, k, u0, d0, u, d, before, now, p, q)
    requires n == k - 1 ==> d0 == u0 / unit
    requires u' == if n >= k - 1 then u % unit else u
    requires d' == if n >= k then u / unit else d
    requires n >= k ==> d' < 100 && q' == q + 2 && Wrote(now', now, q, Pair(d'))
    requires n < k ==> q' == q && now' == now
    ensures At(n, k - 2, u0, d0, u', d', before, now', p, q')
  {
    var text := now[p..q];
    TakeOff(u, unit);
    if n >= k {
      var pair := Pair(d');
      PairPrinted(n, k, u0, d0, u, d, text, d', u');
      WroteMore(before, now, now', p, text, pair);
      assert now'[p..q'] == text + pair;
    } else if n == k - 1 {
      FirstTakenOff(k, u0, d0, u % unit);
    } else {
      EnteredBelow(n, k, u0, d0);
    }
  }

  /** `Labels`, keeping track. */
  method Case(n: nat, k: nat, unit: nat, u: u32, d: nat, buf: array<char>, p: nat,
              ghost u0: nat, ghost d0: nat, ghost before: seq<char>, ghost p0: nat)
    returns (u': u32, d': nat, q: nat)
    requires 2 < k && k % 2 == 0 && unit == Pow10(k - 2) < TWO32 && u0 < Pow10(n)
    requires At(n, k, u0, d0, u, d, before, buf[..], p0, p) && (n == k - 1 ==> d0 == u0 / unit)
    requires p0 + |Remaining(u0, n)| < buf.Length
    modifies buf
    ensures At(n, k - 2, u0, d0, u', d', before, buf[..], p0, q)
  {
    ghost var now := buf[..];
    if n >= k {
      HundredTimes(k);
    }
    u', d', q := Labels(n, k, unit, u, d, buf, p);
    CaseDone(n, k, unit, u0, d0, u, d, u', d', before, now, buf[..], p0, p, q);
  }

  lemma HundredTimes(k: nat)
    requires k >= 2
    ensures Pow10(k) == 100 * Pow10(k - 2)
  {
    assert Pow10(k) == 10 * Pow10(k - 1);
  }

  lemma Powers()
    ensures Pow10(0) == 1 && Pow10(1) == 10 && Pow10(2) == 100 && Pow10(3) == 1000 && Pow10(4) == 10000
    ensures Pow10(5) == 100000 && Pow10(6) == 1000000 && Pow10(7) == 10000000 && Pow10(8) == 100000000
    ensures Pow10(9) == 1000000000 && Pow10(10) == 10000000000
  {
  }

  /** The labels `case 2:` and `case 1:`, and the NUL. */
  method LastCases(n: nat, u: u32, buf: array<char>, p: nat,
                   ghost u0: nat, ghost d0: nat, ghost d: nat, ghost before: seq<char>, ghost p0: nat)
    returns (q: nat)
    requires 1 <= n && At(n, 2, u0, d0, u, d, before, buf[..], p0, p)
    requires p0 + |Remaining(u0, n)| < buf.Length
    modifies buf
    ensures q == p0 + |Remaining(u0, n)|
    ensures Wrote(buf[..], before, p0, Remaining(u0, n) + ['\0'])
  {
    ghost var text, mid := buf[p0..p], buf[..];
    q := p;
    if n >= 2 {
      HundredTimes(2);
      NarrowFixed(u, 2);
      q := OutPair(u / 1, buf, q);
      WroteMore(before, mid, buf[..], p0, text, Pair(u));
      text, mid := text + Pair(u), buf[..];
    }
    var end := OutChar('\0', buf, q);
    WroteMore(before, mid, buf[..], p0, text, ['\0']);
  }

  /** `case 10:` to `case 7:`. */
  method UpperCases(n: nat, u: u32, d: nat, buf: array<char>, p: nat,
                    ghost u0: nat, ghost d0: nat, ghost before: seq<char>, ghost p0: nat)
    returns (u': u32, d': nat, q: nat)
    requires n <= 10 && u0 < Pow10(n) && (n % 2 == 1 && n > 1 ==> d0 == u0 / Pow10(n - 1))
    requires At(n, 10, u0, d0, u, d, before, buf[..], p0, p) && p0 + |Remaining(u0, n)| < buf.Length
    modifies buf
    ensures At(n, 6, u0, d0, u', d', before, buf[..], p0, q)
  {
    Powers();
    u', d', q := Case(n, 10, 100000000, u, d, buf, p, u0, d0, before, p0);
    u', d', q := Case(n, 8, 1000000, u', d', buf, q, u0, d0, before, p0);
  }

  /** The private `itoa(u, p, d, n)`.  For an odd `n` the caller has printed the first of `n` digits, `d`. */
  method PrintFrom(u: u32, buf: array<char>, p: nat, d: nat, n: nat) returns (q: nat)
    requires 1 <= n <= 10 && u < Pow10(n) && (n % 2 == 1 && n > 1 ==> d == u / Pow10(n - 1))
    requires p + |Remaining(u, n)| < buf.Length
    modifies buf
    ensures q == p + |Remaining(u, n)|
    ensures Wrote(buf[..], old(buf[..]), p, Remaining(u, n) + ['\0'])
  {
    Powers();
    ghost var before := buf[..];
    var v, e := u, d;
    q := p;
    v, e, q := UpperCases(n, v, e, buf, q, u, d, before, p);
    v, e, q := Case(n, 6, 10000, v, e, buf, q, u, d, before, p);
    v, e, q := Case(n, 4, 100, v, e, buf, q, u, d, before, p);
    q := LastCases(n, v, buf, q, u, d, e, before, p);
  }

  // ---------------------------------------------------------------- the four overloads

  /** Prints the first digit if `u` has only `n - 1` digits, where `k` is 10^(n - 2). */
  method Digits(u: u32, k: u32, buf: array<char>, p: nat, n: nat) returns (d: nat, q: nat, m: nat)
    requires n >= 2 && 0 < k <= 100000000 && p < buf.Length
    modifies buf
    ensures u < k * 10 ==> m == n - 1 && d == u / k && d < 10 && q == p + 1 && Wrote(buf[..], old(buf[..]), p, [Digit(d)])
    ensures u >= k * 10 ==> m == n && q == p && buf[..] == old(buf[..])
  {
    d, q, m := 0, p, n;
    if u < Mul32(k, 10) {
      DivBelow(u, 10, k);
      d := u / k;
      q := OutChar('0' + d as char, buf, p);
      m := n - 1;
    }
  }

  /** `u` has `n` digits or one less. */
  ghost predicate WidthIs(u: nat, k: nat, n: nat) {
    n >= 2 && n % 2 == 0 && k == Pow10(n - 2) && u < Pow10(n) && (n > 2 ==> u >= k)
  }

  lemma {:induction false} OneDigitLess(u: nat, k: nat, n: nat, d: nat)
    requires WidthIs(u, k, n) && u < k * 10 && d == u / k && d < 10
    ensures u < Pow10(n - 1) && Numeral(u) == [Digit(d)] + Remaining(u, n - 1)
  {
    var r := u % k;
    TakeOff(u, k);
    assert Pow10(n - 1) == 10 * k;
    NumeralFixed(u, n - 1);
    FixedSplit(u, d, r, n - 1 - (n - 2), n - 2);
    FixedSplit(u, d, r, 0, n - 2);
    NarrowFixed(d, n - 1 - (n - 2));
  }

  lemma AllDigitsLeft(u: nat, k: nat, n: nat)
    requires WidthIs(u, k, n) && u >= k * 10
    ensures Numeral(u) == Remaining(u, n)
  {
    assert Pow10(n - 1) == 10 * k;
    NumeralFixed(u, n);
  }

  /** `digits` and the switch behind it. */
  method PrintWidth(u: u32, k: u32, buf: array<char>, p: nat, n: nat) returns (q: nat)
    requires n <= 10 && WidthIs(u, k, n) && p + |Numeral(u)| < buf.Length
    modifies buf
    ensures q == p + |Numeral(u)| && Wrote(buf[..], old(buf[..]), p, Numeral(u) + ['\0'])
  {
    Powers();
    ghost var before := buf[..];
    var d, r, m := Digits(u, k, buf, p, n);
    ghost var mid := buf[..];
    if u < k * 10 {
      OneDigitLess(u, k, n, d);
    } else {
      AllDigitsLeft(u, k, n);
    }
    q := PrintFrom(u, buf, r, d, m);
    if u < k * 10 {
      WroteMore(before, mid, buf[..], p, [Digit(d)], Remaining(u, m) + ['\0']);
      assert [Digit(d)] + (Remaining(u, m) + ['\0']) == Numeral(u) + ['\0'];
    }
  }

  /** The printer for `uint32_t` writes the canonical numeral and a NUL, and returns where the NUL is. */
  method Print32(u: u32, buf: array<char>, p: nat) returns (q: nat)
    requires p + |Numeral(u)| < buf.Length
    modifies buf
    ensures q == p + |Numeral(u)| && Wrote(buf[..], old(buf[..]), p, Numeral(u) + ['\0'])
  {
    Powers();
    if u >= 100000000 {
      q := PrintWidth(u, 100000000, buf, p, 10);
    } else if u < 100 {
      q := PrintWidth(u, 1, buf, p, 2);
    } else if u < 10000 {
      q := PrintWidth(u, 100, buf, p, 4);
    } else if u < 1000000 {
      q := PrintWidth(u, 10000, buf, p, 6);
    } else {
      q := PrintWidth(u, 1000000, buf, p, 8);
    }
  }

  method PrintSign(i: int, ghost u: nat, buf: array<char>, p: nat) returns (r: nat)
    requires u == (if i < 0 then -i else i) && p + |SignedNumeral(i)| < buf.Length
    modifies buf
    ensures r + |Numeral(u)| < buf.Length
    ensures if i < 0 then r == p + 1 && Wrote(buf[..], old(buf[..]), p, ['-']) else r == p && buf[..] == old(buf[..])
  {
    r := p;
    if i < 0 {
      r := OutChar('-', buf, p);
    }
  }

  lemma SignWritten(a: seq<char>, b: seq<char>, c: seq<char>, p: nat, r: nat, i: int, u: nat)
    requires u == if i < 0 then -i else i
    requires if i < 0 then r == p + 1 && Wrote(b, a, p, ['-']) else r == p && b == a
    requires Wrote(c, b, r, Numeral(u) + ['\0'])
    ensures r + |Numeral(u)| == p + |SignedNumeral(i)|
    ensures Wrote(c, a, p, SignedNumeral(i) + ['\0'])
  {
    if i < 0 {
      WroteMore(a, b, c, p, ['-'], Numeral(u) + ['\0']);
      assert ['-'] + (Numeral(u) + ['\0']) == SignedNumeral(i) + ['\0'];
    }
  }

  /** `u = i`, and `u = 0 - u` if that was negative, modulo 2^32. */
  method Magnitude32(i: i32) returns (u: u32)
    ensures u == if i < 0 then -(i as int) else i as int
  {
    u := i % TWO32;
    if i < 0 {
      u := (0 - u) % TWO32;
    }
  }

  method PrintSigned32(i: i32, buf: array<char>, p: nat) returns (q: nat)
    requires p + |SignedNumeral(i)| < buf.Length
    modifies buf
    ensures q == p + |SignedNumeral(i)| && Wrote(buf[..], old(buf[..]), p, SignedNumeral(i) + ['\0'])
  {
    ghost var before := buf[..];
    var u := Magnitude32(i);
    var r := PrintSign(i, u, buf, p);
    ghost var mid := buf[..];
    q := Print32(u, buf, r);
    SignWritten(before, mid, buf[..], p, r, i, u);
  }

  lemma SplitNine(u: nat, upper: nat, lower: nat, d: nat)
    requires u == upper * 1000000000 + lower && lower < 1000000000 && upper > 0 && d == lower / 100000000
    ensures d < 10 && Numeral(u) == Numeral(upper) + ([Digit(d)] + Remaining(lower, 9))
  {
    Powers();
    var nine := 9;
    NumeralSplit(u, upper, lower, nine);
    var r := lower % 100000000;
    FixedSplit(lower, d, r, nine - 8, nine - 1);
    FixedSplit(lower, d, r, 0, nine - 1);
    NarrowFixed(d, nine - 8);
  }

  function NineDigits(lower: nat): (s: string)
    requires lower < 1000000000
    ensures |s| == 9
  {
    [Digit(lower / 100000000)] + Remaining(lower, 9)
  }

  lemma NineDigitsMore(u: nat, upper: nat, lower: nat)
    requires u == upper * 1000000000 + lower && lower < 1000000000 && upper > 0
    ensures |Numeral(u)| == |Numeral(upper)| + 9
  {
    SplitNine(u, upper, lower, lower / 100000000);
  }

  /** Nine digits of `lower`, and a NUL. */
  method PrintNine(lower: u32, buf: array<char>, p: nat) returns (q: nat)
    requires lower < 1000000000 && p + 9 < buf.Length
    modifies buf
    ensures q == p + 9 && Wrote(buf[..], old(buf[..]), p, NineDigits(lower) + ['\0'])
  {
    Powers();
    ghost var before := buf[..];
    var d := lower / 100000000;
    q := OutChar('0' + d as char, buf, p);
    ghost var mid := buf[..];
    q := PrintFrom(lower, buf, q, d, 9);
    WroteMore(before, mid, buf[..], p, [Digit(d)], Remaining(lower, 9) + ['\0']);
    assert [Digit(d)] + (Remaining(lower, 9) + ['\0']) == NineDigits(lower) + ['\0'];
  }

  /** The upper digits, and the lowest nine as a `uint32_t`. */
  method SplitOff(u: u64) returns (upper: u64, lower: u32)
    requires u >= TWO32
    ensures 0 < upper < u && lower < 1000000000 && u == upper * 1000000000 + lower
  {
    upper := u / 1000000000;
    lower := (u - upper * 1000000000) % TWO32;
  }

  /** The printer for `uint64_t`: the upper part first, then exactly nine digits. */
  method Print64(u: u64, buf: array<char>, p: nat) returns (q: nat)
    requires p + |Numeral(u)| < buf.Length
    modifies buf
    ensures q == p + |Numeral(u)| && Wrote(buf[..], old(buf[..]), p, Numeral(u) + ['\0'])
    decreases u
  {
    var lower: u32 := u % TWO32;
    if lower == u {
      q := Print32(lower, buf, p);
    } else {
      var upper;
      upper, lower := SplitOff(u);
      NineDigitsMore(u, upper, lower);
      ghost var before := buf[..];
      q := Print64(upper, buf, p);
      ghost var first := buf[..];
      q := PrintNine(lower, buf, q);
      NineWritten(before, first, buf[..], p, u, upper, lower);
    }
  }

  lemma Overwritten(a: seq<char>, b: seq<char>, c: seq<char>, p: nat, s: seq<char>, t: seq<char>)
    requires Wrote(b, a, p, s + ['\0']) && Wrote(c, b, p + |s|, t) && t != []
    ensures Wrote(c, a, p, s + t)
  {
    assert b[..p + |s|] == a[..p] + s;
    assert b[p + |s| + |t|..] == a[p + |s| + |t|..];
  }

  /** The nine digits overwrite the NUL of the upper part. */
  lemma NineWritten(a: seq<char>, b: seq<char>, c: seq<char>, p: nat, u: nat, upper: nat, lower: nat)
    requires u == upper * 1000000000 + lower && lower < 1000000000 && upper > 0
    requires Wrote(b, a, p, Numeral(upper) + ['\0'])
    requires Wrote(c, b, p + |Numeral(upper)|, NineDigits(lower) + ['\0'])
    ensures Wrote(c, a, p, Numeral(u) + ['\0'])
  {
    SplitNine(u, upper, lower, lower / 100000000);
    Overwritten(a, b, c, p, Numeral(upper), NineDigits(lower) + ['\0']);
    Regroup(Numeral(upper), NineDigits(lower), ['\0'], Numeral(u));
  }

  lemma Regroup(a: string, b: string, c: string, ab: string)
    requires ab == a + b
    ensures a + (b + c) == ab + c
  {
  }

  /** `u = i`, and `u = 0 - u` if that was negative, modulo 2^64. */
  method Magnitude64(i: i64) returns (u: u64)
    ensures u == if i < 0 then -(i as int) else i as int
  {
    u := i % TWO64;
    if i < 0 {
      u := (0 - u) % TWO64;
    }
  }

  method PrintSigned64(i: i64, buf: array<char>, p: nat) returns (q: nat)
    requires p + |SignedNumeral(i)| < buf.Length
    modifies buf
    ensures q == p + |SignedNumeral(i)| && Wrote(buf[..], old(buf[..]), p, SignedNumeral(i) + ['\0'])
  {
    ghost var before := buf[..];
    var u := Magnitude64(i);
    var r := PrintSign(i, u, buf, p);
    ghost var mid := buf[..];
    q := Print64(u, buf, r);
    SignWritten(before, mid, buf[..], p, r, i, u);
  }

  lemma {:induction false} NumeralLength(u: nat, n: nat)
    requires n > 0 && u < Pow10(n)
    ensures |Numeral(u)| <= n
  {
    if u >= 10 {
      NumeralLength(u / 10, n - 1);
    }
  }

  /** No numeral of 64 bits, with its sign and its NUL, takes more than 21 of the callers' 32 bytes. */
  lemma FitsTheCallersBuffer(u: u64, i: i64)
    ensures |Numeral(u)| + 1 <= 21 <= 32 && |SignedNumeral(i)| + 1 <= 21 <= 32
  {
    Powers();
    Pow10Add(10, 10);
    Pow10Add(10, 9);
    NumeralLength(u, 20);
    var j: int := i;
    NumeralLength(if j < 0 then -j else j, 19);
  }
}
