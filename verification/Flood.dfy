/** The rate limit on a client's calls. */
module Flood {
  import opened Base

  const WINDOW: int := 60
  const MAX_CALLS: nat := 60

  /** `flood_timestamp` and `flood_count`. */
  datatype Gate = Gate(start: int, count: u32)

  const CLOSED := Gate(0, 0)

  function Tick(g: Gate, time: int): Gate {
    if time - g.start > WINDOW then Gate(time, 1) else Gate(g.start, (g.count + 1) % TWO32)
  }

  predicate Admits(g: Gate) {
    g.count <= MAX_CALLS
  }

  class Limiter {
    var floodTimestamp: int
    var floodCount: u32
    /** When it was called. */
    ghost var times: seq<int>

    ghost predicate Valid()
      reads this
    {
      Gate(floodTimestamp, floodCount) == After(times)
    }

    constructor ()
      ensures Valid() && times == []
    {
      floodTimestamp, floodCount, times := 0, 0, [];
    }

    /** A well-formed request at `time`: whether its method is dispatched.  It is if it is among the first 60
        of the window it falls into, and no 60 seconds then hold more than 120 dispatched calls. */
    method Call(time: int) returns (dispatched: bool)
      requires Valid()
      modifies this
      ensures Valid() && times == old(times) + [time] && dispatched == LastDispatched(times)
      ensures Current(times) ==
        if time <= Current(old(times)).start + 60 then Current(old(times)) else Window(|old(times)|, time)
      ensures Run(times) ==> FirstOfWindow(times, dispatched) && Limited(times)
    {
      WindowsLastSixtySeconds(times, time);
      OneCall(times, time, 0, 0);
      dispatched := Count(time);
      times := times + [time];
      CallMeans(times);
    }

    method Count(time: int) returns (admitted: bool)
      modifies this`floodTimestamp, this`floodCount
      ensures Gate(floodTimestamp, floodCount) == Tick(old(Gate(floodTimestamp, floodCount)), time)
      ensures admitted == Admits(Gate(floodTimestamp, floodCount))
    {
      if time - floodTimestamp > WINDOW {
        floodTimestamp := time;
        floodCount := 1;
      } else {
        floodCount := (floodCount + 1) % TWO32;
      }
      admitted := floodCount <= MAX_CALLS;
    }
  }

  /** The last call is dispatched exactly if it is one of the first 60 of the window it falls into; a window
      takes the calls of 60 seconds, as `Limiter.Call` says. */
  predicate FirstOfWindow(times: seq<int>, dispatched: bool) {
    dispatched <==> |times| - Current(times).first <= 60
  }

  ghost predicate Limited(times: seq<int>) {
    forall a, b :: b <= a + 60 ==> Dispatched(times, a, b) <= 120
  }

  lemma CallMeans(times: seq<int>)
    requires times != []
    ensures Run(times) ==> FirstOfWindow(times, LastDispatched(times)) && Limited(times)
  {
    if Run(times) {
      RunMeans(times);
    }
  }

  lemma RunMeans(times: seq<int>)
    requires Run(times) && times != []
    ensures FirstOfWindow(times, LastDispatched(times)) && Limited(times)
  {
    GateIs(times);
    forall a, b | b <= a + 60 ensures Dispatched(times, a, b) <= 120 {
      AtMostTwoWindowsPerMinute(times, a, b);
    }
  }

  // ---------------------------------------------------------------- whole runs

  function After(times: seq<int>): Gate {
    if times == [] then CLOSED else Tick(After(times[..|times| - 1]), times[|times| - 1])
  }

  /** Whether the last call is dispatched. */
  predicate LastDispatched(times: seq<int>)
    requires times != []
  {
    Admits(After(times))
  }

  /** Calls dispatched at times in [a, b]. */
  function Dispatched(times: seq<int>, a: int, b: int): nat {
    if times == [] then 0
    else
      var n := |times| - 1;
      Dispatched(times[..n], a, b) + if a <= times[n] <= b && LastDispatched(times) then 1 else 0
  }

  /** A window: when it began, and its first call. */
  datatype Window = Window(first: nat, start: int)

  /** The window of the last call.  It began with a call more than 60 seconds after the beginning of the one
      before it; the first began at time zero. */
  function Current(times: seq<int>): (w: Window)
    ensures w.first <= |times|
  {
    if times == [] then Window(0, 0)
    else
      var n := |times| - 1;
      var w := Current(times[..n]);
      if times[n] - w.start > WINDOW then Window(n, times[n]) else w
  }

  /** A call at most 60 seconds after the beginning of the window falls into it; a later one begins its own. */
  lemma WindowsLastSixtySeconds(times: seq<int>, t: int)
    ensures t <= Current(times).start + 60 ==> Current(times + [t]) == Current(times)
    ensures t >= Current(times).start + 61 ==> Current(times + [t]) == Window(|times|, t)
  {
    assert (times + [t])[..|times|] == times;
  }

  /** A clock that never runs backwards, starting at or after zero, and no window with more calls than the
      counter counts. */
  ghost predicate Run(times: seq<int>) {
    && Nondecreasing(times) && (times != [] ==> times[0] >= 0)
    && forall k :: 0 <= k <= |times| ==> k - Current(times[..k]).first < TWO32
  }

  lemma Prefix(times: seq<int>)
    requires Run(times) && times != []
    ensures Run(times[..|times| - 1])
  {
    var before := times[..|times| - 1];
    assert forall k :: 0 <= k <= |before| ==> before[..k] == times[..k];
  }

  lemma ShortRun(times: seq<int>)
    requires Nondecreasing(times) && (times != [] ==> times[0] >= 0) && |times| < TWO32
    ensures Run(times)
  {
  }

  /** The gate holds the beginning of the current window, and counts its calls, dispatched or not. */
  lemma {:induction false} GateIs(times: seq<int>)
    requires Run(times)
    ensures After(times).start == Current(times).start && After(times).count == |times| - Current(times).first
  {
    if times != [] {
      Prefix(times);
      GateIs(times[..|times| - 1]);
      assert times[..|times|] == times;
    }
  }

  lemma {:induction false} GateBounds(times: seq<int>)
    requires Run(times)
    ensures var g := After(times);
      && (times != [] ==> 0 <= g.start <= times[|times| - 1] <= g.start + WINDOW)
      && (times == [] ==> g == CLOSED)
      && (times != [] ==> g.count > 0)
  {
    if times != [] {
      Prefix(times);
      GateBounds(times[..|times| - 1]);
      GateIs(times);
      GateIs(times[..|times| - 1]);
    }
  }

  /** `k` dispatched calls, none before `from`. */
  lemma {:induction false} OutsideInterval(times: seq<int>, a: int, b: int)
    requires Run(times) && (times != [] ==> times[|times| - 1] < a)
    ensures Dispatched(times, a, b) == 0
  {
    if times != [] {
      Prefix(times);
      OutsideInterval(times[..|times| - 1], a, b);
    }
  }

  function Min(a: int, b: int): int {
    if a < b then a else b
  }

  function Max(a: int, b: int): int {
    if a < b then b else a
  }

  /** 1 when the first call of the run opens a window, 0 when it still falls into the one that begins at
      time zero without a call. */
  function Opening(times: seq<int>): nat
    requires times != []
  {
    if times[0] > WINDOW then 1 else 0
  }

  /** What can have been dispatched in [a, b], by where the current window begins. */
  function Bound(times: seq<int>, a: int, b: int): int
    requires times != []
  {
    var g := After(times);
    if g.start < a then Min(g.count, MAX_CALLS) - Opening(times)
    else if g.start <= b then MAX_CALLS - Opening(times) + Min(g.count, MAX_CALLS)
    else 2 * MAX_CALLS - Opening(times)
  }

  lemma BoundGrows(times: seq<int>, a: int, b: int)
    requires Run(times) && |times| > 1 && b <= a + WINDOW && a <= times[|times| - 1]
    requires Dispatched(times[..|times| - 1], a, b) <= Bound(times[..|times| - 1], a, b)
    ensures Dispatched(times, a, b) <= Bound(times, a, b)
  {
    var before := times[..|times| - 1];
    Prefix(times);
    GateBounds(times);
    GateBounds(before);
    assert Opening(before) == Opening(times);
  }

  lemma {:induction false} DispatchedBound(times: seq<int>, a: int, b: int)
    requires Run(times) && times != [] && b <= a + WINDOW
    ensures Dispatched(times, a, b) <= Bound(times, a, b)
  {
    var n := |times| - 1;
    GateBounds(times);
    if times[n] < a {
      OutsideInterval(times, a, b);
    } else if n > 0 {
      Prefix(times);
      DispatchedBound(times[..n], a, b);
      BoundGrows(times, a, b);
    } else {
      assert Dispatched(times[..n], a, b) == 0;
    }
  }

  /** In no closed interval of 60 seconds are more than 120 calls dispatched; nor more than 119 if the
      client's first call came more than 60 seconds after the clock's zero. */
  lemma AtMostTwoWindowsPerMinute(times: seq<int>, a: int, b: int)
    requires Run(times) && b <= a + 60
    ensures Dispatched(times, a, b) <= 120
    ensures times != [] && times[0] > 60 ==> Dispatched(times, a, b) <= 119
  {
    if times != [] {
      DispatchedBound(times, a, b);
    }
  }

  /** Calls dispatched while the window beginning at `w` is current. */
  function DispatchedInWindow(times: seq<int>, w: int): nat {
    if times == [] then 0
    else DispatchedInWindow(times[..|times| - 1], w) + if After(times).start == w && LastDispatched(times) then 1 else 0
  }

  /** No window dispatches more than 60 calls. */
  lemma {:induction false} AtMostSixtyPerWindow(times: seq<int>, w: int)
    requires Run(times)
    ensures DispatchedInWindow(times, w) <= 60
    ensures w == After(times).start ==> DispatchedInWindow(times, w) <= After(times).count
    ensures w > After(times).start ==> DispatchedInWindow(times, w) == 0
  {
    if times != [] {
      Prefix(times);
      GateBounds(times);
      GateBounds(times[..|times| - 1]);
      AtMostSixtyPerWindow(times[..|times| - 1], w);
    }
  }

  // ---------------------------------------------------------------- when a minute holds more than 60

  /** Call `o` opens a window. */
  predicate OpensAt(times: seq<int>, o: nat)
    requires o < |times|
  {
    times[o] - Current(times[..o]).start > WINDOW
  }

  /** How many of the calls from the `o`-th on come at time `b` or before. */
  function CallsFrom(times: seq<int>, o: nat, b: int): nat {
    if |times| <= o then 0
    else CallsFrom(times[..|times| - 1], o, b) + if times[|times| - 1] <= b then 1 else 0
  }

  /** The number of calls before time `a`. */
  function Earlier(times: seq<int>, a: int): (n: nat)
    ensures n <= |times|
  {
    if times == [] then 0
    else Earlier(times[..|times| - 1], a) + if times[|times| - 1] < a then 1 else 0
  }

  /** How many calls from time `a` on, and before the `o`-th, are among the first 60 of the window before it. */
  function StillAdmitted(times: seq<int>, o: nat, a: int): nat
    requires o <= |times|
  {
    Max(0, Min(o, Current(times[..o]).first + 60) - Earlier(times[..o], a))
  }

  /** A window lasts 60 seconds. */
  lemma {:induction false} CountsInWindow(times: seq<int>, o: nat)
    requires Nondecreasing(times) && o < |times| && OpensAt(times, o) && times[|times| - 1] <= times[o] + WINDOW
    ensures Current(times) == Window(o, times[o])
  {
    var n := |times| - 1;
    if n > o {
      assert times[..n][..o] == times[..o];
      CountsInWindow(times[..n], o);
    } else {
      assert times[..n] == times[..o];
    }
  }

  lemma {:induction false} AllUpTo(times: seq<int>, o: nat, b: int)
    requires Nondecreasing(times) && o <= |times| && (times != [] ==> times[|times| - 1] <= b)
    ensures CallsFrom(times, o, b) == |times| - o
  {
    if |times| > o {
      AllUpTo(times[..|times| - 1], o, b);
    }
  }

  /** From an opening in the interval on, the first 60 calls in it are dispatched. */
  lemma {:induction false} DispatchedFromOpening(times: seq<int>, o: nat, a: int, b: int)
    requires Run(times) && o < |times| && OpensAt(times, o) && a <= times[o] <= b <= times[o] + WINDOW
    ensures Dispatched(times, a, b) == Dispatched(times[..o], a, b) + Min(MAX_CALLS, CallsFrom(times, o, b))
  {
    var n := |times| - 1;
    var before := times[..n];
    Prefix(times);
    GateIs(times);
    if n == o {
      CountsInWindow(times, o);
      assert CallsFrom(before, o, b) == 0;
    } else {
      assert before[..o] == times[..o];
      DispatchedFromOpening(before, o, a, b);
      if times[n] <= b {
        CountsInWindow(times, o);
        AllUpTo(times, o, b);
        AllUpTo(before, o, b);
      }
    }
  }

  /** No window is opened in [a, b]. */
  ghost predicate NoOpening(times: seq<int>, a: int, b: int) {
    forall o :: 0 <= o < |times| && OpensAt(times, o) ==> !(a <= times[o] <= b)
  }

  /** Then what is dispatched in it are the calls among the first 60 of the window that was current. */
  lemma {:induction false} OneWindowOnly(times: seq<int>, a: int, b: int)
    requires Run(times) && NoOpening(times, a, b) && (times != [] ==> times[|times| - 1] <= b)
    ensures Dispatched(times, a, b) == StillAdmitted(times, |times|, a) <= MAX_CALLS
    ensures Current(times).first <= Earlier(times, a)
  {
    assert times[..|times|] == times;
    if times != [] {
      var n := |times| - 1;
      Prefix(times);
      NoOpeningBefore(times, a, b);
      OneWindowOnly(times[..n], a, b);
      assert times[..n][..n] == times[..n];
      GateIs(times);
      if times[n] < a {
        OutsideInterval(times, a, b);
        AllEarlier(times, a);
      } else {
        assert !OpensAt(times, n);
      }
    }
  }

  lemma NoOpeningBefore(times: seq<int>, a: int, b: int)
    requires NoOpening(times, a, b) && times != []
    ensures NoOpening(times[..|times| - 1], a, b)
  {
    assert forall o :: 0 <= o < |times| - 1 ==> times[..|times| - 1][..o] == times[..o];
  }

  lemma {:induction false} AllEarlier(times: seq<int>, a: int)
    requires Nondecreasing(times) && (times != [] ==> times[|times| - 1] < a)
    ensures Earlier(times, a) == |times|
  {
    if times != [] {
      AllEarlier(times[..|times| - 1], a);
    }
  }

  /** The calls after `b` do not matter. */
  lemma {:induction false} OneWindowBounds(times: seq<int>, a: int, b: int)
    requires Run(times) && NoOpening(times, a, b)
    ensures Dispatched(times, a, b) <= MAX_CALLS
  {
    if times != [] && times[|times| - 1] > b {
      Prefix(times);
      NoOpeningBefore(times, a, b);
      OneWindowBounds(times[..|times| - 1], a, b);
    } else {
      OneWindowOnly(times, a, b);
    }
  }

  lemma {:induction false} PrefixTo(times: seq<int>, o: nat)
    requires Run(times) && o <= |times|
    ensures Run(times[..o])
  {
    assert forall k :: 0 <= k <= o ==> times[..o][..k] == times[..k];
  }

  /** No two windows open in one minute. */
  lemma OnlyOneOpening(times: seq<int>, o: nat, a: int, b: int)
    requires Run(times) && o < |times| && OpensAt(times, o) && a <= times[o] <= b <= a + WINDOW
    ensures NoOpening(times[..o], a, b)
  {
    var before := times[..o];
    forall p | 0 <= p < o && OpensAt(before, p) ensures !(a <= before[p] <= b) {
      assert before[..p] == times[..p];
      if a <= before[p] {
        CountsInWindow(before, p);
      }
    }
  }

  /** What is dispatched in the interval before an opening in it. */
  lemma DispatchedBeforeOpening(times: seq<int>, o: nat, a: int, b: int)
    requires Run(times) && o < |times| && OpensAt(times, o) && a <= times[o] <= b <= a + WINDOW
    ensures Dispatched(times[..o], a, b) == StillAdmitted(times, o, a)
  {
    PrefixTo(times, o);
    OnlyOneOpening(times, o, a, b);
    OneWindowOnly(times[..o], a, b);
    assert times[..o][..o] == times[..o];
  }

  /** The limit is per minute for just the intervals of 60 seconds in which no window opens with so many calls
      behind its opening that, with those before it that the last window still admitted, there are more than 60. */
  lemma MoreThanSixtyIff(times: seq<int>, a: int, b: int)
    requires Run(times) && b <= a + 60
    ensures Dispatched(times, a, b) > 60 <==>
      exists o :: 0 <= o < |times| && OpensAt(times, o) && a <= times[o] <= b
        && StillAdmitted(times, o, a) > 0
        && StillAdmitted(times, o, a) + CallsFrom(times, o, b) > 60
  {
    if NoOpening(times, a, b) {
      OneWindowBounds(times, a, b);
    }
    forall o | 0 <= o < |times| && OpensAt(times, o) && a <= times[o] <= b
      ensures Dispatched(times, a, b) == StillAdmitted(times, o, a) + Min(MAX_CALLS, CallsFrom(times, o, b))
    {
      DispatchedFromOpening(times, o, a, b);
      DispatchedBeforeOpening(times, o, a, b);
    }
  }

  // ---------------------------------------------------------------- both bounds are reached

  function Repeat(t: int, n: nat): seq<int> {
    seq(n, _ => t)
  }

  lemma OneCall(times: seq<int>, t: int, a: int, b: int)
    ensures After(times + [t]) == Tick(After(times), t)
    ensures Dispatched(times + [t], a, b) ==
      Dispatched(times, a, b) + if a <= t <= b && Admits(Tick(After(times), t)) then 1 else 0
  {
    assert (times + [t])[..|times|] == times;
  }

  lemma OneAdmitted(before: seq<int>, t: int, start: int, count: u32, a: int, b: int)
    requires After(before) == Gate(start, count) && t - start <= WINDOW && count < MAX_CALLS && a <= t <= b
    ensures After(before + [t]) == Gate(start, count + 1)
    ensures Dispatched(before + [t], a, b) == Dispatched(before, a, b) + 1
  {
    OneCall(before, t, a, b);
  }

  lemma RepeatMore(times: seq<int>, t: int, n: nat)
    requires n > 0
    ensures times + Repeat(t, n) == times + Repeat(t, n - 1) + [t]
  {
    assert Repeat(t, n) == Repeat(t, n - 1) + [t];
  }

  /** `n` more calls at one moment of the current window, all of them within its limit. */
  lemma {:induction false} Burst(times: seq<int>, t: int, n: nat, a: int, b: int)
    requires t - After(times).start <= WINDOW && After(times).count + n <= MAX_CALLS && a <= t <= b
    ensures After(times + Repeat(t, n)) == Gate(After(times).start, After(times).count + n)
    ensures Dispatched(times + Repeat(t, n), a, b) == Dispatched(times, a, b) + n
  {
    if n == 0 {
      assert times + Repeat(t, 0) == times;
    } else {
      var before := times + Repeat(t, n - 1);
      Burst(times, t, n - 1, a, b);
      OneAdmitted(before, t, After(times).start, After(times).count + n - 1, a, b);
      RepeatMore(times, t, n);
    }
  }

  /** A call that opens a window, and `n` more at the same moment. */
  lemma Opens(times: seq<int>, t: int, n: nat, a: int, b: int)
    requires t - After(times).start > WINDOW && n < MAX_CALLS && a <= t <= b
    ensures After(times + [t] + Repeat(t, n)) == Gate(t, n + 1)
    ensures Dispatched(times + [t] + Repeat(t, n), a, b) == Dispatched(times, a, b) + n + 1
  {
    OneCall(times, t, a, b);
    Burst(times + [t], t, n, a, b);
  }

  lemma OneHundredTwentyAreReached()
    ensures exists times :: Run(times) && Dispatched(times, 1, 61) == 120
  {
    assert After([]) == CLOSED;
    Burst([], 1, 60, 1, 61);
    var first := [] + Repeat(1, 60);
    Opens(first, 61, 59, 1, 61);
    ShortRun(first + [61] + Repeat(61, 59));
  }

  lemma OneHundredNineteenAreReached()
    ensures exists times :: Run(times) && times != [] && times[0] > 60 && Dispatched(times, 101, 161) == 119
  {
    assert [100][..0] == [];
    assert After([100]) == Gate(100, 1) && Dispatched([100], 101, 161) == 0;
    Burst([100], 160, 59, 101, 161);
    var first := [100] + Repeat(160, 59);
    Opens(first, 161, 59, 101, 161);
    var times := first + [161] + Repeat(161, 59);
    ShortRun(times);
    assert times[0] == 100;
  }
}
