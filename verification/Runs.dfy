/** Runs of transition systems, whatever the system: what can be reached, and what stays true on the way. */
module Runs {

  /** A part of a run from `a` to `b`. */
  ghost predicate Path<S(!new)>(step: (S, S) -> bool, p: seq<S>, a: S, b: S) {
    && p != [] && p[0] == a && p[|p| - 1] == b
    && forall k :: 0 < k < |p| ==> step(p[k - 1], p[k])
  }

  ghost predicate Reaches<S(!new)>(step: (S, S) -> bool, a: S, b: S) {
    exists p :: Path(step, p, a, b)
  }

  lemma Stays<S(!new)>(step: (S, S) -> bool, a: S)
    ensures Reaches(step, a, a)
  {
    assert Path(step, [a], a, a);
  }

  lemma Continues<S(!new)>(step: (S, S) -> bool, a: S, b: S, c: S)
    requires Reaches(step, a, b) && Reaches(step, b, c)
    ensures Reaches(step, a, c)
  {
    var p :| Path(step, p, a, b);
    var q :| Path(step, q, b, c);
    var r := p + q[1..];
    forall k | 0 < k < |r| ensures step(r[k - 1], r[k]) {
      if k >= |p| {
        assert r[k] == q[k - |p| + 1] && r[k - 1] == q[k - |p|];
      }
    }
    assert Path(step, r, a, c);
  }

  lemma OneMore<S(!new)>(step: (S, S) -> bool, a: S, b: S, c: S)
    requires Reaches(step, a, b) && step(b, c)
    ensures Reaches(step, a, c)
  {
    assert Path(step, [b, c], b, c);
    Continues(step, a, b, c);
  }

  /** What every step keeps holds wherever a run leads. */
  lemma {:induction false} Kept<S(!new)>(step: (S, S) -> bool, inv: S -> bool, p: seq<S>, a: S, b: S)
    requires Path(step, p, a, b) && inv(a)
    requires forall s, t :: inv(s) && step(s, t) ==> inv(t)
    ensures inv(b)
    decreases |p|
  {
    if |p| > 1 {
      var n := |p| - 1;
      Kept(step, inv, p[..n], a, p[n - 1]);
    }
  }

  lemma KeptOn<S(!new)>(step: (S, S) -> bool, inv: S -> bool, a: S, b: S)
    requires Reaches(step, a, b) && inv(a)
    requires forall s, t :: inv(s) && step(s, t) ==> inv(t)
    ensures inv(b)
  {
    var p :| Path(step, p, a, b);
    Kept(step, inv, p, a, b);
  }

  /** A larger relation reaches what a smaller one does. */
  lemma Wider<S(!new)>(narrow: (S, S) -> bool, wide: (S, S) -> bool, a: S, b: S)
    requires Reaches(narrow, a, b) && forall s, t :: narrow(s, t) ==> wide(s, t)
    ensures Reaches(wide, a, b)
  {
    var p :| Path(narrow, p, a, b);
    assert Path(wide, p, a, b);
  }
}
