/** The list of client pools under its mutex: the listener that places each accepted socket, the announcer of
    new blocks, and the threads of all the pools, in any interleaving. */
module PoolServer {
  import opened Base
  import opened ClientPool

  /** What the list is being walked for. */
  datatype Job = Listen(fd: nat) | Announce

  /** The thread that holds the list's mutex, if any. */
  datatype Side =
    | Idle
    | Iterate(job: Job, k: nat)    // at the loop test of iterate_pools
    | Call(job: Job, k: nat)       // pool k is not finished; the functor is about to be called on it
    | Chosen(fd: nat, k: nat)      // about to count the socket in pool k
    | Reserved(fd: nat, k: nat)    // about to post it

  /** The rest records the walk, also when it is over: the pools at its beginning; the pools found unfinished,
      as the loop test found them; those the functor was called on, as it found them; those erased, as they
      then were; and the pool added at its end.  `erased` records all the pools ever erased. */
  datatype State = State(
    pools: seq<Pool>, side: Side, nextId: nat,
    start: seq<nat>, visited: seq<Pool>, seen: seq<Pool>, gone: seq<Pool>, added: seq<nat>, erased: seq<Pool>)

  datatype Event =
    | Accept(fd: nat)
    | NewBlock
    | ServerStep
    | PoolStep(i: nat, e: ClientPool.Event)

  const INIT := State([], Idle, 0, [], [], [], [], [], [])

  function Ids(pools: seq<Pool>): (ids: seq<nat>)
    ensures |ids| == |pools| && forall i :: 0 <= i < |ids| ==> ids[i] == pools[i].id
  {
    seq(|pools|, i requires 0 <= i < |pools| => pools[i].id)
  }

  predicate Enabled(s: State, e: Event) {
    match e
    case Accept(_) => s.side.Idle?
    case NewBlock => s.side.Idle?
    case ServerStep => !s.side.Idle? && (s.side.Iterate? || s.side.k < |s.pools|)
    case PoolStep(i, pe) => i < |s.pools| && ClientPool.Enabled(s.pools[i], pe)
  }

  function Begin(s: State, job: Job): State {
    s.(side := Iterate(job, 0), start := Ids(s.pools), visited := [], seen := [], gone := [], added := [])
  }

  function Next(size: nat, s: State, e: Event): State
    requires Enabled(s, e)
  {
    match e
    case Accept(fd) => Begin(s, Listen(fd))
    case NewBlock => Begin(s, Announce)
    case ServerStep => NextServer(size, s)
    case PoolStep(i, pe) => s.(pools := s.pools[i := ClientPool.Next(s.pools[i], pe)])
  }

  function NextServer(size: nat, s: State): State
    requires Enabled(s, ServerStep)
  {
    match s.side
    case Iterate(job, k) =>
      if k >= |s.pools| then
        match job {
          case Listen(fd) =>
            s.(pools := s.pools + [Fresh(s.nextId, size)], nextId := s.nextId + 1, added := [s.nextId],
               side := Chosen(fd, |s.pools|))
          case Announce => s.(side := Idle)
        }
      else if s.pools[k].finished then
        s.(pools := s.pools[..k] + s.pools[k + 1..], gone := s.gone + [s.pools[k]], erased := s.erased + [s.pools[k]])
      else s.(side := Call(job, k), visited := s.visited + [s.pools[k]])
    case Call(Listen(fd), k) =>
      s.(side := if IsFull(s.pools[k]) then Iterate(Listen(fd), k + 1) else Chosen(fd, k), seen := s.seen + [s.pools[k]])
    case Call(Announce, k) =>
      s.(pools := s.pools[k := Post(s.pools[k], Msg.NewBlock)], side := Iterate(Announce, k + 1),
         seen := s.seen + [s.pools[k]])
    case Chosen(fd, k) => s.(pools := s.pools[k := Reserve(s.pools[k])], side := Reserved(fd, k))
    case Reserved(fd, k) => s.(pools := s.pools[k := Post(s.pools[k], Add(fd))], side := Idle)
  }

  // ---------------------------------------------------------------- counts and lifetimes

  function ReservedIn(s: State, i: nat): nat {
    if s.side.Reserved? && s.side.k == i then 1 else 0
  }

  ghost predicate PoolsOk(size: nat, s: State) {
    && (forall i :: 0 <= i < |s.pools| ==> Counted(s.pools[i], size, ReservedIn(s, i)))
    && (s.side.Iterate? ==> s.side.k <= |s.pools|)
    && (s.side.Call? || s.side.Reserved? || s.side.Chosen? ==> s.side.k < |s.pools|)
    && (s.side.Chosen? ==> s.pools[s.side.k].active < size)
    && (forall i :: 0 <= i < |s.erased| ==> s.erased[i].finished && Counted(s.erased[i], size, 0))
  }

  lemma NextPoolsOk(size: nat, s: State, e: Event)
    requires size > 0 && PoolsOk(size, s) && Enabled(s, e)
    ensures PoolsOk(size, Next(size, s, e))
  {
    match e
    case PoolStep(i, pe) => NextCounted(s.pools[i], pe, size, ReservedIn(s, i));
    case ServerStep => ServerPoolsOk(size, s);
    case _ =>
      var t := Next(size, s, e);
      assert forall i :: 0 <= i < |t.pools| ==> Counted(s.pools[i], size, ReservedIn(s, i));
  }

  lemma ServerPoolsOk(size: nat, s: State)
    requires size > 0 && PoolsOk(size, s) && Enabled(s, ServerStep)
    ensures PoolsOk(size, NextServer(size, s))
  {
    if s.side.Iterate? {
      IteratePoolsOk(size, s);
    } else {
      var t, k := NextServer(size, s), s.side.k;
      forall i | 0 <= i < |t.pools| ensures Counted(t.pools[i], size, ReservedIn(t, i)) {
        assert Counted(s.pools[i], size, ReservedIn(s, i));
        if i == k {
          OwnPoolOk(size, s);
        }
      }
    }
  }

  lemma OwnPoolOk(size: nat, s: State)
    requires size > 0 && PoolsOk(size, s) && Enabled(s, ServerStep) && !s.side.Iterate?
    ensures var t := NextServer(size, s);
      s.side.k < |t.pools| && Counted(t.pools[s.side.k], size, ReservedIn(t, s.side.k))
  {
    var p := s.pools[s.side.k];
    assert Counted(p, size, ReservedIn(s, s.side.k));
    match s.side
    case Call(_, _) => PostCounted(p, size, 0, Msg.NewBlock);
    case Chosen(_, _) => ReserveCounted(p, size);
    case Reserved(fd, _) => PostCounted(p, size, 1, Add(fd));
  }

  lemma IteratePoolsOk(size: nat, s: State)
    requires size > 0 && PoolsOk(size, s) && s.side.Iterate?
    ensures PoolsOk(size, NextServer(size, s))
  {
    var t, k := NextServer(size, s), s.side.k;
    FreshCounted(s.nextId, size);
    forall i | 0 <= i < |t.pools| ensures Counted(t.pools[i], size, ReservedIn(t, i)) {
      var j := if |t.pools| < |s.pools| && i >= k then i + 1 else i;
      assert j < |s.pools| ==> Counted(s.pools[j], size, ReservedIn(s, j)) && t.pools[i] == s.pools[j];
    }
    assert k < |s.pools| ==> Counted(s.pools[k], size, ReservedIn(s, k));
  }

  // ---------------------------------------------------------------- the walk

  function Without(ids: seq<nat>, gone: set<nat>): seq<nat> {
    if ids == [] then []
    else (if ids[0] in gone then [] else [ids[0]]) + Without(ids[1..], gone)
  }

  ghost predicate Distinct(ids: seq<nat>) {
    forall i, j :: 0 <= i < j < |ids| ==> ids[i] != ids[j]
  }

  function IdSet(pools: seq<Pool>): set<nat> {
    set p | p in pools :: p.id
  }

  /** The list is what it was at the beginning of the walk less what the walk erased, and what it added. */
  ghost predicate ListOk(s: State) {
    && Distinct(Ids(s.pools))
    && (forall i :: 0 <= i < |s.pools| ==> s.pools[i].id < s.nextId)
    && Ids(s.pools) == Without(s.start, IdSet(s.gone)) + s.added
    && (s.side.Iterate? || s.side.Call? ==> s.added == [])
  }

  /** Exactly the first pools were visited, in order, each found unfinished. */
  ghost predicate VisitedOk(s: State) {
    && |s.visited| <= |s.pools| && Ids(s.visited) == Ids(s.pools)[..|s.visited|]
    && (forall i :: 0 <= i < |s.visited| ==> !s.visited[i].finished)
    && |s.seen| <= |s.visited| && Ids(s.seen) == Ids(s.visited)[..|s.seen|]
  }

  /** How far the walk is.  The listener goes on from full pools only; it ends on one that it found not full,
      or on a new one behind them all. */
  ghost predicate SideOk(s: State) {
    match s.side
    case Idle => true
    case Iterate(job, k) => |s.visited| == |s.seen| == k && (job.Listen? ==> AllFull(s.seen))
    case Call(job, k) => |s.visited| == k + 1 && |s.seen| == k && (job.Listen? ==> AllFull(s.seen))
    case Chosen(_, k) => ChosenOk(s, k)
    case Reserved(_, k) => ChosenOk(s, k)
  }

  ghost predicate AllFull(pools: seq<Pool>) {
    forall i :: 0 <= i < |pools| ==> IsFull(pools[i])
  }

  ghost predicate ChosenOk(s: State, k: nat) {
    if s.added == [] then |s.seen| == |s.visited| == k + 1 && AllFull(s.seen[..k]) && !IsFull(s.seen[k])
    else |s.seen| == |s.visited| == k && k + 1 == |s.pools| && AllFull(s.seen)
  }

  /** What the walk erased had finished, and is what was erased last. */
  ghost predicate GoneOk(s: State) {
    && |s.gone| <= |s.erased| && s.erased[|s.erased| - |s.gone|..] == s.gone
    && (forall i :: 0 <= i < |s.gone| ==> s.gone[i].finished)
  }

  ghost predicate WalkOk(s: State) {
    ListOk(s) && VisitedOk(s) && SideOk(s) && GoneOk(s)
  }

  lemma {:induction false} WithoutNothing(ids: seq<nat>)
    ensures Without(ids, {}) == ids
  {
    if ids != [] {
      WithoutNothing(ids[1..]);
    }
  }

  lemma {:induction false} WithoutMore(ids: seq<nat>, gone: set<nat>, x: nat)
    ensures Without(ids, gone + {x}) == Without(Without(ids, gone), {x})
  {
    if ids != [] {
      WithoutMore(ids[1..], gone, x);
      var rest := Without(ids[1..], gone);
      assert ([ids[0]] + rest)[1..] == rest;
      assert Without([ids[0]] + rest, {x}) == (if ids[0] == x then [] else [ids[0]]) + Without(rest, {x});
      assert [] + rest == rest && [] + Without(rest, {x}) == Without(rest, {x});
    }
  }

  lemma {:induction false} WithoutOne(ids: seq<nat>, k: nat)
    requires Distinct(ids) && k < |ids|
    ensures Without(ids, {ids[k]}) == ids[..k] + ids[k + 1..]
  {
    var x := ids[k];
    if k == 0 {
      WithoutAbsent(ids[1..], x);
    } else {
      WithoutOne(ids[1..], k - 1);
      assert ids[0] != x;
      assert ids[..k] + ids[k + 1..] == [ids[0]] + (ids[1..][..k - 1] + ids[1..][k..]);
    }
  }

  lemma {:induction false} WithoutAbsent(ids: seq<nat>, x: nat)
    requires x !in ids
    ensures Without(ids, {x}) == ids
  {
    if ids != [] {
      WithoutAbsent(ids[1..], x);
    }
  }

  lemma NextWalkOk(size: nat, s: State, e: Event)
    requires WalkOk(s) && Enabled(s, e)
    ensures WalkOk(Next(size, s, e))
  {
    var t := Next(size, s, e);
    match e
    case PoolStep(i, pe) =>
      assert t.pools[i].id == s.pools[i].id;
      assert Ids(t.pools) == Ids(s.pools);
    case ServerStep => ServerWalkOk(size, s);
    case Accept(fd) => BeginWalkOk(s, Listen(fd));
    case NewBlock => BeginWalkOk(s, Announce);
  }

  lemma BeginWalkOk(s: State, job: Job)
    requires WalkOk(s)
    ensures WalkOk(Begin(s, job))
  {
    assert IdSet([]) == {};
    WithoutNothing(Ids(s.pools));
  }

  lemma ServerWalkOk(size: nat, s: State)
    requires WalkOk(s) && Enabled(s, ServerStep)
    ensures WalkOk(NextServer(size, s))
  {
    if s.side.Iterate? {
      if s.side.k >= |s.pools| {
        EndWalkOk(size, s);
      } else if s.pools[s.side.k].finished {
        EraseWalkOk(size, s);
      } else {
        VisitWalkOk(size, s);
      }
    } else if s.side.Call? {
      CallWalkOk(size, s);
    } else {
      var t := NextServer(size, s);
      assert t.pools[s.side.k].id == s.pools[s.side.k].id;
      assert Ids(t.pools) == Ids(s.pools);
    }
  }

  lemma EndWalkOk(size: nat, s: State)
    requires WalkOk(s) && s.side.Iterate? && s.side.k >= |s.pools|
    ensures WalkOk(NextServer(size, s))
  {
    var t := NextServer(size, s);
    if s.side.job.Listen? {
      assert Ids(t.pools) == Ids(s.pools) + [s.nextId];
    }
  }

  lemma VisitWalkOk(size: nat, s: State)
    requires WalkOk(s) && s.side.Iterate? && s.side.k < |s.pools| && !s.pools[s.side.k].finished
    ensures WalkOk(NextServer(size, s))
  {
    var t := NextServer(size, s);
    assert Ids(t.visited) == Ids(s.visited) + [s.pools[s.side.k].id];
  }

  lemma CallWalkOk(size: nat, s: State)
    requires WalkOk(s) && s.side.Call? && s.side.k < |s.pools|
    ensures WalkOk(NextServer(size, s))
  {
    var t, k := NextServer(size, s), s.side.k;
    assert t.pools[k].id == s.pools[k].id;
    assert Ids(t.pools) == Ids(s.pools);
    assert Ids(s.visited)[k] == Ids(s.pools)[k];
    assert Ids(t.seen) == Ids(s.seen) + [s.pools[k].id];
    assert t.seen[..k] == s.seen;
  }

  lemma EraseWalkOk(size: nat, s: State)
    requires WalkOk(s) && s.side.Iterate? && s.side.k < |s.pools| && s.pools[s.side.k].finished
    ensures WalkOk(NextServer(size, s))
  {
    var t, k := NextServer(size, s), s.side.k;
    EraseListOk(size, s);
    IdsErased(s.pools, k);
    EraseGoneOk(s, t);
  }

  lemma EraseListOk(size: nat, s: State)
    requires ListOk(s) && s.side.Iterate? && s.side.k < |s.pools| && s.pools[s.side.k].finished
    ensures ListOk(NextServer(size, s))
  {
    var t, ids, k := NextServer(size, s), Ids(s.pools), s.side.k;
    IdsErased(s.pools, k);
    StillDistinct(ids, k);
    assert forall i :: 0 <= i < |t.pools| ==> t.pools[i] in s.pools;
    ErasedIds(s, k);
  }

  lemma ErasedIds(s: State, k: nat)
    requires ListOk(s) && s.side.Iterate? && k < |s.pools|
    ensures Ids(s.pools)[..k] + Ids(s.pools)[k + 1..] == Without(s.start, IdSet(s.gone + [s.pools[k]])) + s.added
  {
    var ids := Ids(s.pools);
    NothingAdded(Without(s.start, IdSet(s.gone)), s.added);
    WithoutAnother(s.start, IdSet(s.gone), ids, k);
    IdSetMore(s.gone, s.pools[k]);
    NothingAdded(Without(s.start, IdSet(s.gone + [s.pools[k]])), s.added);
  }

  lemma NothingAdded(ids: seq<nat>, added: seq<nat>)
    requires added == []
    ensures ids + added == ids
  {
  }

  lemma WithoutAnother(start: seq<nat>, gone: set<nat>, ids: seq<nat>, k: nat)
    requires ids == Without(start, gone) && Distinct(ids) && k < |ids|
    ensures ids[..k] + ids[k + 1..] == Without(start, gone + {ids[k]})
  {
    WithoutOne(ids, k);
    WithoutMore(start, gone, ids[k]);
  }

  lemma IdSetMore(pools: seq<Pool>, p: Pool)
    ensures IdSet(pools + [p]) == IdSet(pools) + {p.id}
  {
    assert forall q :: q in pools + [p] <==> q in pools || q == p;
  }

  lemma EraseGoneOk(s: State, t: State)
    requires GoneOk(s) && s.side.Iterate? && s.side.k < |s.pools| && s.pools[s.side.k].finished
    requires t.gone == s.gone + [s.pools[s.side.k]] && t.erased == s.erased + [s.pools[s.side.k]]
    ensures GoneOk(t)
  {
  }

  lemma IdsErased(pools: seq<Pool>, k: nat)
    requires k < |pools|
    ensures Ids(pools[..k] + pools[k + 1..]) == Ids(pools)[..k] + Ids(pools)[k + 1..]
    ensures Ids(pools[..k] + pools[k + 1..])[..k] == Ids(pools)[..k]
  {
  }

  lemma StillDistinct(ids: seq<nat>, k: nat)
    requires Distinct(ids) && k < |ids|
    ensures Distinct(ids[..k] + ids[k + 1..])
  {
  }

  // ---------------------------------------------------------------- runs

  ghost predicate StepTo(size: nat, s: State, t: State) {
    exists e :: Enabled(s, e) && t == Next(size, s, e)
  }

  ghost function Steps(size: nat): (State, State) -> bool {
    (s, t) => StepTo(size, s, t)
  }

  ghost predicate Run(size: nat, run: seq<State>) {
    && size > 0 && run != [] && run[0] == INIT
    && forall k :: 0 < k < |run| ==> StepTo(size, run[k - 1], run[k])
  }

  lemma {:induction false} RunOk(size: nat, run: seq<State>, k: nat)
    requires Run(size, run) && k < |run|
    ensures PoolsOk(size, run[k]) && WalkOk(run[k])
  {
    if k > 0 {
      RunOk(size, run, k - 1);
      assert StepTo(size, run[k - 1], run[k]);
      var e :| Enabled(run[k - 1], e) && run[k] == Next(size, run[k - 1], e);
      NextPoolsOk(size, run[k - 1], e);
      NextWalkOk(size, run[k - 1], e);
    }
  }

  /** In every interleaving the counter of every pool is the number of its live slots, queued add messages,
      the client in its thread's hands and the one reserved for it; it never exceeds the pool's size, so a
      pool that does not look full has room; and a thread about to place a client finds a free slot. */
  lemma CountsAgree(size: nat, run: seq<State>, k: nat, i: nat)
    requires Run(size, run) && k < |run| && i < |run[k].pools|
    ensures var p := run[k].pools[i];
      && p.active == Live(p.slots) + Adds(p.pipe) + InHand(p.thread) + ReservedIn(run[k], i)
      && 0 <= p.active <= size == |p.slots|
      && (!IsFull(p) <==> p.active < size)
      && !p.thread.Overflow?
      && (p.thread.Adding? ==> FirstFree(p.slots) < size)
  {
    RunOk(size, run, k);
    assert Counted(run[k].pools[i], size, ReservedIn(run[k], i));
    LiveBounds(run[k].pools[i].slots);
  }

  /** When a pool thread's loop test reads zero, every slot is empty and no add message is queued. */
  lemma ZeroMeansEmpty(size: nat, run: seq<State>, k: nat, i: nat)
    requires Run(size, run) && k < |run| && i < |run[k].pools|
    requires run[k].pools[i].thread.Checking? && run[k].pools[i].active <= 0
    ensures forall j :: 0 <= j < |run[k].pools[i].slots| ==> run[k].pools[i].slots[j].None?
    ensures forall j :: 0 <= j < |run[k].pools[i].pipe| ==> run[k].pools[i].pipe[j] == Msg.NewBlock
  {
    CountsAgree(size, run, k, i);
    LiveBounds(run[k].pools[i].slots);
    NoAdds(run[k].pools[i].pipe);
  }

  /** Every pool that was ever erased had finished, and held no client; what its counter still counted are
      the sockets posted to it after its thread's last look, which no thread will ever place. */
  lemma OnlyEmptyPoolsAreErased(size: nat, run: seq<State>, k: nat, i: nat)
    requires Run(size, run) && k < |run| && i < |run[k].erased|
    ensures run[k].erased[i].finished && run[k].erased[i].thread == Ended
    ensures forall j :: 0 <= j < |run[k].erased[i].slots| ==> run[k].erased[i].slots[j].None?
    ensures run[k].erased[i].active == Adds(run[k].erased[i].pipe)
  {
    RunOk(size, run, k);
    assert Counted(run[k].erased[i], size, 0);
    LiveBounds(run[k].erased[i].slots);
  }

  /** A walk calls its functor on the surviving pools in order, each found unfinished by the loop test, at its
      end on all of them; the survivors are the pools it began with less those it erased, and those had all
      finished. */
  lemma WalkVisitsSurvivorsInOrder(size: nat, run: seq<State>, k: nat)
    requires Run(size, run) && k < |run| && run[k].side.Iterate?
    ensures var s := run[k];
      && Ids(s.pools) == Without(s.start, IdSet(s.gone))
      && s.side.k <= |s.pools| && Ids(s.seen) == Ids(s.visited) == Ids(s.pools)[..s.side.k]
      && (s.side.k == |s.pools| ==> Ids(s.seen) == Without(s.start, IdSet(s.gone)))
      && (forall i :: 0 <= i < |s.visited| ==> !s.visited[i].finished)
      && (forall i :: 0 <= i < |s.gone| ==> s.gone[i].finished)
  {
    RunOk(size, run, k);
  }

  /** The listener's walk stops at the first unfinished pool that does not look full, having found all those
      before it full, or ends on a pool added at the back, having found them all full; and the pool it then
      counts the socket in still has room, so no count overflows. */
  lemma ListenerChoosesAPoolWithRoom(size: nat, run: seq<State>, k: nat)
    requires Run(size, run) && k < |run| && run[k].side.Chosen?
    ensures var s, c := run[k], run[k].side.k;
      && c < |s.pools| && s.pools[c].active < size
      && |s.seen| <= |s.pools| && Ids(s.seen) == Ids(s.visited) == Ids(s.pools)[..|s.seen|]
      && (forall i :: 0 <= i < |s.visited| ==> !s.visited[i].finished)
      && (if |s.seen| == c + 1 then AllFull(s.seen[..c]) && !IsFull(s.seen[c])
          else |s.seen| == c == |s.pools| - 1 && AllFull(s.seen))
  {
    RunOk(size, run, k);
  }
}
