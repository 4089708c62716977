/** The blocking queue between clients and hash threads: a list, a mutex and a condition variable, used by
    any number of producers and consumers interleaved at every lock operation, wait and notification.  A
    notification wakes one arbitrary sleeper, if there is one; a sleeper may also wake by itself. */
module Thdq {
  import opened Base

  /** `push`: take the mutex, queue the item, release, notify. */
  datatype Producer<T> =
    | Arriving(item: T)
    | Inside(item: T)
    | Queued                       // still holding the mutex
    | Notifying
    | Finished
  {
    predicate HoldsMutex() {
      Inside? || Queued?
    }

    /** Has queued an item and not yet notified. */
    predicate Owes() {
      Queued? || Notifying?
    }
  }

  /** `pop`: take the mutex; while the queue is empty, wait; take the first item; release.  `again` marks a
      consumer that was woken and has not looked at the queue since. */
  datatype Consumer<T> =
    | Away
    | Entering(again: bool)
    | Testing(again: bool)
    | Asleep
    | Leaving(item: T)
  {
    predicate HoldsMutex() {
      Testing? || Leaving?
    }

    predicate Woken() {
      (Entering? || Testing?) && again
    }
  }

  datatype Owner = P(p: nat) | C(c: nat)

  /** `pushed` and `popped` record the items in the order they went in and came out, `takers` the consumers that
      took them. */
  datatype State<T> = State(
    queue: seq<T>, mutex: Option<Owner>,
    producers: seq<Producer<T>>, consumers: seq<Consumer<T>>,
    pushed: seq<T>, popped: seq<T>, takers: seq<nat>)

  datatype Event<T> =
    | Push(item: T)
    | LockP(p: nat)
    | Enqueue(p: nat)
    | UnlockP(p: nat)
    | Notify(p: nat, sleeper: Option<nat>)
    | Call(c: nat)
    | LockC(c: nat)
    | Test(c: nat)
    | WakeUp(c: nat)
    | UnlockC(c: nat)

  function Init<T>(consumers: nat): State<T> {
    State([], None, [], seq(consumers, _ => Away), [], [], [])
  }

  predicate SomeoneSleeps<T(!new)>(s: State<T>) {
    exists c :: 0 <= c < |s.consumers| && s.consumers[c].Asleep?
  }

  predicate Enabled<T(!new)>(s: State<T>, e: Event<T>) {
    match e
    case Push(_) => true
    case LockP(p) => p < |s.producers| && s.producers[p].Arriving? && s.mutex == None
    case Enqueue(p) => p < |s.producers| && s.producers[p].Inside?
    case UnlockP(p) => p < |s.producers| && s.producers[p].Queued?
    case Notify(p, k) =>
      && p < |s.producers| && s.producers[p].Notifying?
      && if k.Some? then k.value < |s.consumers| && s.consumers[k.value].Asleep? else !SomeoneSleeps(s)
    case Call(c) => c < |s.consumers| && s.consumers[c].Away?
    case LockC(c) => c < |s.consumers| && s.consumers[c].Entering? && s.mutex == None
    case Test(c) => c < |s.consumers| && s.consumers[c].Testing?
    case WakeUp(c) => c < |s.consumers| && s.consumers[c].Asleep?
    case UnlockC(c) => c < |s.consumers| && s.consumers[c].Leaving?
  }

  function Next<T(!new)>(s: State<T>, e: Event<T>): State<T>
    requires Enabled(s, e)
  {
    match e
    case Push(item) => s.(producers := s.producers + [Arriving(item)])
    case LockP(p) => s.(producers := s.producers[p := Inside(s.producers[p].item)], mutex := Some(P(p)))
    case Enqueue(p) =>
      var item := s.producers[p].item;
      s.(producers := s.producers[p := Queued], queue := s.queue + [item], pushed := s.pushed + [item])
    case UnlockP(p) => s.(producers := s.producers[p := Notifying], mutex := None)
    case Notify(p, k) =>
      s.(producers := s.producers[p := Finished],
         consumers := if k.Some? then s.consumers[k.value := Entering(true)] else s.consumers)
    case Call(c) => s.(consumers := s.consumers[c := Entering(false)])
    case LockC(c) => s.(consumers := s.consumers[c := Testing(s.consumers[c].again)], mutex := Some(C(c)))
    case Test(c) =>
      if s.queue == [] then s.(consumers := s.consumers[c := Asleep], mutex := None)
      else s.(consumers := s.consumers[c := Leaving(s.queue[0])],
              queue := s.queue[1..], popped := s.popped + [s.queue[0]], takers := s.takers + [c])
    case WakeUp(c) => s.(consumers := s.consumers[c := Entering(true)])
    case UnlockC(c) => s.(consumers := s.consumers[c := Away], mutex := None)
  }

  function Owing<T>(ps: seq<Producer<T>>): nat {
    if ps == [] then 0 else (if ps[0].Owes() then 1 else 0) + Owing(ps[1..])
  }

  function Awake<T>(cs: seq<Consumer<T>>): nat {
    if cs == [] then 0 else (if cs[0].Woken() then 1 else 0) + Awake(cs[1..])
  }

  lemma {:induction false} OwingUpdate<T>(ps: seq<Producer<T>>, k: nat, x: Producer<T>)
    requires k < |ps|
    ensures Owing(ps[k := x]) + (if ps[k].Owes() then 1 else 0) == Owing(ps) + if x.Owes() then 1 else 0
  {
    if k > 0 {
      assert ps[k := x][1..] == ps[1..][k - 1 := x];
      OwingUpdate(ps[1..], k - 1, x);
    } else {
      assert ps[k := x][1..] == ps[1..];
    }
  }

  lemma {:induction false} OwingAppend<T>(ps: seq<Producer<T>>, x: Producer<T>)
    ensures Owing(ps + [x]) == Owing(ps) + if x.Owes() then 1 else 0
  {
    if ps == [] {
      assert ps + [x] == [x];
    } else {
      assert (ps + [x])[1..] == ps[1..] + [x];
      OwingAppend(ps[1..], x);
    }
  }

  lemma {:induction false} AwakeUpdate<T>(cs: seq<Consumer<T>>, k: nat, x: Consumer<T>)
    requires k < |cs|
    ensures Awake(cs[k := x]) + (if cs[k].Woken() then 1 else 0) == Awake(cs) + if x.Woken() then 1 else 0
  {
    if k > 0 {
      assert cs[k := x][1..] == cs[1..][k - 1 := x];
      AwakeUpdate(cs[1..], k - 1, x);
    } else {
      assert cs[k := x][1..] == cs[1..];
    }
  }

  lemma {:induction false} NobodyAwake<T>(cs: seq<Consumer<T>>)
    ensures Awake(cs) == 0 <==> forall c :: 0 <= c < |cs| ==> !cs[c].Woken()
  {
    if cs != [] {
      NobodyAwake(cs[1..]);
      assert forall c :: 0 < c < |cs| ==> cs[c] == cs[1..][c - 1];
      assert forall c :: 0 <= c < |cs| - 1 ==> cs[1..][c] == cs[c + 1];
    }
  }

  lemma {:induction false} NobodyOwes<T>(ps: seq<Producer<T>>)
    ensures Owing(ps) == 0 <==> forall p :: 0 <= p < |ps| ==> !ps[p].Owes()
  {
    if ps != [] {
      NobodyOwes(ps[1..]);
      assert forall p :: 0 < p < |ps| ==> ps[p] == ps[1..][p - 1];
      assert forall p :: 0 <= p < |ps| - 1 ==> ps[1..][p] == ps[p + 1];
    }
  }

  ghost predicate Inv<T(!new)>(s: State<T>) {
    && s.pushed == s.popped + s.queue
    && Excluded(s)
    && TakenOk(s)
    && (SomeoneSleeps(s) ==> |s.queue| <= Owing(s.producers) + Awake(s.consumers))
  }

  lemma InitInv<T(!new)>(consumers: nat)
    ensures Inv(Init<T>(consumers))
  {
  }

  ghost predicate Excluded<T(!new)>(s: State<T>) {
    && (forall p: nat :: p < |s.producers| && s.producers[p].HoldsMutex() ==> s.mutex == Some(P(p)))
    && (forall c: nat :: c < |s.consumers| && s.consumers[c].HoldsMutex() ==> s.mutex == Some(C(c)))
  }

  lemma NextExcluded<T(!new)>(s: State<T>, e: Event<T>)
    requires Excluded(s) && Enabled(s, e)
    ensures Excluded(Next(s, e))
  {
  }

  /** Every item popped has one taker; a consumer that is leaving has taken the last. */
  ghost predicate TakenOk<T(!new)>(s: State<T>) {
    && |s.takers| == |s.popped|
    && (forall k :: 0 <= k < |s.takers| ==> s.takers[k] < |s.consumers|)
    && (forall c: nat :: c < |s.consumers| && s.consumers[c].Leaving? ==>
          s.popped != [] && s.takers[|s.takers| - 1] == c && s.popped[|s.popped| - 1] == s.consumers[c].item)
  }

  lemma NextTakenOk<T(!new)>(s: State<T>, e: Event<T>)
    requires TakenOk(s) && Excluded(s) && Enabled(s, e)
    ensures TakenOk(Next(s, e))
  {
  }

  lemma NextOrder<T(!new)>(s: State<T>, e: Event<T>)
    requires s.pushed == s.popped + s.queue && Enabled(s, e)
    ensures Next(s, e).pushed == Next(s, e).popped + Next(s, e).queue
  {
  }

  lemma NextWake<T(!new)>(s: State<T>, e: Event<T>)
    requires (SomeoneSleeps(s) ==> |s.queue| <= Owing(s.producers) + Awake(s.consumers)) && Enabled(s, e)
    ensures SomeoneSleeps(Next(s, e)) ==>
      |Next(s, e).queue| <= Owing(Next(s, e).producers) + Awake(Next(s, e).consumers)
  {
    Counts(s, e);
    var t := Next(s, e);
    if SomeoneSleeps(t) && !(e.Test? && s.queue == []) {
      var c :| 0 <= c < |t.consumers| && t.consumers[c].Asleep?;
      assert s.consumers[c].Asleep?;
    }
  }

  lemma NextInv<T(!new)>(s: State<T>, e: Event<T>)
    requires Inv(s) && Enabled(s, e)
    ensures Inv(Next(s, e))
  {
    NextExcluded(s, e);
    NextTakenOk(s, e);
    NextOrder(s, e);
    NextWake(s, e);
  }

  /** How the two counts change: `Enqueue` adds a debt, `Notify` turns it into a woken consumer if anyone
      sleeps, and a woken consumer stops counting when it looks at the queue. */
  lemma Counts<T(!new)>(s: State<T>, e: Event<T>)
    requires Enabled(s, e)
    ensures Owing(Next(s, e).producers) ==
      Owing(s.producers) + (if e.Enqueue? then 1 else 0) - (if e.Notify? then 1 else 0)
    ensures Awake(Next(s, e).consumers) ==
      Awake(s.consumers) + (if e.WakeUp? || (e.Notify? && e.sleeper.Some?) then 1 else 0)
        - (if e.Test? && s.consumers[e.c].again then 1 else 0)
  {
    var t := Next(s, e);
    match e
    case Push(item) => OwingAppend(s.producers, Arriving(item));
    case LockP(p) => OwingUpdate(s.producers, p, t.producers[p]);
    case Enqueue(p) => OwingUpdate(s.producers, p, t.producers[p]);
    case UnlockP(p) => OwingUpdate(s.producers, p, t.producers[p]);
    case Notify(p, k) =>
      OwingUpdate(s.producers, p, t.producers[p]);
      if k.Some? {
        AwakeUpdate(s.consumers, k.value, t.consumers[k.value]);
      }
    case Call(c) => AwakeUpdate(s.consumers, c, t.consumers[c]);
    case LockC(c) => AwakeUpdate(s.consumers, c, t.consumers[c]);
    case Test(c) => AwakeUpdate(s.consumers, c, t.consumers[c]);
    case WakeUp(c) => AwakeUpdate(s.consumers, c, t.consumers[c]);
    case UnlockC(c) => AwakeUpdate(s.consumers, c, t.consumers[c]);
  }

  ghost predicate StepTo<T(!new)>(s: State<T>, t: State<T>) {
    exists e :: Enabled(s, e) && t == Next(s, e)
  }

  ghost function Steps<T(!new)>(): (State<T>, State<T>) -> bool {
    (s, t) => StepTo(s, t)
  }

  ghost predicate Run<T(!new)>(consumers: nat, run: seq<State<T>>) {
    && run != [] && run[0] == Init(consumers)
    && forall k :: 0 < k < |run| ==> StepTo(run[k - 1], run[k])
  }

  lemma {:induction false} RunInv<T(!new)>(consumers: nat, run: seq<State<T>>, k: nat)
    requires Run(consumers, run) && k < |run|
    ensures Inv(run[k])
  {
    if k == 0 {
      InitInv<T>(consumers);
    } else {
      RunInv(consumers, run, k - 1);
      assert StepTo(run[k - 1], run[k]);
      var e :| Enabled(run[k - 1], e) && run[k] == Next(run[k - 1], e);
      NextInv(run[k - 1], e);
    }
  }

  /** No wake-up is lost: while a consumer sleeps, no more items are queued than there are notifications to
      come and woken consumers still to look; so a sleeper and a queued item never wait for each other. */
  lemma NoLostWakeUp<T(!new)>(consumers: nat, run: seq<State<T>>, k: nat)
    requires Run(consumers, run) && k < |run|
    ensures SomeoneSleeps(run[k]) ==> |run[k].queue| <= Owing(run[k].producers) + Awake(run[k].consumers)
    ensures SomeoneSleeps(run[k]) && run[k].queue != [] ==>
      || (exists p :: 0 <= p < |run[k].producers| && run[k].producers[p].Owes())
      || (exists c :: 0 <= c < |run[k].consumers| && run[k].consumers[c].Woken())
  {
    RunInv(consumers, run, k);
    NobodyAwake(run[k].consumers);
    NobodyOwes(run[k].producers);
  }

  /** First in, first out, each item once and to one consumer, which leaves with that item; and the mutex
      excludes. */
  lemma FirstInFirstOut<T(!new)>(consumers: nat, run: seq<State<T>>, k: nat)
    requires Run(consumers, run) && k < |run|
    ensures run[k].pushed == run[k].popped + run[k].queue
    ensures |run[k].takers| == |run[k].popped|
    ensures forall c :: 0 <= c < |run[k].consumers| && run[k].consumers[c].Leaving? ==>
      run[k].popped != [] && run[k].takers[|run[k].takers| - 1] == c
      && run[k].popped[|run[k].popped| - 1] == run[k].consumers[c].item
    ensures forall c, d | 0 <= c < |run[k].consumers| && 0 <= d < |run[k].consumers| ::
      run[k].consumers[c].HoldsMutex() && run[k].consumers[d].HoldsMutex() ==> c == d
    ensures forall p, c :: 0 <= p < |run[k].producers| && 0 <= c < |run[k].consumers| ==>
      !(run[k].producers[p].HoldsMutex() && run[k].consumers[c].HoldsMutex())
  {
    RunInv(consumers, run, k);
  }
}
