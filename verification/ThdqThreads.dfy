/** `push` and `pop` as programs; between any two of a program's steps the other threads take any number of
    theirs, so each execution is a part of a run of the queue. */
module ThdqThreads {
  import opened Base
  import opened Thdq
  import opened Runs

  /** Whose program it is; the steps that are its own. */
  predicate Own<T>(me: Owner, e: Event<T>) {
    match me
    case P(p) => (e.LockP? || e.Enqueue? || e.UnlockP? || e.Notify?) && e.p == p
    case C(c) => (e.Call? || e.LockC? || e.Test? || e.WakeUp? || e.UnlockC?) && e.c == c
  }

  /** The thread stands where it stood, unless it slept and was woken; what was popped, and by whom, stays so. */
  ghost predicate Undisturbed<T(!new)>(me: Owner, a: State<T>, b: State<T>) {
    && |a.producers| <= |b.producers| && |a.consumers| == |b.consumers|
    && a.popped <= b.popped && a.pushed <= b.pushed && a.takers <= b.takers
    && match me
       case P(p) => p < |a.producers| && b.producers[p] == a.producers[p]
       case C(c) =>
         && c < |a.consumers|
         && (b.consumers[c] == a.consumers[c] || (a.consumers[c].Asleep? && b.consumers[c] == Entering(true)))
  }

  ghost predicate Exists<T(!new)>(me: Owner, s: State<T>) {
    (me.P? ==> me.p < |s.producers|) && (me.C? ==> me.c < |s.consumers|)
  }

  lemma OthersDoNotDisturb<T(!new)>(s: State<T>, e: Event<T>, me: Owner)
    requires Enabled(s, e) && Exists(me, s) && !Own(me, e)
    ensures Undisturbed(me, s, Next(s, e))
  {
  }

  lemma MutexKept<T(!new)>(s: State<T>, e: Event<T>, me: Owner)
    requires Inv(s) && Enabled(s, e) && !Own(me, e) && s.mutex == Some(me)
    ensures Next(s, e).mutex == Some(me) && Next(s, e).queue == s.queue && Next(s, e).popped == s.popped
    ensures Next(s, e).takers == s.takers
  {
  }

  class BlockingQueue<T(!new)> {
    var s: State<T>
    /** How many consumers there are. */
    ghost const consumers: nat

    ghost predicate Valid()
      reads this
    {
      Inv(s) && Reaches(Steps<T>(), Init(consumers), s)
    }

    constructor (consumers: nat)
      ensures Valid() && s == Init(consumers) && this.consumers == consumers
    {
      s, this.consumers := Init(consumers), consumers;
      new;
      InitInv<T>(consumers);
      Runs.Stays(Steps<T>(), Init<T>(consumers));
    }

    method Do(e: Event<T>)
      requires Valid() && Enabled(s, e)
      modifies this`s
      ensures Valid() && s == Next(old(s), e)
    {
      NextInv(s, e);
      assert StepTo(s, Next(s, e));
      Runs.OneMore(Steps<T>(), Init(consumers), s, Next(s, e));
      s := Next(s, e);
    }

    /** The other threads take any number of steps; while this one holds the mutex, none that touches the queue. */
    method Others(me: Owner)
      requires Valid() && Exists(me, s)
      modifies this`s
      ensures Valid() && Undisturbed(me, old(s), s)
      ensures old(s).mutex == Some(me) ==> s.mutex == Some(me) && s.queue == old(s).queue && s.popped == old(s).popped && s.takers == old(s).takers
    {
      var n: nat :| true;
      for i := 0 to n
        invariant Valid() && Undisturbed(me, old(s), s)
        invariant old(s).mutex == Some(me) ==> s.mutex == Some(me) && s.queue == old(s).queue && s.popped == old(s).popped && s.takers == old(s).takers
      {
        var e: Event<T> :| true;
        if Enabled(s, e) && !Own(me, e) {
          OthersDoNotDisturb(s, e, me);
          if s.mutex == Some(me) {
            MutexKept(s, e, me);
          }
          Do(e);
        }
      }
    }

    /** `push`; false while it waits for the mutex.  `sleeper` is whom the notification wakes. */
    method Push(p: nat, item: T) returns (done: bool, ghost k: nat)
      requires Valid() && p < |s.producers| && s.producers[p] == Arriving(item)
      modifies this`s
      ensures Valid() && p < |s.producers| && s.producers[p] == if done then Finished else Arriving(item)
      ensures if done then |old(s).pushed| <= k < |s.pushed| && s.pushed[k] == item else s.mutex != None
    {
      k := 0;
      Others(P(p));
      if s.mutex != None {
        return false, k;
      }
      Do(LockP(p));
      Others(P(p));
      k := |s.pushed|;
      Do(Enqueue(p));
      Others(P(p));
      Do(UnlockP(p));
      Others(P(p));
      var sleeper := FindSleeper();
      Do(Notify(p, sleeper));
      done := true;
    }

    /** Some sleeper, if there is one. */
    method FindSleeper() returns (k: Option<nat>)
      ensures if k.Some? then k.value < |s.consumers| && s.consumers[k.value].Asleep? else !SomeoneSleeps(s)
    {
      for c := 0 to |s.consumers|
        invariant forall d :: 0 <= d < c ==> !s.consumers[d].Asleep?
      {
        if s.consumers[c].Asleep? {
          return Some(c);
        }
      }
      return None;
    }

    /** Waits for the mutex. */
    method Lock(c: nat) returns (got: bool)
      requires Valid() && c < |s.consumers| && s.consumers[c].Entering?
      modifies this`s
      ensures Valid() && c < |s.consumers| && old(s).popped <= s.popped
      ensures if got then s.consumers[c].Testing? else s.consumers[c].Entering? && s.mutex != None
    {
      Others(C(c));
      if s.mutex != None {
        return false;
      }
      Do(LockC(c));
      return true;
    }

    /** `pop`; nothing while it waits for the mutex or for an item.  It may be woken `patience` times before
        the run is over.  What it returns is the first item not taken before, and this consumer took it. */
    method Pop(c: nat, patience: nat) returns (item: Option<T>, ghost k: nat, woken: nat)
      requires Valid() && c < |s.consumers| && s.consumers[c].Away?
      modifies this`s
      ensures Valid() && c < |s.consumers| && woken <= patience
      ensures item.Some? ==> s.consumers[c].Away? && |old(s).popped| <= k < |s.popped|
      ensures item.Some? ==> k < |s.pushed| && s.popped[k] == item.value == s.pushed[k]
      ensures item.Some? ==> |s.takers| == |s.popped| && s.takers[k] == c
      ensures item.None? ==>
        s.consumers[c].Asleep? || (s.consumers[c].Entering? && (s.mutex != None || woken == patience))
    {
      item, k, woken := None, 0, 0;
      Do(Call(c));
      var got := Lock(c);
      if !got {
        return;
      }
      while s.queue == []
        invariant Valid() && c < |s.consumers| && s.consumers[c].Testing? && old(s).popped <= s.popped
        invariant woken <= patience
        decreases patience - woken
      {
        Do(Test(c));                        // asleep, without the mutex
        Others(C(c));
        if s.consumers[c].Asleep? || woken == patience {
          return;
        }
        woken := woken + 1;
        got := Lock(c);
        if !got {
          return;
        }
      }
      item, k := TakeFirst(c);
    }

    /** The first item is taken, and the mutex released. */
    method TakeFirst(c: nat) returns (item: Option<T>, ghost k: nat)
      requires Valid() && c < |s.consumers| && s.consumers[c].Testing? && s.queue != []
      modifies this`s
      ensures Valid() && c < |s.consumers| && s.consumers[c].Away? && item.Some?
      ensures |old(s).popped| <= k < |s.popped| <= |s.pushed| && s.popped[k] == item.value == s.pushed[k]
      ensures |s.takers| == |s.popped| && s.takers[k] == c
    {
      Others(C(c));
      item := Some(s.queue[0]);
      k := |s.popped|;
      Do(Test(c));
      Others(C(c));
      Do(UnlockC(c));
      assert s.pushed == s.popped + s.queue;
    }
  }
}
