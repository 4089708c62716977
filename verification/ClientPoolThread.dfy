/** The pool thread as a program over its slot array.  Between any two of its accesses to what it shares with
    the server side, that side may reserve room and post messages; every step of the program is a step of
    the thread in `ClientPool`, and the program keeps a record of them. */
module ClientPoolThread {
  import opened Base
  import opened ClientPool
  import opened Runs

  /** What epoll reports. */
  datatype Poll = PipeReady | Readable(k: nat) | HungUp(k: nat)

  /** What the thread is given to handle, in order. */
  datatype Item = Woken | Signal | Handled(poll: Poll) | EndOfEvents

  function ItemOf(st: Step): seq<Item> {
    if !st.Own? then []
    else match st.e
      case Ready => [Woken]
      case Interrupted => [Signal]
      case PipeEvent => [Handled(PipeReady)]
      case ReadEvent(k, _) => [Handled(Readable(k))]
      case Undelivered(k) => [Handled(Readable(k))]
      case ErrorEvent(k) => [Handled(HungUp(k))]
      case NoMoreEvents => [EndOfEvents]
      case _ => []
  }

  /** A pool and what its thread was given to handle so far. */
  datatype Record = Record(sys: Sys, items: seq<Item>)

  ghost predicate StepTo(a: Record, b: Record) {
    exists st :: StepEnabled(a.sys, st) && b == Record(StepNext(a.sys, st), a.items + ItemOf(st))
  }

  ghost function Steps(): (Record, Record) -> bool {
    (a, b) => StepTo(a, b)
  }

  function AllHandled(polls: seq<Poll>): seq<Item> {
    if polls == [] then [] else AllHandled(polls[..|polls| - 1]) + [Handled(polls[|polls| - 1])]
  }

  /** What a sequence of wake-ups gives the thread to handle; `None` is a wake-up by a signal. */
  function Given(wakeUps: seq<Option<seq<Poll>>>): seq<Item> {
    if wakeUps == [] then []
    else
      var n := |wakeUps| - 1;
      Given(wakeUps[..n]) + (if wakeUps[n].Some? then [Woken] + AllHandled(wakeUps[n].value) + [EndOfEvents] else [Signal])
  }

  /** Events are reported for the pipe and the slots. */
  predicate ForSlots(polls: seq<Poll>, size: nat) {
    forall j :: 0 <= j < |polls| ==> polls[j].PipeReady? || polls[j].k < size
  }

  class PoolObject {
    const slots: array<Option<nat>>
    var pipe: seq<Msg>
    var active: int
    var finished: bool
    /** The server side: what it has reserved and not yet posted, and how many messages it will still post. */
    var reserved: nat
    var toCome: nat
    /** Where the pool thread is, and all that was ever posted to it. */
    ghost var thread: Thread
    ghost var posted: seq<Msg>
    /** Where the program began, and what the thread was given to handle since. */
    ghost var began: Sys
    ghost var items: seq<Item>

    ghost function State(): Pool
      reads this, slots
    {
      Pool(0, slots[..], pipe, posted, active, finished, thread)
    }

    ghost function Now(): Sys
      reads this, slots
    {
      Sys(State(), reserved)
    }

    ghost predicate Valid()
      reads this, slots
    {
      Counted(State(), slots.Length, reserved) && Reaches(Steps(), Record(began, []), Record(Now(), items))
    }

    constructor (size: nat, toCome: nat)
      ensures Valid() && slots.Length == size && Now() == Sys(Fresh(0, size), 0) && began == Now() && fresh(slots)
      ensures this.toCome == toCome && items == []
    {
      slots := new Option<nat>[size](_ => None);
      pipe, posted, active, finished, thread, reserved, this.toCome := [], [], 0, false, Waiting, 0, toCome;
      began, items := Sys(Fresh(0, size), 0), [];
      new;
      FreshCounted(0, size);
      assert slots[..] == Fresh(0, size).slots;
      Runs.Stays(Steps(), Record(began, []));
    }

    /** Records a step just taken. */
    ghost method Log(x: Sys, st: Step)
      requires Counted(x.pool, slots.Length, x.reserved) && Reaches(Steps(), Record(began, []), Record(x, items))
      requires StepEnabled(x, st) && Now() == StepNext(x, st)
      modifies this`items
      ensures Valid() && items == old(items) + ItemOf(st)
    {
      StepCounted(x, st, slots.Length);
      ghost var next := Record(Now(), items + ItemOf(st));
      assert StepTo(Record(x, items), next);
      Runs.OneMore(Steps(), Record(began, []), Record(x, items), next);
      items := items + ItemOf(st);
    }

    /** The server side takes any number of steps. */
    method ServerSide()
      requires Valid()
      modifies this`pipe, this`posted, this`active, this`reserved, this`toCome, this`items
      ensures Valid() && |pipe| + toCome <= |old(pipe)| + old(toCome) && old(pipe) <= pipe
      ensures items == old(items) && old(active) <= active
    {
      var n: nat :| true;
      for i := 0 to n
        invariant Valid() && |pipe| + toCome <= |old(pipe)| + old(toCome) && old(pipe) <= pipe
        invariant items == old(items) && old(active) <= active
      {
        var choice: nat :| true;
        if choice == 0 && active != slots.Length && reserved == 0 {
          Count();
        } else if choice == 1 && reserved > 0 && toCome > 0 {
          var fd: nat :| true;
          WritePipe(Add(fd));
        } else if choice == 2 && toCome > 0 {
          WritePipe(NewBlock);
        }
      }
    }

    /** `active_cnt++`, after `is_full` was false. */
    method Count()
      requires Valid() && active != slots.Length && reserved == 0
      modifies this`active, this`reserved, this`items
      ensures Valid() && active == old(active) + 1 && reserved == 1 && items == old(items)
    {
      ghost var x := Now();
      active, reserved := active + 1, 1;
      Log(x, Reserving);
    }

    /** A message is posted: of a client counted before, or of a new block. */
    method WritePipe(m: Msg)
      requires Valid() && toCome > 0 && (m.Add? ==> reserved > 0)
      modifies this`pipe, this`posted, this`reserved, this`toCome, this`items
      ensures Valid() && pipe == old(pipe) + [m] && toCome == old(toCome) - 1 && items == old(items)
    {
      ghost var x := Now();
      pipe, posted, toCome := pipe + [m], posted + [m], toCome - 1;
      reserved := if m.Add? then reserved - 1 else reserved;
      Log(x, Posting(m));
    }

    /** A step of the thread that changes nothing but where it is. */
    ghost method Go(e: Event, to: Thread)
      requires Valid() && Enabled(State(), e) && Next(State(), e) == State().(thread := to)
      modifies this`thread, this`items
      ensures Valid() && thread == to && items == old(items) + ItemOf(Own(e))
    {
      ghost var x := Now();
      thread := to;
      Log(x, Own(e));
    }

    /** Empties the slot, if there is a client in it, and counts it down; `e` is why. */
    method RemoveClient(k: nat, ghost e: Event)
      requires Valid() && k < slots.Length && Enabled(State(), e)
      requires e == ErrorEvent(k) || (slots[k].Some? && (e == ReadEvent(k, false) || (e == Visit(false) && thread == Visiting(k))))
      modifies this`pipe, this`posted, this`active, this`reserved, this`toCome, this`thread, this`items, slots
      ensures Valid() && thread == (if e.Visit? then Visiting(k + 1) else Handling)
      ensures slots[..] == old(slots[..])[k := None] && items == old(items) + ItemOf(Own(e))
      ensures |pipe| + toCome <= |old(pipe)| + old(toCome)
    {
      ghost var x, back := Now(), if e.Visit? then Visiting(k + 1) else Handling;
      if slots[k].None? {
        thread := back;
        assert slots[..] == old(slots[..])[k := None];
        Log(x, Own(e));
        return;
      }
      slots[k] := None;
      thread := Decrement(back);
      Log(x, Own(e));
      ServerSide();
      CountDown();
    }

    /** `active_cnt--`. */
    method CountDown()
      requires Valid() && thread.Decrement?
      modifies this`active, this`thread, this`items
      ensures Valid() && thread == old(thread).back && active == old(active) - 1 && items == old(items)
    {
      ghost var x := Now();
      active := active - 1;
      thread := thread.back;
      Log(x, Own(Event.CountDown));
    }

    /** The search for a free slot, or the end of the array. */
    method FindFree() returns (k: nat)
      ensures k == FirstFree(slots[..])
    {
      k := 0;
      assert slots[0..] == slots[..];
      while k < slots.Length && slots[k].Some?
        invariant k <= slots.Length && k + FirstFree(slots[k..]) == FirstFree(slots[..])
      {
        assert slots[k..][1..] == slots[k + 1..];
        k := k + 1;
      }
    }

    /** The branch of `process_pipe` for a client: there always is a slot, so "Pool size overflow" is never
        thrown; the client gets the first free one, or, if it cannot be set up, gives back what was reserved
        for it. */
    method AddClient(fd: nat, constructed: bool, registered: bool)
      requires Valid() && thread == Adding(fd)
      modifies this`pipe, this`posted, this`active, this`reserved, this`toCome, this`thread, this`items, slots
      ensures Valid() && thread == Draining && items == old(items)
      ensures FirstFree(old(slots[..])) < slots.Length
      ensures slots[..] ==
        if constructed && registered then old(slots[..])[FirstFree(old(slots[..])) := Some(fd)] else old(slots[..])
      ensures |pipe| + toCome <= |old(pipe)| + old(toCome)
    {
      var k := FindFree();
      LiveBounds(slots[..]);
      if k == slots.Length {
        assert false;
      }
      if !constructed {
        GiveUp();
        return;
      }
      Constructed(k, fd);
      ServerSide();
      Registered(k, registered);
      PutAndTaken(old(slots[..]), k, fd);
    }

    /** The client's constructor throws. */
    method GiveUp()
      requires Valid() && thread.Adding? && FirstFree(slots[..]) < slots.Length
      modifies this`pipe, this`posted, this`active, this`reserved, this`toCome, this`thread, this`items
      ensures Valid() && thread == Draining && items == old(items)
      ensures |pipe| + toCome <= |old(pipe)| + old(toCome)
    {
      ghost var x := Now();
      thread := Decrement(Draining);
      Log(x, Own(Construct(false)));
      ServerSide();
      CountDown();
    }

    method Constructed(k: nat, fd: nat)
      requires Valid() && thread == Adding(fd) && k == FirstFree(slots[..]) < slots.Length
      modifies this`thread, this`items, slots
      ensures Valid() && thread == Registering(k) && items == old(items)
      ensures slots[..] == old(slots[..])[k := Some(fd)]
    {
      ghost var x := Now();
      slots[k] := Some(fd);
      thread := Registering(k);
      assert slots[..] == old(slots[..])[k := Some(fd)];
      Log(x, Own(Construct(true)));
    }

    /** The client is added to epoll, or freed and counted down. */
    method Registered(k: nat, ok: bool)
      requires Valid() && thread == Registering(k) && k < slots.Length
      modifies this`pipe, this`posted, this`active, this`reserved, this`toCome, this`thread, this`items, slots
      ensures Valid() && thread == Draining && items == old(items)
      ensures slots[..] == if ok then old(slots[..]) else old(slots[..])[k := None]
      ensures |pipe| + toCome <= |old(pipe)| + old(toCome)
    {
      if ok {
        Go(Register(true), Draining);
        return;
      }
      ghost var x := Now();
      slots[k] := None;
      thread := Decrement(Draining);
      Log(x, Own(Register(false)));
      ServerSide();
      CountDown();
    }

    /** The branch for a new block: every client is told; exactly those that give up are removed. */
    method TellClients(keeps: nat -> bool)
      requires Valid() && thread == Visiting(0)
      modifies this`pipe, this`posted, this`active, this`reserved, this`toCome, this`thread, this`items, slots
      ensures Valid() && thread == Draining && items == old(items)
      ensures forall k :: 0 <= k < slots.Length ==> slots[k] == if keeps(k) then old(slots[k]) else None
      ensures |pipe| + toCome <= |old(pipe)| + old(toCome)
    {
      for k := 0 to slots.Length
        invariant Valid() && thread == Visiting(k) && items == old(items)
        invariant forall j :: 0 <= j < k ==> slots[j] == if keeps(j) then old(slots[j]) else None
        invariant forall j :: k <= j < slots.Length ==> slots[j] == old(slots[j])
        invariant |pipe| + toCome <= |old(pipe)| + old(toCome)
      {
        TellClient(k, keeps(k));
      }
      Go(Visit(true), Draining);
    }

    method TellClient(k: nat, keep: bool)
      requires Valid() && k < slots.Length && thread == Visiting(k)
      modifies this`pipe, this`posted, this`active, this`reserved, this`toCome, this`thread, this`items, slots
      ensures Valid() && thread == Visiting(k + 1) && items == old(items)
      ensures slots[k] == if keep then old(slots[k]) else None
      ensures forall j :: 0 <= j < slots.Length && j != k ==> slots[j] == old(slots[j])
      ensures |pipe| + toCome <= |old(pipe)| + old(toCome)
    {
      if slots[k].None? || keep {
        Go(Visit(true), Visiting(k + 1));
      } else {
        RemoveClient(k, Visit(false));
        assert forall j :: 0 <= j < slots.Length ==> slots[j] == slots[..][j] == old(slots[..])[k := None][j];
      }
    }

    /** The message at the front is read. */
    method ReadPipe() returns (msg: Msg)
      requires Valid() && thread == Draining && pipe != []
      modifies this`pipe, this`thread, this`items
      ensures Valid() && msg == old(pipe)[0] && pipe == old(pipe)[1..] && items == old(items)
      ensures thread == if msg.Add? then Adding(msg.fd) else Visiting(0)
    {
      ghost var x := Now();
      msg := pipe[0];
      pipe := pipe[1..];
      thread := if msg.Add? then Adding(msg.fd) else Visiting(0);
      Log(x, Own(Event.ReadPipe));
    }

    /** The pipe is read until it is empty. */
    method ProcessPipe()
      requires Valid() && thread == Draining
      modifies this`pipe, this`posted, this`active, this`reserved, this`toCome, this`thread, this`items, slots
      ensures Valid() && thread == Handling && pipe == [] && items == old(items)
    {
      while pipe != []
        invariant Valid() && thread == Draining && items == old(items)
        decreases |pipe| + toCome
      {
        var msg := ReadPipe();
        HandleMessage(msg);
      }
      Go(Event.ReadPipe, Handling);
    }

    method HandleMessage(msg: Msg)
      requires Valid() && thread == if msg.Add? then Adding(msg.fd) else Visiting(0)
      modifies this`pipe, this`posted, this`active, this`reserved, this`toCome, this`thread, this`items, slots
      ensures Valid() && thread == Draining && items == old(items)
      ensures |pipe| + toCome <= |old(pipe)| + old(toCome)
    {
      ServerSide();
      if msg.NewBlock? {
        var keeps: nat -> bool :| true;
        TellClients(keeps);
      } else {
        var constructed, registered: bool :| true;
        AddClient(msg.fd, constructed, registered);
      }
      ServerSide();
    }

    /** One reported event, and what the client's read handler says; a read event for a client that is gone
        is not delivered.  A pipe event leaves no message unhandled. */
    method HandleEvent(poll: Poll, keep: bool)
      requires Valid() && thread == Handling && (poll.PipeReady? || poll.k < slots.Length)
      modifies this`pipe, this`posted, this`active, this`reserved, this`toCome, this`thread, this`items, slots
      ensures Valid() && thread == Handling && items == old(items) + [Handled(poll)]
      ensures poll.PipeReady? ==> pipe == []
      ensures !poll.PipeReady? ==>
        slots[..] == if poll.Readable? && keep then old(slots[..]) else old(slots[..])[poll.k := None]
    {
      if poll.PipeReady? {
        Go(PipeEvent, Draining);
        ServerSide();
        ProcessPipe();
      } else if poll.HungUp? {
        RemoveClient(poll.k, ErrorEvent(poll.k));
      } else if slots[poll.k].None? {
        Go(Undelivered(poll.k), Handling);
      } else if keep {
        Go(ReadEvent(poll.k, true), Handling);
      } else {
        RemoveClient(poll.k, ReadEvent(poll.k, false));
      }
    }

    method HandleEvents(polls: seq<Poll>)
      requires Valid() && thread == Handling && ForSlots(polls, slots.Length)
      modifies this`pipe, this`posted, this`active, this`reserved, this`toCome, this`thread, this`items, slots
      ensures Valid() && thread == Checking && items == old(items) + AllHandled(polls) + [EndOfEvents]
    {
      for j := 0 to |polls|
        invariant Valid() && thread == Handling && items == old(items) + AllHandled(polls[..j])
      {
        ServerSide();
        var keep: bool :| true;
        HandleEvent(polls[j], keep);
        assert polls[..j + 1][..j] == polls[..j];
      }
      assert polls[..|polls|] == polls;
      Go(NoMoreEvents, Checking);
    }

    /** One turn of the loop, up to its test. */
    method Turn(wakeUp: Option<seq<Poll>>)
      requires Valid() && thread == Waiting && (wakeUp.Some? ==> ForSlots(wakeUp.value, slots.Length))
      modifies this`pipe, this`posted, this`active, this`reserved, this`toCome, this`thread, this`items, slots
      ensures Valid() && thread == Checking && items == old(items) + Given([wakeUp])
    {
      ServerSide();
      if wakeUp.Some? {
        Go(Ready, Handling);
        HandleEvents(wakeUp.value);
      } else {
        Go(Interrupted, Checking);
      }
      assert [wakeUp][..0] == [];
    }

    /** `pool_main`, until it ends or nothing more wakes it up.  It handles everything it is given, in order,
        until it finds nothing counted; then, and only then, it ends, and no slot holds a client. */
    method PoolMain(wakeUps: seq<Option<seq<Poll>>>) returns (used: nat)
      requires Valid() && thread == Waiting && began == Now() && items == []
      requires forall i :: 0 <= i < |wakeUps| && wakeUps[i].Some? ==> ForSlots(wakeUps[i].value, slots.Length)
      modifies this, slots
      ensures Valid() && began == old(began) && (thread == Waiting || thread == Ended) && finished == (thread == Ended)
      ensures used <= |wakeUps| && items == Given(wakeUps[..used])
      ensures finished ==> forall k :: 0 <= k < slots.Length ==> slots[k].None?
      ensures finished ==> used > 0 && active == Adds(pipe) + reserved
      ensures !finished ==> used == |wakeUps| && (used > 0 ==> active > 0)
    {
      used := 0;
      while used < |wakeUps|
        invariant Valid() && began == old(began) && thread == Waiting && used <= |wakeUps|
        invariant items == Given(wakeUps[..used]) && (used > 0 ==> active > 0)
      {
        Turn(wakeUps[used]);
        GivenMore(wakeUps, used);
        used := used + 1;
        var goOn := LoopTest();
        if !goOn {
          ServerSide();
          Finish();
          return;
        }
      }
    }

    method LoopTest() returns (goOn: bool)
      requires Valid() && thread == Checking
      modifies this`pipe, this`posted, this`active, this`reserved, this`toCome, this`thread, this`items
      ensures Valid() && items == old(items)
      ensures if goOn then active > 0 && thread == Waiting else thread == Finishing
    {
      ServerSide();
      goOn := active > 0;
      Go(Test, if goOn then Waiting else Finishing);
    }

    /** `thd_finished = true`. */
    method Finish()
      requires Valid() && thread == Finishing
      modifies this`finished, this`thread, this`items
      ensures Valid() && thread == Ended && finished && items == old(items)
      ensures active == Adds(pipe) + reserved && forall k :: 0 <= k < slots.Length ==> slots[k].None?
    {
      ghost var x := Now();
      LiveBounds(slots[..]);
      finished := true;
      thread := Ended;
      Log(x, Own(Event.Finish));
    }
  }

  lemma PutAndTaken(slots: seq<Option<nat>>, k: nat, fd: nat)
    requires k < |slots| && slots[k].None?
    ensures slots[k := Some(fd)][k := None] == slots
  {
  }

  lemma {:induction false} GivenMore(wakeUps: seq<Option<seq<Poll>>>, k: nat)
    requires k < |wakeUps|
    ensures Given(wakeUps[..k + 1]) == Given(wakeUps[..k]) + Given([wakeUps[k]])
  {
    assert wakeUps[..k + 1][..k] == wakeUps[..k] && [wakeUps[k]][..0] == [];
    assert Given([]) == [];
  }
}
