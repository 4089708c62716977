/** A pool of client slots and the thread that serves it, one atomic operation at a time.

    The server side reserves room by counting a client before it posts the client to the pipe; the pool
    thread turns the posted message into a slot, or gives the room back. */
module ClientPool {
  import opened Base

  datatype Msg = Add(fd: nat) | NewBlock

  /** The pool thread.  `Decrement(back)` has freed what it had to and is about to execute `active_cnt--`. */
  datatype Thread =
    | Waiting                      // in epoll_wait
    | Handling                     // in the loop over the events
    | Draining                     // in process_pipe, about to read
    | Adding(fd: nat)              // has read an add message
    | Registering(k: nat)          // has constructed client k, about to add it to epoll
    | Visiting(k: nat)             // telling client k of a new block
    | Decrement(back: Thread)
    | Checking                     // about to read active_cnt
    | Finishing                    // has read zero
    | Ended
    | Overflow                     // "Pool size overflow"

  /** `posted` records all that was ever written to the pipe. */
  datatype Pool = Pool(
    id: nat, slots: seq<Option<nat>>, pipe: seq<Msg>, posted: seq<Msg>, active: int, finished: bool, thread: Thread)

  /** One step of the pool thread; the parameters are what its environment answers. */
  datatype Event =
    | Ready                        // epoll_wait returns events
    | Interrupted                  // epoll_wait returns EINTR
    | NoMoreEvents
    | PipeEvent
    | ReadEvent(k: nat, keep: bool)
    | Undelivered(k: nat)          // a read event for a client no longer there
    | ErrorEvent(k: nat)
    | ReadPipe
    | Construct(ok: bool)
    | Register(ok: bool)
    | Visit(keep: bool)
    | CountDown
    | Test
    | Finish

  function Fresh(id: nat, size: nat): Pool {
    Pool(id, seq(size, _ => None), [], [], 0, false, Waiting)
  }

  /** Read events are delivered only for clients that are there. */
  predicate Enabled(p: Pool, e: Event) {
    match e
    case Ready => p.thread.Waiting?
    case Interrupted => p.thread.Waiting?
    case NoMoreEvents => p.thread.Handling?
    case PipeEvent => p.thread.Handling?
    case ReadEvent(k, _) => p.thread.Handling? && k < |p.slots| && p.slots[k].Some?
    case Undelivered(k) => p.thread.Handling? && k < |p.slots| && p.slots[k].None?
    case ErrorEvent(k) => p.thread.Handling? && k < |p.slots|
    case ReadPipe => p.thread.Draining?
    case Construct(_) => p.thread.Adding?
    case Register(_) => p.thread.Registering? && p.thread.k < |p.slots|
    case Visit(_) => p.thread.Visiting?
    case CountDown => p.thread.Decrement?
    case Test => p.thread.Checking?
    case Finish => p.thread.Finishing?
  }

  /** `remove_client`, up to the decrement. */
  function Remove(p: Pool, k: nat, back: Thread): Pool
    requires k < |p.slots|
  {
    if p.slots[k].None? then p.(thread := back)
    else p.(slots := p.slots[k := None], thread := Decrement(back))
  }

  function FirstFree(slots: seq<Option<nat>>): (k: nat)
    ensures k <= |slots| && (k < |slots| ==> slots[k].None?)
    ensures forall i :: 0 <= i < k ==> slots[i].Some?
  {
    if slots == [] || slots[0].None? then 0 else 1 + FirstFree(slots[1..])
  }

  function Next(p: Pool, e: Event): Pool
    requires Enabled(p, e)
  {
    match e
    case Ready => p.(thread := Handling)
    case Interrupted => p.(thread := Checking)
    case NoMoreEvents => p.(thread := Checking)
    case PipeEvent => p.(thread := Draining)
    case ReadEvent(k, keep) => if keep then p else Remove(p, k, Handling)
    case Undelivered(_) => p
    case ErrorEvent(k) => Remove(p, k, Handling)
    case ReadPipe =>
      if p.pipe == [] then p.(thread := Handling)
      else p.(pipe := p.pipe[1..], thread := if p.pipe[0].Add? then Adding(p.pipe[0].fd) else Visiting(0))
    case Construct(ok) =>
      var k := FirstFree(p.slots);
      if k == |p.slots| then p.(thread := Overflow)
      else if ok then p.(slots := p.slots[k := Some(p.thread.fd)], thread := Registering(k))
      else p.(thread := Decrement(Draining))
    case Register(ok) =>
      if ok then p.(thread := Draining)
      else p.(slots := p.slots[p.thread.k := None], thread := Decrement(Draining))
    case Visit(keep) =>
      var k := p.thread.k;
      if k >= |p.slots| then p.(thread := Draining)
      else if keep || p.slots[k].None? then p.(thread := Visiting(k + 1))
      else Remove(p, k, Visiting(k + 1))
    case CountDown => p.(active := p.active - 1, thread := p.thread.back)
    case Test => p.(thread := if p.active > 0 then Waiting else Finishing)
    case Finish => p.(finished := true, thread := Ended)
  }

  // The server side of the pool.

  predicate IsFull(p: Pool) {
    p.active == |p.slots|
  }

  function Reserve(p: Pool): Pool {
    p.(active := p.active + 1)
  }

  function Post(p: Pool, m: Msg): Pool {
    p.(pipe := p.pipe + [m], posted := p.posted + [m])
  }

  // ---------------------------------------------------------------- a pool and its server side

  /** `reserved` is what the server side has counted and not yet posted. */
  datatype Sys = Sys(pool: Pool, reserved: nat)

  datatype Step = Own(e: Event) | Reserving | Posting(m: Msg)

  predicate StepEnabled(x: Sys, st: Step) {
    match st
    case Own(e) => Enabled(x.pool, e)
    case Reserving => !IsFull(x.pool) && x.reserved == 0
    case Posting(m) => m.Add? ==> x.reserved > 0
  }

  function StepNext(x: Sys, st: Step): Sys
    requires StepEnabled(x, st)
  {
    match st
    case Own(e) => x.(pool := Next(x.pool, e))
    case Reserving => Sys(Reserve(x.pool), x.reserved + 1)
    case Posting(m) => Sys(Post(x.pool, m), if m.Add? then x.reserved - 1 else x.reserved)
  }

  // ---------------------------------------------------------------- the count

  function Live(slots: seq<Option<nat>>): nat {
    if slots == [] then 0 else (if slots[0].Some? then 1 else 0) + Live(slots[1..])
  }

  function Adds(pipe: seq<Msg>): nat {
    if pipe == [] then 0 else (if pipe[0].Add? then 1 else 0) + Adds(pipe[1..])
  }

  /** Clients the thread holds outside the slots: one being added, or one gone but still counted. */
  function InHand(t: Thread): nat {
    if t.Adding? || t.Decrement? then 1 else 0
  }

  lemma {:induction false} LiveUpdate(slots: seq<Option<nat>>, k: nat, x: Option<nat>)
    requires k < |slots|
    ensures Live(slots[k := x]) + (if slots[k].Some? then 1 else 0) == Live(slots) + if x.Some? then 1 else 0
  {
    if k > 0 {
      assert slots[k := x][1..] == slots[1..][k - 1 := x];
      LiveUpdate(slots[1..], k - 1, x);
    } else {
      assert slots[k := x][1..] == slots[1..];
    }
  }

  lemma {:induction false} AddsAppend(pipe: seq<Msg>, m: Msg)
    ensures Adds(pipe + [m]) == Adds(pipe) + if m.Add? then 1 else 0
  {
    if pipe == [] {
      assert pipe + [m] == [m];
    } else {
      assert (pipe + [m])[1..] == pipe[1..] + [m];
      AddsAppend(pipe[1..], m);
    }
  }

  lemma {:induction false} LiveBounds(slots: seq<Option<nat>>)
    ensures Live(slots) <= |slots|
    ensures Live(slots) == |slots| <==> FirstFree(slots) == |slots|
    ensures Live(slots) == 0 <==> forall k :: 0 <= k < |slots| ==> slots[k].None?
  {
    if slots != [] {
      LiveBounds(slots[1..]);
      assert forall k :: 0 < k < |slots| ==> slots[k] == slots[1..][k - 1];
      assert forall k :: 0 <= k < |slots| - 1 ==> slots[1..][k] == slots[k + 1];
    }
  }

  lemma {:induction false} NoAdds(pipe: seq<Msg>)
    ensures Adds(pipe) == 0 <==> forall k :: 0 <= k < |pipe| ==> pipe[k].NewBlock?
  {
    if pipe != [] {
      NoAdds(pipe[1..]);
      assert forall k :: 0 < k < |pipe| ==> pipe[k] == pipe[1..][k - 1];
      assert forall k :: 0 <= k < |pipe| - 1 ==> pipe[1..][k] == pipe[k + 1];
    }
  }

  /** The counter is exactly the clients in slots, in the pipe, in the thread's hands, and `reserved` ones
      the server side has counted but not yet posted; and a thread that has left its loop left no client. */
  predicate Counted(p: Pool, size: nat, reserved: nat) {
    && |p.slots| == size
    && p.active == Live(p.slots) + Adds(p.pipe) + InHand(p.thread) + reserved
    && p.active <= size
    && (p.thread.Decrement? ==> p.thread.back.Draining? || p.thread.back.Handling? || p.thread.back.Visiting?)
    && (p.thread.Registering? ==> p.thread.k < size && p.slots[p.thread.k].Some?)
    && (p.thread.Finishing? || p.thread.Ended? ==> Live(p.slots) == 0)
    && (p.finished <==> p.thread.Ended?)
    && !p.thread.Overflow?
  }

  lemma NextCounted(p: Pool, e: Event, size: nat, reserved: nat)
    requires Counted(p, size, reserved) && Enabled(p, e)
    ensures Counted(Next(p, e), size, reserved)
    ensures Next(p, e).active <= p.active && Next(p, e).id == p.id && Next(p, e).posted == p.posted
  {
    if e.Construct? || e.Register? {
      AddingCounted(p, e, size, reserved);
    } else if e.ReadEvent? || e.ErrorEvent? || e.Visit? {
      RemovingCounted(p, e, size, reserved);
    } else {
      LiveBounds(p.slots);
    }
  }

  lemma AddingCounted(p: Pool, e: Event, size: nat, reserved: nat)
    requires Counted(p, size, reserved) && Enabled(p, e) && (e.Construct? || e.Register?)
    ensures Counted(Next(p, e), size, reserved) && Next(p, e).active == p.active && Next(p, e).id == p.id
  {
    LiveBounds(p.slots);
    if e.Register? {
      LiveUpdate(p.slots, p.thread.k, None);
    } else if FirstFree(p.slots) < |p.slots| {
      LiveUpdate(p.slots, FirstFree(p.slots), Some(p.thread.fd));
    }
  }

  lemma RemovingCounted(p: Pool, e: Event, size: nat, reserved: nat)
    requires Counted(p, size, reserved) && Enabled(p, e) && (e.ReadEvent? || e.ErrorEvent? || e.Visit?)
    ensures Counted(Next(p, e), size, reserved) && Next(p, e).active == p.active && Next(p, e).id == p.id
  {
    var k := if e.Visit? then p.thread.k else e.k;
    if k < |p.slots| {
      LiveUpdate(p.slots, k, None);
    }
  }

  lemma FreshCounted(id: nat, size: nat)
    ensures Counted(Fresh(id, size), size, 0)
  {
    LiveBounds(Fresh(id, size).slots);
  }

  lemma ReserveCounted(p: Pool, size: nat)
    requires Counted(p, size, 0) && p.active < size
    ensures Counted(Reserve(p), size, 1)
  {
  }

  lemma PostCounted(p: Pool, size: nat, reserved: nat, m: Msg)
    requires Counted(p, size, reserved) && (m.Add? ==> reserved > 0)
    ensures Counted(Post(p, m), size, if m.Add? then reserved - 1 else reserved)
  {
    AddsAppend(p.pipe, m);
  }

  /** Every step of the pool thread or of the server side keeps the books. */
  lemma StepCounted(x: Sys, st: Step, size: nat)
    requires Counted(x.pool, size, x.reserved) && StepEnabled(x, st)
    ensures Counted(StepNext(x, st).pool, size, StepNext(x, st).reserved)
  {
    match st
    case Own(e) => NextCounted(x.pool, e, size, x.reserved);
    case Reserving => ReserveCounted(x.pool, size);
    case Posting(m) => PostCounted(x.pool, size, x.reserved, m);
  }
}
