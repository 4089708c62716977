/** The walk over the list of pools as a program: it erases finished pools and calls a functor on the others,
    while the threads of all the pools go on.  Every step of the program is a step of the server side, so each
    execution is a part of a run of `PoolServer`. */
module PoolStore {
  import opened Base
  import opened ClientPool
  import opened PoolServer
  import opened Runs

  /** What was ever posted to the pools, by their ids. */
  ghost predicate Received(pools: seq<Pool>, mail: map<nat, seq<Msg>>) {
    forall i :: 0 <= i < |pools| ==> pools[i].id in mail && mail[pools[i].id] == pools[i].posted
  }

  /** Exactly the pools visited were posted this. */
  ghost predicate PostedTo(visited: seq<nat>, before: map<nat, seq<Msg>>, after: map<nat, seq<Msg>>, msgs: seq<Msg>) {
    && before.Keys == after.Keys
    && forall id :: id in before ==> after[id] == if id in visited then before[id] + msgs else before[id]
  }

  lemma PostedOneMore(visited: seq<nat>, before: map<nat, seq<Msg>>, mid: map<nat, seq<Msg>>, id: nat, msgs: seq<Msg>)
    requires PostedTo(visited, before, mid, msgs) && id !in visited && id in mid
    ensures PostedTo(visited + [id], before, mid[id := mid[id] + msgs], msgs)
  {
  }

  lemma PostedNothing(visited: seq<nat>, before: map<nat, seq<Msg>>, after: map<nat, seq<Msg>>)
    requires PostedTo(visited, before, after, [])
    ensures before == after
  {
    forall id | id in before ensures id in after && after[id] == before[id] {
      assert before[id] + [] == before[id];
    }
  }

  lemma ReceivedOne(pools: seq<Pool>, mail: map<nat, seq<Msg>>, k: nat, p: Pool)
    requires Distinct(Ids(pools)) && Received(pools, mail) && k < |pools| && p.id == pools[k].id
    ensures Received(pools[k := p], mail[p.id := p.posted])
  {
    forall i | 0 <= i < |pools| && i != k ensures pools[i].id != p.id {
      assert Ids(pools)[i] == pools[i].id && Ids(pools)[k] == pools[k].id;
      assert i < k || k < i;
    }
  }

  lemma ReceivedFresh(s: State, mail: map<nat, seq<Msg>>, size: nat)
    requires ListOk(s) && Received(s.pools, mail)
    ensures Received(s.pools + [Fresh(s.nextId, size)], mail[s.nextId := []])
  {
  }

  lemma EmptyStore(size: nat)
    ensures PoolsOk(size, INIT) && WalkOk(INIT) && Reaches(Steps(size), INIT, INIT)
    ensures Received(INIT.pools, map[])
  {
    Runs.Stays(Steps(size), INIT);
  }

  lemma FirstMail(mail: map<nat, seq<Msg>>, id: nat, m: Msg)
    ensures mail[id := []][id := [] + [m]] == mail[id := [m]]
  {
    assert [] + [m] == [m];
  }

  /** The steps that write to no pipe and add no pool. */
  predicate Silent(s: State, e: PoolServer.Event) {
    e == ServerStep ==>
      && !s.side.Reserved? && !(s.side.Call? && s.side.job.Announce?)
      && (s.side.Iterate? && s.side.job.Listen? ==> s.side.k < |s.pools|)
  }

  lemma SilentKeepsMail(size: nat, s: State, e: PoolServer.Event, mail: map<nat, seq<Msg>>)
    requires size > 0 && PoolsOk(size, s) && PoolServer.Enabled(s, e) && Silent(s, e) && Received(s.pools, mail)
    ensures Received(PoolServer.Next(size, s, e).pools, mail)
  {
    if e.PoolStep? {
      NextCounted(s.pools[e.i], e.e, size, ReservedIn(s, e.i));
    }
  }

  /** No slot holds a client. */
  predicate NoClients(p: Pool) {
    forall j :: 0 <= j < |p.slots| ==> p.slots[j].None?
  }

  lemma FinishedHasNoClients(size: nat, s: State)
    requires PoolsOk(size, s) && GoneOk(s)
    ensures forall i :: 0 <= i < |s.gone| ==> s.gone[i].finished && NoClients(s.gone[i])
  {
    forall i | 0 <= i < |s.gone| ensures s.gone[i].finished && NoClients(s.gone[i]) {
      assert s.gone[i] == s.erased[|s.erased| - |s.gone| + i];
      LiveBounds(s.gone[i].slots);
    }
  }

  class Store {
    const size: nat
    var s: State
    /** What was ever posted to which pool, also to those erased. */
    ghost var mail: map<nat, seq<Msg>>

    ghost predicate Valid()
      reads this
    {
      size > 0 && PoolsOk(size, s) && WalkOk(s) && Reaches(Steps(size), INIT, s) && Received(s.pools, mail)
    }

    constructor (size: nat)
      requires size > 0
      ensures Valid() && s == INIT && this.size == size && mail == map[]
    {
      this.size, s, mail := size, INIT, map[];
      new;
      EmptyStore(size);
    }

    lemma Stepped(e: PoolServer.Event)
      requires Valid() && PoolServer.Enabled(s, e)
      ensures var t := PoolServer.Next(size, s, e);
        PoolsOk(size, t) && WalkOk(t) && Reaches(Steps(size), INIT, t)
    {
      NextPoolsOk(size, s, e);
      NextWalkOk(size, s, e);
      assert StepTo(size, s, PoolServer.Next(size, s, e));
      Runs.OneMore(Steps(size), INIT, s, PoolServer.Next(size, s, e));
    }

    method Do(e: PoolServer.Event)
      requires Valid() && PoolServer.Enabled(s, e) && Silent(s, e)
      modifies this`s
      ensures Valid() && s == PoolServer.Next(size, old(s), e)
    {
      Stepped(e);
      SilentKeepsMail(size, s, e, mail);
      s := PoolServer.Next(size, s, e);
    }

    /** The write to a pool's pipe: of a client counted before, or of the news of a block. */
    method Write(k: nat, m: Msg)
      requires Valid() && k < |s.pools|
      requires s.side.Reserved? || s.side == Call(Announce, k)
      requires if s.side.Reserved? then s.side.k == k && m == Add(s.side.fd) else m == Msg.NewBlock
      modifies this`s, this`mail
      ensures Valid() && s == NextServer(size, old(s))
      ensures var id := old(s).pools[k].id;
        id in old(mail) && mail == old(mail)[id := old(mail)[id] + [m]]
    {
      var p := Post(s.pools[k], m);
      Stepped(ServerStep);
      ReceivedOne(s.pools, mail, k, p);
      mail := mail[p.id := p.posted];
      s := NextServer(size, s);
    }

    /** `emplace_back`. */
    method AddPool()
      requires Valid() && s.side.Iterate? && s.side.job.Listen? && s.side.k == |s.pools|
      modifies this`s, this`mail
      ensures Valid() && s == NextServer(size, old(s)) && mail == old(mail)[old(s).nextId := []]
    {
      Stepped(ServerStep);
      ReceivedFresh(s, mail, size);
      mail := mail[s.nextId := []];
      s := NextServer(size, s);
    }

    /** The threads of the pools take any number of steps. */
    method Threads()
      requires Valid()
      modifies this`s
      ensures Valid() && |s.pools| == |old(s).pools| && Ids(s.pools) == Ids(old(s).pools)
      ensures s == old(s).(pools := s.pools)
    {
      var n: nat :| true;
      for k := 0 to n
        invariant Valid() && |s.pools| == |old(s).pools| && Ids(s.pools) == Ids(old(s).pools)
        invariant s == old(s).(pools := s.pools)
      {
        var i: nat, e: ClientPool.Event :| true;
        if i < |s.pools| && ClientPool.Enabled(s.pools[i], e) {
          IdStays(i, e);
          Do(PoolStep(i, e));
        }
      }
    }

    lemma IdStays(i: nat, e: ClientPool.Event)
      requires Valid() && i < |s.pools| && ClientPool.Enabled(s.pools[i], e)
      ensures Ids(s.pools[i := ClientPool.Next(s.pools[i], e)]) == Ids(s.pools)
    {
      assert ClientPool.Next(s.pools[i], e).id == s.pools[i].id;
    }

    /** The functor: the listener's looks whether the pool is full, the announcer's tells it of a new block. */
    method CallFunctor(ghost first: map<nat, seq<Msg>>) returns (goOn: bool)
      requires Valid() && s.side.Call? && s.side.k < |s.pools| && PostedTo(Ids(s.seen), first, mail, Mail(s.side.job))
      modifies this`s, this`mail
      ensures Valid() && PostedTo(Ids(s.seen), first, mail, Mail(old(s).side.job)) && Called(old(s), s, goOn)
    {
      Threads();
      if s.side.job.Announce? {
        TellNewBlock(first);
        goOn := true;
      } else {
        goOn := LookIfFull(first);
      }
    }

    method TellNewBlock(ghost first: map<nat, seq<Msg>>)
      requires Valid() && s.side.Call? && s.side.k < |s.pools| && s.side.job.Announce?
      requires PostedTo(Ids(s.seen), first, mail, [Msg.NewBlock])
      modifies this`s, this`mail
      ensures Valid() && PostedTo(Ids(s.seen), first, mail, [Msg.NewBlock]) && Called(old(s), s, true)
    {
      ghost var seen, before, id := Ids(s.seen), mail, s.pools[s.side.k].id;
      SeenNext(s.side.k);
      Write(s.side.k, Msg.NewBlock);
      PostedOneMore(seen, first, before, id, [Msg.NewBlock]);
      assert Ids(s.seen) == seen + [id];
    }

    method LookIfFull(ghost first: map<nat, seq<Msg>>) returns (full: bool)
      requires Valid() && s.side.Call? && s.side.k < |s.pools| && s.side.job.Listen?
      requires PostedTo(Ids(s.seen), first, mail, [])
      modifies this`s
      ensures Valid() && PostedTo(Ids(s.seen), first, mail, []) && Called(old(s), s, full)
    {
      full := IsFull(s.pools[s.side.k]);
      PostedNothing(Ids(s.seen), first, mail);
      Do(ServerStep);
    }

    /** The body of the loop: the pool at the iterator is erased, if it has finished, or visited. */
    method EraseOrVisit(ghost first: map<nat, seq<Msg>>) returns (goOn: bool)
      requires Valid() && s.side.Iterate? && s.side.k < |s.pools|
      requires PostedTo(Ids(s.seen), first, mail, Mail(s.side.job))
      modifies this`s, this`mail
      ensures Valid() && PostedTo(Ids(s.seen), first, mail, Mail(old(s).side.job)) && Walking(old(s), s)
      ensures if goOn
        then s.side.Iterate? && s.side.job == old(s).side.job && |s.pools| - s.side.k < |old(s).pools| - old(s).side.k
        else old(s).side.job.Listen? && s.side == Chosen(old(s).side.job.fd, old(s).side.k)
    {
      Threads();
      var finished := TestFinished();
      goOn := true;
      if !finished {
        goOn := CallFunctor(first);
      }
    }

    /** A finished pool is erased; the functor is to be called on another. */
    method TestFinished() returns (finished: bool)
      requires Valid() && s.side.Iterate? && s.side.k < |s.pools|
      modifies this`s
      ensures Valid() && Walking(old(s), s) && s.seen == old(s).seen
      ensures if finished then |s.pools| == |old(s).pools| - 1 && s.side == old(s).side
        else |s.pools| == |old(s).pools| && s.side == Call(old(s).side.job, old(s).side.k)
    {
      finished := s.pools[s.side.k].finished;
      Do(ServerStep);
    }

    /** `iterate_pools`: the functor is called once on each surviving pool, in order, until it stops the walk;
        the survivors are the old pools, in their order, less the finished ones met on the way. */
    method IteratePools() returns (stopped: bool)
      requires Valid() && s.side.Iterate? && s.side.k == 0
      modifies this`s, this`mail
      ensures Valid() && Walking(old(s), s) && PostedTo(Ids(s.seen), old(mail), mail, Mail(old(s).side.job))
      ensures if stopped then old(s).side.job.Listen? && s.side.Chosen? && s.side.fd == old(s).side.job.fd
        else s.side == Iterate(old(s).side.job, |s.pools|)
    {
      assert Ids(s.seen) == [];
      while s.side.k < |s.pools|
        invariant Valid() && s.side.Iterate? && s.side.job == old(s).side.job && Walking(old(s), s)
        invariant PostedTo(Ids(s.seen), old(mail), mail, Mail(old(s).side.job))
        decreases |s.pools| - s.side.k
      {
        var goOn := EraseOrVisit(old(mail));
        if !goOn {
          return true;
        }
      }
      stopped := false;
    }

    /** The chosen pool is written the client, after room was counted for it. */
    method AddSocket(k: nat, fd: nat)
      requires Valid() && s.side == Chosen(fd, k)
      modifies this`s, this`mail
      ensures Valid() && s.side.Idle? && s == old(s).(pools := s.pools, side := Idle) && k < |s.pools|
      ensures ChosenOk(s, k)
      ensures var id := s.pools[k].id;
        id in old(mail) && mail == old(mail)[id := old(mail)[id] + [Add(fd)]]
    {
      Do(ServerStep);
      Threads();
      Write(k, Add(fd));
    }

    /** The walk of the listener, and a new pool if it finds no other. */
    method FindPool()
      requires Valid() && s.side.Iterate? && s.side.k == 0 && s.side.job.Listen? && s.added == [] && s.gone == []
      modifies this`s, this`mail
      ensures Valid() && s.side.Chosen? && s.side.fd == old(s).side.job.fd
      ensures s.start == old(s).start && s.erased == old(s).erased + s.gone
      ensures forall i :: 0 <= i < |s.gone| ==> s.gone[i].finished && NoClients(s.gone[i])
      ensures if s.added == [] then mail == old(mail)
        else
          && s.side.k == |s.pools| - 1 && s.pools[s.side.k].id == old(s).nextId
          && mail == old(mail)[old(s).nextId := []]
    {
      var stopped := IteratePools();
      PostedNothing(Ids(s.seen), old(mail), mail);
      if !stopped {
        AddPool();
      }
      FinishedHasNoClients(size, s);
    }

    /** What the listener does with an accepted socket: it is counted in and written to the first pool that is
        found not full, or to a new one at the back, and nothing is written to any other; what leaves the list
        had finished, and held no client. */
    method PlaceSocket(fd: nat) returns (at: nat)
      requires Valid() && s.side.Idle?
      modifies this`s, this`mail
      ensures Valid() && s.side.Idle? && s.start == Ids(old(s).pools) && s.erased == old(s).erased + s.gone
      ensures forall i :: 0 <= i < |s.gone| ==> s.gone[i].finished && NoClients(s.gone[i])
      ensures at < |s.pools| && ChosenOk(s, at)
      ensures var id := s.pools[at].id;
        if s.added == [] then id in old(mail) && mail == old(mail)[id := old(mail)[id] + [Add(fd)]]
        else id == old(s).nextId && mail == old(mail)[id := [Add(fd)]]
    {
      Do(Accept(fd));
      FindPool();
      at := s.side.k;
      AddSocket(at, fd);
      FirstMail(old(mail), old(s).nextId, Add(fd));
    }

    /** Every surviving pool is told of a new block, once, and no other pool is written anything; what leaves
        the list had finished, and held no client. */
    method NotifyNewBlock()
      requires Valid() && s.side.Idle?
      modifies this`s, this`mail
      ensures Valid() && s.side.Idle? && s.start == Ids(old(s).pools) && s.erased == old(s).erased + s.gone
      ensures forall i :: 0 <= i < |s.gone| ==> s.gone[i].finished && NoClients(s.gone[i])
      ensures s.added == [] && Ids(s.seen) == Ids(s.pools)
      ensures PostedTo(Ids(s.pools), old(mail), mail, [Msg.NewBlock])
    {
      Do(PoolServer.Event.NewBlock);
      var stopped := IteratePools();
      assert Ids(s.pools)[..|s.pools|] == Ids(s.pools);
      Do(ServerStep);
      FinishedHasNoClients(size, s);
    }

    lemma SeenNext(k: nat)
      requires Valid() && s.side.Call? && s.side.k == k < |s.pools|
      ensures s.pools[k].id !in Ids(s.seen)
    {
      var ids := Ids(s.pools);
      assert Ids(s.seen) == Ids(s.visited)[..k] == ids[..k];
      assert forall i :: 0 <= i < k ==> ids[i] != ids[k];
    }
  }

  /** The functor was called on the pool at the iterator, and the walk goes on, or has found its pool. */
  ghost predicate Called(a: State, b: State, goOn: bool)
    requires a.side.Call?
  {
    && |b.pools| == |a.pools| && b.erased == a.erased && b.gone == a.gone
    && b.start == a.start && b.nextId == a.nextId && b.added == a.added && (goOn || a.side.job.Listen?)
    && b.side == if a.side.job.Listen? && !goOn then Chosen(a.side.job.fd, a.side.k) else Iterate(a.side.job, a.side.k + 1)
  }

  /** A part of one walk: the list it began with is the same, and what it erases is added to what was erased. */
  ghost predicate Walking(a: State, b: State) {
    && b.start == a.start && b.added == a.added && b.nextId == a.nextId
    && |a.gone| <= |b.gone| && b.gone[..|a.gone|] == a.gone && b.erased == a.erased + b.gone[|a.gone|..]
  }

  /** What the functor posts to each pool it is called on. */
  function Mail(job: Job): seq<Msg> {
    if job.Announce? then [Msg.NewBlock] else []
  }
}
