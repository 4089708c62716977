/** The two receive loops, over their fixed buffers: the client's, which searches with memchr, and the node's,
    whose message function searches for itself and returns how much it consumed. */
module LineBuffers {
  import opened Framing

  /** The first newline of `whole` at `start` or behind it. */
  function NextNewline(whole: bytes, start: nat): (i: nat)
    requires start <= |whole|
    ensures start <= i <= |whole|
    decreases |whole| - start
  {
    if start == |whole| || whole[start] == '\n' then start else NextNewline(whole, start + 1)
  }

  /** What a loop over the lines of `whole` behind `start` hands over, whether it gets to the end, and
      where it stops. */
  function LineLoop(accept: seq<bytes> -> bool, done: seq<bytes>, whole: bytes, start: nat): (r: (seq<bytes>, bool, nat))
    requires start <= |whole|
    ensures start <= r.2 <= |whole|
    decreases |whole| - start
  {
    var i := NextNewline(whole, start);
    if i == |whole| then (done, true, start)
    else
      var more := done + [whole[start..i + 1]];
      if accept(more) then LineLoop(accept, more, whole, i + 1) else (more, false, i + 1)
  }

  lemma {:induction false} NextNewlineIsFirst(whole: bytes, start: nat)
    requires start <= |whole|
    ensures NextNewline(whole, start) == start + FirstNewline(whole[start..])
    decreases |whole| - start
  {
    if start < |whole| && whole[start] != '\n' {
      NextNewlineIsFirst(whole, start + 1);
      assert whole[start..][1..] == whole[start + 1..];
    }
  }

  lemma {:induction false} LineLoopTurn(accept: seq<bytes> -> bool, done: seq<bytes>, whole: bytes, start: nat, i: nat)
    requires start <= |whole| && i == NextNewline(whole, start) && i < |whole|
    ensures var more := done + [whole[start..i + 1]];
      LineLoop(accept, done, whole, start) ==
      if accept(more) then LineLoop(accept, more, whole, i + 1) else (more, false, i + 1)
  {
  }

  lemma HandleFirst(accept: seq<bytes> -> bool, done: seq<bytes>, line: bytes, lines: seq<bytes>)
    ensures Handle(accept, done, [line] + lines) ==
      (if accept(done + [line]) then Handle(accept, done + [line], lines) else (done + [line], false))
  {
    assert ([line] + lines)[1..] == lines;
  }

  lemma {:induction false} LineLoopStep(accept: seq<bytes> -> bool, done: seq<bytes>, whole: bytes, start: nat)
    requires start <= |whole|
    ensures var i := FirstNewline(whole[start..]);
      LineLoop(accept, done, whole, start) ==
      if start + i == |whole| then (done, true, start)
      else
        var more := done + [whole[start..start + i + 1]];
        if accept(more) then LineLoop(accept, more, whole, start + i + 1) else (more, false, start + i + 1)
  {
    NextNewlineIsFirst(whole, start);
  }

  /** The first line of the unread part, and the rest of it. */
  lemma {:induction false} FirstUnread(whole: bytes, start: nat, next: nat)
    requires start <= |whole| && next == start + FirstNewline(whole[start..]) + 1 <= |whole|
    ensures Lines(whole[start..]) == [whole[start..next]] + Lines(whole[next..])
    ensures Tail(whole[start..]) == Tail(whole[next..])
  {
    var s, i := whole[start..], next - start - 1;
    FirstLine(s, i);
    assert s[..i + 1] == whole[start..next] && s[i + 1..] == whole[next..];
  }

  lemma HandleUnread(accept: seq<bytes> -> bool, done: seq<bytes>, whole: bytes, start: nat, next: nat)
    requires start <= |whole| && next == start + FirstNewline(whole[start..]) + 1 <= |whole|
    ensures var more := done + [whole[start..next]];
      Handle(accept, done, Lines(whole[start..])) ==
      if accept(more) then Handle(accept, more, Lines(whole[next..])) else (more, false)
  {
    FirstUnread(whole, start, next);
    HandleFirst(accept, done, whole[start..next], Lines(whole[next..]));
  }

  /** The loop hands over a buffer's lines ... */
  lemma {:induction false} LineLoopHandlesLines(accept: seq<bytes> -> bool, done: seq<bytes>, whole: bytes, start: nat)
    requires start <= |whole|
    ensures var (d, ok, _) := LineLoop(accept, done, whole, start);
      (d, ok) == Handle(accept, done, Lines(whole[start..]))
    decreases |whole| - start
  {
    LineLoopStep(accept, done, whole, start);
    var next := start + FirstNewline(whole[start..]) + 1;
    if next > |whole| {
      NoLine(whole[start..]);
    } else {
      HandleUnread(accept, done, whole, start, next);
      if accept(done + [whole[start..next]]) {
        LineLoopHandlesLines(accept, done + [whole[start..next]], whole, next);
      }
    }
  }

  lemma {:induction false} UnreadTail(whole: bytes, start: nat, i: nat)
    requires start <= |whole| && i == NextNewline(whole, start)
    ensures Tail(whole[start..]) == if i == |whole| then whole[start..] else Tail(whole[i + 1..])
  {
    NextNewlineIsFirst(whole, start);
    if i == |whole| {
      NoLine(whole[start..]);
    } else {
      FirstUnread(whole, start, i + 1);
    }
  }

  /** Stopped where what is kept begins. */
  ghost predicate KeepsTail(r: (seq<bytes>, bool, nat), whole: bytes, tail: bytes) {
    r.1 ==> r.2 <= |whole| && whole[r.2..] == tail
  }

  /** ... and stops at what is to be kept. */
  lemma {:induction false} LineLoopKeepsTail(accept: seq<bytes> -> bool, done: seq<bytes>, whole: bytes, start: nat)
    requires start <= |whole|
    ensures KeepsTail(LineLoop(accept, done, whole, start), whole, Tail(whole[start..]))
    decreases |whole| - start, 1
  {
    var i := NextNewline(whole, start);
    UnreadTail(whole, start, i);
    if i == |whole| {
      LineLoopEnds(accept, done, whole, start, i);
    } else {
      LineLoopTurn(accept, done, whole, start, i);
      OneTurnKeepsTail(accept, done + [whole[start..i + 1]], whole, i + 1);
    }
  }

  lemma {:induction false} OneTurnKeepsTail(accept: seq<bytes> -> bool, more: seq<bytes>, whole: bytes, next: nat)
    requires next <= |whole|
    ensures accept(more) ==> KeepsTail(LineLoop(accept, more, whole, next), whole, Tail(whole[next..]))
    decreases |whole| - next, 2
  {
    if accept(more) {
      LineLoopKeepsTail(accept, more, whole, next);
    }
  }

  lemma {:induction false} LineLoopEnds(accept: seq<bytes> -> bool, done: seq<bytes>, whole: bytes, start: nat, i: nat)
    requires start <= |whole| && i == NextNewline(whole, start) == |whole|
    ensures LineLoop(accept, done, whole, start) == (done, true, start)
  {
  }

  lemma ReceiveIsLineLoop(accept: seq<bytes> -> bool, size: nat, s: Stream, chunk: bytes)
    requires s.status == Open && |s.rest| + |chunk| < size
    ensures var whole := s.rest + chunk;
      var (done, ok, end) := LineLoop(accept, s.done, whole, 0);
      && Receive(accept, size, s, chunk) ==
           (if ok then Stream(done, whole[end..], Open) else Stream(done, [], Rejected))
      && (ok ==> '\n' !in whole[end..])
  {
    var whole := s.rest + chunk;
    assert whole[0..] == whole;
    LineLoopHandlesLines(accept, s.done, whole, 0);
    LineLoopKeepsTail(accept, s.done, whole, 0);
    TailHasNoNewline(whole);
  }

  /** A socket's receive buffer, its first `len` bytes in use; `done` records the lines handed over. */
  class LineBuffer {
    const buf: array<char>
    const accept: seq<bytes> -> bool
    var len: nat
    var status: Status
    var done: seq<bytes>

    ghost predicate Valid()
      reads this, buf
    {
      && len <= buf.Length
      && (status == Open ==> len < buf.Length && '\n' !in buf[..len])
    }

    ghost function Contents(): Stream
      reads this, buf
      requires Valid()
    {
      Stream(done, if status == Rejected then [] else buf[..len], status)
    }

    /** The unread part of `whole` stands at `start`, where it came to stand. */
    ghost predicate Unread(whole: bytes, start: nat)
      reads this, buf
    {
      start + len == |whole| < buf.Length && forall k :: start <= k < |whole| ==> buf[k] == whole[k]
    }

    constructor (size: nat, accept: seq<bytes> -> bool)
      requires size > 0
      ensures Valid() && fresh(buf) && buf.Length == size && this.accept == accept && Contents() == FRESH
    {
      this.accept := accept;
      buf, len, status, done := new char[size](_ => '\0'), 0, Open, [];
    }

    /** The read itself, behind the bytes kept. */
    method Append(chunk: bytes)
      requires Valid() && status == Open && |chunk| <= buf.Length - len
      modifies this`len, buf
      ensures len == old(len) + |chunk| <= buf.Length && buf[..len] == old(buf[..len]) + chunk
    {
      forall i | 0 <= i < |chunk| {
        buf[len + i] := chunk[i];
      }
      len := len + |chunk|;
    }

    lemma AsStored(whole: bytes)
      requires len <= buf.Length && buf[..len] == whole && len < buf.Length
      ensures Unread(whole, 0)
    {
      assert forall k :: 0 <= k < len ==> buf[..len][k] == buf[k];
    }

    lemma Moved(whole: bytes, start: nat)
      requires start + len == |whole| && len <= buf.Length
      requires forall k :: 0 <= k < len ==> buf[k] == whole[start + k]
      ensures buf[..len] == whole[start..]
    {
    }

    /** `memchr` over the unread part; its end when there is no newline. */
    method FindNewline(ghost whole: bytes, start: nat) returns (i: nat)
      requires Unread(whole, start)
      ensures i == NextNewline(whole, start)
    {
      i := start;
      while i < start + len && buf[i] != '\n'
        invariant start <= i <= |whole| && NextNewline(whole, i) == NextNewline(whole, start)
      {
        i := i + 1;
      }
    }

    /** Replaces the newline by a NUL and parses the line where it stands, which may change any of its bytes. */
    method ProcessLine(start: nat, n: nat) returns (ok: bool)
      requires n > 0 && start + n <= buf.Length
      modifies buf, this`done
      ensures done == old(done) + [old(buf[start..start + n])] && ok == accept(done)
      ensures forall k :: 0 <= k < start || start + n <= k < buf.Length ==> buf[k] == old(buf[k])
    {
      done := done + [buf[start..start + n]];
      buf[start + n - 1] := '\0';
      var i := start;
      while i < start + n - 1
        invariant start <= i <= start + n - 1 && done == old(done) + [old(buf[start..start + n])]
        invariant forall k :: 0 <= k < start || start + n <= k < buf.Length ==> buf[k] == old(buf[k])
      {
        var b: char :| true;
        buf[i] := b;
        i := i + 1;
      }
      ok := accept(done);
    }

    /** `memmove` of the `n` bytes at `start` to the front. */
    method MoveToFront(start: nat, n: nat)
      requires start + n <= buf.Length
      modifies buf
      ensures forall k :: 0 <= k < n ==> buf[k] == old(buf[start + k])
    {
      forall i | 0 <= i < n {
        buf[i] := buf[start + i];
      }
    }

    /** One line of the client's buffer, whose newline is at `i`. */
    method ClientLine(ghost whole: bytes, start: nat, i: nat) returns (ok: bool)
      requires Unread(whole, start) && i == NextNewline(whole, start) && i < |whole|
      modifies this`len, this`done, buf
      ensures LineLoop(accept, old(done), whole, start) ==
        if ok then LineLoop(accept, done, whole, i + 1) else (done, false, i + 1)
      ensures if ok then Unread(whole, i + 1) && len < old(len) else len <= buf.Length
    {
      assert buf[start..i + 1] == whole[start..i + 1];
      LineLoopTurn(accept, done, whole, start, i);
      ok := ProcessLine(start, i + 1 - start);
      if ok {
        len := len - (i + 1 - start);
      }
    }

    /** The lines of the client's buffer; `start` is where the last of them ended. */
    method ClientLines(ghost whole: bytes) returns (start: nat)
      requires Unread(whole, 0) && status == Open
      modifies this`len, this`status, this`done, buf
      ensures len <= buf.Length && (done, status == Open, start) == LineLoop(accept, old(done), whole, 0)
      ensures status != Overflowed && (status == Open ==> Unread(whole, start))
    {
      start := 0;
      var i := FindNewline(whole, start);
      while i < start + len
        invariant Unread(whole, start) && i == NextNewline(whole, start) && status == Open
        invariant LineLoop(accept, done, whole, start) == LineLoop(accept, old(done), whole, 0)
        decreases len
      {
        var ok := ClientLine(whole, start, i);
        start := i + 1;
        if !ok {
          status := Rejected;
          return;
        }
        i := FindNewline(whole, start);
      }
    }

    /** One turn of the client's loop, after a read of `chunk`; false when the connection is to be closed. */
    method ClientReceive(chunk: bytes) returns (keep: bool)
      requires Valid() && status == Open && 0 < |chunk| <= buf.Length - len
      modifies this`len, this`status, this`done, buf
      ensures Valid() && Contents() == Receive(accept, buf.Length, old(Contents()), chunk)
      ensures keep == (status == Open)
    {
      ghost var whole := buf[..len] + chunk;
      if len + |chunk| < buf.Length {
        ReceiveIsLineLoop(accept, buf.Length, Contents(), chunk);
      }
      Append(chunk);
      if len >= buf.Length {
        status := Overflowed;
        return false;
      }
      AsStored(whole);
      var start := ClientLines(whole);
      if status != Open {
        return false;
      }
      if len > 0 && start != 0 {
        MoveToFront(start, len);
      }
      Moved(whole, start);
      return true;
    }

    /** The node's message function, as far as framing goes: what it consumed, 0 without a newline, -1 to
        give up the connection. */
    method ProcessMessage(ghost whole: bytes, start: nat) returns (ret: int)
      requires Unread(whole, start)
      modifies buf, this`done
      ensures var i := NextNewline(whole, start);
        if i == |whole| then ret == 0 && done == old(done) && Unread(whole, start)
        else
          && done == old(done) + [whole[start..i + 1]]
          && ret == (if accept(done) then i + 1 - start else -1)
          && forall k :: i < k < |whole| ==> buf[k] == whole[k]
    {
      var i := FindNewline(whole, start);
      if i == start + len {
        return 0;
      }
      assert buf[start..i + 1] == whole[start..i + 1];
      var ok := ProcessLine(start, i + 1 - start);
      return if ok then i + 1 - start else -1;
    }

    /** The lines of the node's buffer. */
    method NodeLines(ghost whole: bytes) returns (start: nat)
      requires Unread(whole, 0) && status == Open
      modifies this`len, this`status, this`done, buf
      ensures len <= buf.Length && status != Overflowed
      ensures var (d, ok, end) := LineLoop(accept, old(done), whole, 0);
        done == d && (status == Open) == ok && (ok ==> start == end && Unread(whole, start))
    {
      start := 0;
      while true
        invariant Unread(whole, start) && status == Open
        invariant LineLoop(accept, done, whole, start) == LineLoop(accept, old(done), whole, 0)
        decreases len
      {
        ghost var i := NextNewline(whole, start);
        if i < |whole| {
          LineLoopTurn(accept, done, whole, start, i);
        } else {
          LineLoopEnds(accept, done, whole, start, i);
        }
        var ret := ProcessMessage(whole, start);
        if ret == 0 {
          break;
        }
        if ret < 0 {
          status := Rejected;
          return;
        }
        assert start + ret == i + 1;
        len := len - ret;
        start := start + ret;
      }
    }

    /** One turn of the node's loop. */
    method NodeReceive(chunk: bytes) returns (keep: bool)
      requires Valid() && status == Open && 0 < |chunk| <= buf.Length - len
      modifies this`len, this`status, this`done, buf
      ensures Valid() && Contents() == Receive(accept, buf.Length, old(Contents()), chunk)
      ensures keep == (status == Open)
    {
      ghost var whole := buf[..len] + chunk;
      if len + |chunk| < buf.Length {
        ReceiveIsLineLoop(accept, buf.Length, Contents(), chunk);
      }
      Append(chunk);
      if len >= buf.Length {
        status := Overflowed;
        return false;
      }
      AsStored(whole);
      var start := NodeLines(whole);
      if status != Open {
        return false;
      }
      if len > 0 && start != 0 {
        MoveToFront(start, len);
      }
      Moved(whole, start);
      return true;
    }
  }
}
