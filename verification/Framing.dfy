/** Lines out of a byte stream: what the receive loops of the client and of the node make of a stream that
    arrives in pieces, whatever the pieces. */
module Framing {

  type bytes = seq<char>

  function FirstNewline(s: bytes): (i: nat)
    ensures i <= |s|
  {
    if s == [] || s[0] == '\n' then 0 else 1 + FirstNewline(s[1..])
  }

  lemma {:induction false} FirstNewlineFinds(s: bytes)
    ensures forall k :: 0 <= k < FirstNewline(s) ==> s[k] != '\n'
    ensures FirstNewline(s) < |s| ==> s[FirstNewline(s)] == '\n'
  {
    if s != [] && s[0] != '\n' {
      FirstNewlineFinds(s[1..]);
      assert forall k :: 0 < k < |s| ==> s[k] == s[1..][k - 1];
    }
  }

  /** The complete lines of a stream, each with its newline ... */
  function Lines(s: bytes): seq<bytes> {
    var i := FirstNewline(s);
    if i == |s| then [] else [s[..i + 1]] + Lines(s[i + 1..])
  }

  /** ... and what follows the last of them. */
  function Tail(s: bytes): bytes {
    var i := FirstNewline(s);
    if i == |s| then s else Tail(s[i + 1..])
  }

  function Concat(pieces: seq<bytes>): bytes {
    if pieces == [] then [] else pieces[0] + Concat(pieces[1..])
  }

  lemma {:induction false} FirstLine(s: bytes, i: nat)
    requires i == FirstNewline(s) && i < |s|
    ensures Lines(s) == [s[..i + 1]] + Lines(s[i + 1..])
    ensures Tail(s) == Tail(s[i + 1..])
  {
  }

  lemma {:induction false} NoLine(s: bytes)
    requires FirstNewline(s) == |s|
    ensures Lines(s) == [] && Tail(s) == s
  {
  }

  lemma ConcatCons(x: bytes, xs: seq<bytes>)
    ensures Concat([x] + xs) == x + Concat(xs)
  {
    assert ([x] + xs)[1..] == xs;
  }

  lemma {:induction false} LinesThenTail(s: bytes)
    ensures Concat(Lines(s)) + Tail(s) == s
    decreases |s|
  {
    var i := FirstNewline(s);
    if i < |s| {
      var line, more := s[..i + 1], s[i + 1..];
      FirstLine(s, i);
      LinesThenTail(more);
      ConcatCons(line, Lines(more));
      assert s == line + more;
      PutTogether(line, Concat(Lines(more)), Tail(more), more, Concat(Lines(s)));
    } else {
      NoLine(s);
    }
  }

  lemma PutTogether(line: bytes, lines: bytes, tail: bytes, more: bytes, all: bytes)
    requires lines + tail == more && all == line + lines
    ensures all + tail == line + more
  {
  }

  lemma {:induction false} TailHasNoNewline(s: bytes)
    ensures '\n' !in Tail(s)
    decreases |s|
  {
    FirstNewlineFinds(s);
    var i := FirstNewline(s);
    if i < |s| {
      TailHasNoNewline(s[i + 1..]);
    }
  }

  /** A line ends with its only newline. */
  predicate IsLine(line: bytes) {
    line != [] && line[|line| - 1] == '\n' && '\n' !in line[..|line| - 1]
  }

  lemma {:induction false} LinesAreLines(s: bytes)
    ensures forall k :: 0 <= k < |Lines(s)| ==> IsLine(Lines(s)[k])
    decreases |s|
  {
    FirstNewlineFinds(s);
    var i := FirstNewline(s);
    if i < |s| {
      LinesAreLines(s[i + 1..]);
      assert s[..i + 1][..i] == s[..i];
      assert Lines(s) == [s[..i + 1]] + Lines(s[i + 1..]);
    }
  }

  lemma FirstNewlineIs(s: bytes, i: nat)
    requires i < |s| && s[i] == '\n' && forall k :: 0 <= k < i ==> s[k] != '\n'
    ensures FirstNewline(s) == i
  {
    FirstNewlineFinds(s);
  }

  /** Cutting a stream anywhere and carrying the tail over changes neither its lines nor its tail. */
  lemma {:induction false} CutAnywhere(a: bytes, b: bytes)
    ensures Lines(a + b) == Lines(a) + Lines(Tail(a) + b)
    ensures Tail(a + b) == Tail(Tail(a) + b)
    decreases |a|
  {
    FirstNewlineFinds(a);
    var i := FirstNewline(a);
    if i < |a| {
      assert (a + b)[..i] == a[..i] && (a + b)[..i + 1] == a[..i + 1];
      FirstNewlineIs(a + b, i);
      assert (a + b)[i + 1..] == a[i + 1..] + b;
      CutAnywhere(a[i + 1..], b);
    }
  }

  // ---------------------------------------------------------------- a receiver

  datatype Status = Open | Rejected | Overflowed

  /** `done` are the lines handed to the handler, as they arrived; `rest` the bytes kept for the next read. */
  datatype Stream = Stream(done: seq<bytes>, rest: bytes, status: Status)

  const FRESH := Stream([], [], Open)

  /** Hands lines over until the handler, which may remember all it was given, rejects one. */
  function Handle(accept: seq<bytes> -> bool, done: seq<bytes>, lines: seq<bytes>): (seq<bytes>, bool)
    decreases |lines|
  {
    if lines == [] then (done, true)
    else if accept(done + [lines[0]]) then Handle(accept, done + [lines[0]], lines[1..])
    else (done + [lines[0]], false)
  }

  /** One read of `chunk` into a buffer of `size` bytes. */
  function Receive(accept: seq<bytes> -> bool, size: nat, s: Stream, chunk: bytes): Stream {
    if s.status != Open then s
    else if |s.rest| + |chunk| >= size then Stream(s.done, s.rest + chunk, Overflowed)
    else
      var (done, ok) := Handle(accept, s.done, Lines(s.rest + chunk));
      if ok then Stream(done, Tail(s.rest + chunk), Open) else Stream(done, [], Rejected)
  }

  function ReceiveAll(accept: seq<bytes> -> bool, size: nat, s: Stream, chunks: seq<bytes>): Stream
    decreases |chunks|
  {
    if chunks == [] then s else ReceiveAll(accept, size, Receive(accept, size, s, chunks[0]), chunks[1..])
  }

  lemma {:induction false} HandleAppend(accept: seq<bytes> -> bool, done: seq<bytes>, a: seq<bytes>, b: seq<bytes>)
    ensures var (d, ok) := Handle(accept, done, a);
      Handle(accept, done, a + b) == if ok then Handle(accept, d, b) else (d, false)
    decreases |a|
  {
    if a == [] {
      assert a + b == b;
    } else {
      assert (a + b)[1..] == a[1..] + b;
      if accept(done + [a[0]]) {
        HandleAppend(accept, done + [a[0]], a[1..], b);
      }
    }
  }

  lemma {:induction false} HandleExtends(accept: seq<bytes> -> bool, done: seq<bytes>, lines: seq<bytes>)
    ensures var (d, ok) := Handle(accept, done, lines);
      done <= d <= done + lines && (ok ==> d == done + lines)
    decreases |lines|
  {
    if lines != [] {
      assert done + lines == (done + [lines[0]]) + lines[1..];
      if accept(done + [lines[0]]) {
        HandleExtends(accept, done + [lines[0]], lines[1..]);
      }
    }
  }

  lemma {:induction false} StaysClosed(accept: seq<bytes> -> bool, size: nat, s: Stream, chunks: seq<bytes>)
    requires s.status != Open
    ensures ReceiveAll(accept, size, s, chunks) == s
    decreases |chunks|
  {
    if chunks != [] {
      StaysClosed(accept, size, s, chunks[1..]);
    }
  }

  /** `r` is what becomes of bytes with the given lines and tail. */
  ghost predicate Accounts(accept: seq<bytes> -> bool, done: seq<bytes>, lines: seq<bytes>, tail: bytes, r: Stream) {
    && (r.status == Open ==> r.rest == tail)
    && (r.status != Overflowed ==> (r.done, r.status == Open) == Handle(accept, done, lines))
    && done <= r.done <= done + lines
  }

  lemma {:induction false} ReceiveAllFrom(accept: seq<bytes> -> bool, size: nat, s: Stream, chunks: seq<bytes>)
    requires s.status == Open && '\n' !in s.rest
    ensures var whole := s.rest + Concat(chunks);
      Accounts(accept, s.done, Lines(whole), Tail(whole), ReceiveAll(accept, size, s, chunks))
    decreases |chunks|
  {
    if chunks == [] {
      assert s.rest + Concat(chunks) == s.rest;
      assert s.done + [] == s.done;
      FirstNewlineFinds(s.rest);
    } else {
      var t, first, more := Receive(accept, size, s, chunks[0]), s.rest + chunks[0], Concat(chunks[1..]);
      assert s.rest + Concat(chunks) == first + more;
      CutAnywhere(first, more);
      if t.status == Open {
        TailHasNoNewline(first);
        ReceiveAllFrom(accept, size, t, chunks[1..]);
      } else {
        StaysClosed(accept, size, t, chunks[1..]);
      }
      var rest := Tail(first) + more;
      OneThenMore(accept, s.done, Lines(first), Lines(rest), Tail(rest), t, ReceiveAll(accept, size, t, chunks[1..]));
    }
  }

  /** `t` after the lines `a`, then `r` after the lines `b`. */
  lemma OneThenMore(accept: seq<bytes> -> bool, done: seq<bytes>, a: seq<bytes>, b: seq<bytes>, tail: bytes, t: Stream, r: Stream)
    requires t.status != Overflowed ==> (t.done, t.status == Open) == Handle(accept, done, a)
    requires t.status == Overflowed ==> t.done == done
    requires if t.status == Open then Accounts(accept, t.done, b, tail, r) else r == t
    ensures Accounts(accept, done, a + b, tail, r)
  {
    HandleExtends(accept, done, a);
    HandleAppend(accept, done, a, b);
    assert (done + a) + b == done + (a + b);
    assert done <= done + (a + b);
  }

  /** All lines handed over were accepted, but the last if the stream was rejected; the buffer overflowed just if
      what is kept does not fit it. */
  ghost predicate Heeds(accept: seq<bytes> -> bool, size: nat, before: nat, r: Stream) {
    && before <= |r.done|
    && (forall k :: before < k < |r.done| ==> accept(r.done[..k]))
    && (if r.status == Rejected then before < |r.done| && !accept(r.done) else before < |r.done| ==> accept(r.done))
    && (r.status == Overflowed <==> |r.rest| >= size)
  }

  lemma {:induction false} HandleHeeds(accept: seq<bytes> -> bool, done: seq<bytes>, lines: seq<bytes>)
    ensures var (d, ok) := Handle(accept, done, lines);
      && done <= d && (forall k :: |done| < k < |d| ==> accept(d[..k]))
      && (if ok then |done| < |d| ==> accept(d) else |done| < |d| && !accept(d))
    decreases |lines|
  {
    if lines != [] && accept(done + [lines[0]]) {
      HandleHeeds(accept, done + [lines[0]], lines[1..]);
      var (d, ok) := Handle(accept, done, lines);
      assert d[..|done| + 1] == done + [lines[0]] && d[..|d|] == d;
    }
  }

  lemma TailFits(s: bytes)
    ensures |Tail(s)| <= |s|
  {
    LinesThenTail(s);
  }

  lemma OneReadHeeds(accept: seq<bytes> -> bool, size: nat, s: Stream, chunk: bytes)
    requires s.status == Open && size > 0
    ensures Heeds(accept, size, |s.done|, Receive(accept, size, s, chunk))
    ensures s.done <= Receive(accept, size, s, chunk).done
  {
    HandleHeeds(accept, s.done, Lines(s.rest + chunk));
    TailFits(s.rest + chunk);
  }

  lemma {:induction false} ReadsHeed(accept: seq<bytes> -> bool, size: nat, s: Stream, chunks: seq<bytes>)
    requires s.status == Open && |s.rest| < size
    ensures Heeds(accept, size, |s.done|, ReceiveAll(accept, size, s, chunks))
    ensures s.done <= ReceiveAll(accept, size, s, chunks).done
    decreases |chunks|
  {
    if chunks != [] {
      var t := Receive(accept, size, s, chunks[0]);
      OneReadHeeds(accept, size, s, chunks[0]);
      if t.status == Open {
        ReadsHeed(accept, size, t, chunks[1..]);
        var r := ReceiveAll(accept, size, t, chunks[1..]);
        assert r.done[..|t.done|] == t.done;
        assert forall k :: 0 <= k < |t.done| ==> r.done[..k] == t.done[..k];
        assert |r.done| == |t.done| ==> r.done == t.done;
      } else {
        StaysClosed(accept, size, t, chunks[1..]);
      }
    }
  }

  /** However a stream is cut into reads, no line is handed over after one that is rejected, and the connection is
      given up for just that, or for bytes that do not fit. */
  lemma StopsAtRejection(accept: seq<bytes> -> bool, size: nat, chunks: seq<bytes>)
    requires size > 0
    ensures var r := ReceiveAll(accept, size, FRESH, chunks);
      && (forall k :: 0 < k < |r.done| ==> accept(r.done[..k]))
      && (r.status == Rejected <==> r.done != [] && !accept(r.done))
      && (r.status == Overflowed <==> |r.rest| >= size)
  {
    ReadsHeed(accept, size, FRESH, chunks);
  }

  /** However a stream was cut into reads: the lines handed over are a prefix of the stream's lines; while the
      connection is open they are all of them and are followed by what is kept, which holds no newline. */
  lemma ReceivedIsSent(accept: seq<bytes> -> bool, size: nat, chunks: seq<bytes>)
    ensures var r := ReceiveAll(accept, size, FRESH, chunks);
      && r.done <= Lines(Concat(chunks))
      && (forall k :: 0 <= k < |r.done| ==> IsLine(r.done[k]))
      && (r.status == Open ==>
            && r.done == Lines(Concat(chunks))
            && Concat(r.done) + r.rest == Concat(chunks)
            && '\n' !in r.rest)
  {
    var whole := Concat(chunks);
    assert FRESH.rest + whole == whole && FRESH.done + Lines(whole) == Lines(whole);
    ReceiveAllFrom(accept, size, FRESH, chunks);
    HandleExtends(accept, [], Lines(whole));
    LinesThenTail(whole);
    LinesAreLines(whole);
    TailHasNoNewline(whole);
  }

  /** Any two ways of cutting the same stream, neither of which overflows the buffer, have the same outcome:
      the same lines, the same bytes kept if no line is rejected, the same line rejected otherwise. */
  lemma FramingIgnoresFragmentation(accept: seq<bytes> -> bool, size: nat, a: seq<bytes>, b: seq<bytes>)
    requires Concat(a) == Concat(b)
    requires ReceiveAll(accept, size, FRESH, a).status != Overflowed
    requires ReceiveAll(accept, size, FRESH, b).status != Overflowed
    ensures var r, q := ReceiveAll(accept, size, FRESH, a), ReceiveAll(accept, size, FRESH, b);
      r.done == q.done && r.status == q.status && (r.status == Open ==> r.rest == q.rest)
  {
    assert FRESH.rest + Concat(a) == Concat(a);
    ReceiveAllFrom(accept, size, FRESH, a);
    ReceiveAllFrom(accept, size, FRESH, b);
  }
}
