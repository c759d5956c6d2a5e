// The receiving side of a gate connection (gate/nb_conn.go): a growing buffer that is cut
// into frames as bytes arrive. The network is a stream and a script of how reads turn out.

module GateConn {
  import opened Arith
  import opened Basics
  import opened Bytes
  import opened Bpool
  import opened Framing

  datatype ReadErr = NoErr | Eintr | Eagain | Other

  datatype Outcome = Outcome(n: nat, err: ReadErr)

  // ------------------------------------------------------------ reads

  // A read: the room there was, how much came, and the error.
  datatype Attempt = Attempt(room: nat, n: nat, err: ReadErr)

  // How the next read turns out.
  function Next(room: nat, stream: seq<byte>, script: seq<Outcome>): (a: Attempt)
    ensures a.n <= |stream| && a.n <= room
  {
    if script == [] then Attempt(room, 0, Eagain)
    else Attempt(room, Min(script[0].n, Min(room, |stream|)), script[0].err)
  }

  function Behind(script: seq<Outcome>): seq<Outcome> { if script == [] then [] else script[1..] }

  // Whether onRead reads again: when it was interrupted, or got as much as it had room for.
  predicate GoesOn(a: Attempt) { a.err == Eintr || (a.err != Eagain && a.n >= a.room) }

  // The capacity of the buffer when the whole frames of `s`, which was in it, have been cast.
  function CapAfter(head: nat, cap: nat, s: seq<byte>): nat
    requires ValidHead(head)
    decreases |s|
  {
    if |s| < head then cap
    else
      var total := Total(head, s);
      if |s| < total then (if cap < total then Capacity(total) else cap)
      else if |s| == total then Capacity(4 * 1024)
      else CapAfter(head, Capacity(|s| - total), s[total..])
  }

  // The reads of onRead, with a buffer of this capacity that holds s.
  function Reads(head: nat, cap: nat, s: seq<byte>, stream: seq<byte>, script: seq<Outcome>): seq<Attempt>
    requires ValidHead(head)
    decreases |script|
  {
    var a := Next(if cap > |s| then cap - |s| else 0, stream, script);
    if script == [] || !GoesOn(a) then [a]
    else
      var s' := s + stream[..a.n];
      [a] + Reads(head, CapAfter(head, cap, s'), Frames(head, s').rest, stream[a.n..], script[1..])
  }

  // Whether one of them failed, so that the connection is closed.
  predicate Failed(tries: seq<Attempt>) { exists a :: a in tries && a.err == Other }

  // How much they take together.
  function Taken(tries: seq<Attempt>): nat { if tries == [] then 0 else tries[0].n + Taken(tries[1..]) }

  lemma {:induction false} TakenJoins(a: seq<Attempt>, b: seq<Attempt>)
    ensures Taken(a + b) == Taken(a) + Taken(b)
    decreases |a|
  {
    if a == [] {
      assert a + b == b;
    } else {
      assert (a + b)[1..] == a[1..] + b;
      TakenJoins(a[1..], b);
    }
  }

  // Every read but the last goes on, and the last does not: it would block, or was neither
  // interrupted nor as long as it had room. They follow the script up to exactly that read.
  predicate Stops(tries: seq<Attempt>, script: seq<Outcome>) {
    && 0 < |tries| <= |script| + 1
    && (forall i :: 0 <= i < |tries| - 1 ==> GoesOn(tries[i])) && !GoesOn(tries[|tries| - 1])
    && (forall i :: 0 <= i < |tries| ==> tries[i].err == if i < |script| then script[i].err else Eagain)
  }

  lemma StopsLater(a: Attempt, later: seq<Attempt>, script: seq<Outcome>)
    requires script != [] && GoesOn(a) && a.err == script[0].err && Stops(later, script[1..])
    ensures Stops([a] + later, script)
  {
    var tries := [a] + later;
    forall i | 0 <= i < |tries|
      ensures tries[i].err == if i < |script| then script[i].err else Eagain
    {
      if i > 0 { assert tries[i] == later[i - 1]; }
    }
  }

  lemma {:induction false} ReadsStop(head: nat, cap: nat, s: seq<byte>, stream: seq<byte>, script: seq<Outcome>)
    requires ValidHead(head)
    ensures var tries := Reads(head, cap, s, stream, script); Stops(tries, script) && Taken(tries) <= |stream|
    decreases |script|
  {
    var a := Next(if cap > |s| then cap - |s| else 0, stream, script);
    if script != [] && GoesOn(a) {
      var s' := s + stream[..a.n];
      var cap', rest := CapAfter(head, cap, s'), Frames(head, s').rest;
      ReadsStop(head, cap', rest, stream[a.n..], script[1..]);
      StopsLater(a, Reads(head, cap', rest, stream[a.n..], script[1..]), script);
      TakenFirst(a, Reads(head, cap', rest, stream[a.n..], script[1..]));
    } else {
      TakenFirst(a, []);
      assert [a] + [] == [a];
    }
  }

  lemma TakenFirst(a: Attempt, later: seq<Attempt>)
    ensures Taken([a] + later) == a.n + Taken(later)
  {
    assert ([a] + later)[1..] == later;
  }

  // There is always room for more.
  lemma {:induction false} Roomy(head: nat, cap: nat, s: seq<byte>)
    requires ValidHead(head) && |s| <= cap && MIN_SIZE <= cap
    ensures |Frames(head, s).rest| < CapAfter(head, cap, s) && MIN_SIZE <= CapAfter(head, cap, s)
    decreases |s|
  {
    if Whole(head, s) {
      var total := Total(head, s);
      if |s| == total { assert s[total..] == []; } else { Roomy(head, Capacity(|s| - total), s[total..]); }
    }
  }

  // No read is short before the stream ends.
  predicate Plenty(stream: seq<byte>, script: seq<Outcome>) {
    |script| >= |stream| && forall i :: 0 <= i < |script| ==> script[i].err != Eagain && script[i].n >= |stream|
  }

  // So all of it is read.
  lemma {:induction false} AllTaken(head: nat, cap: nat, s: seq<byte>, stream: seq<byte>, script: seq<Outcome>)
    requires ValidHead(head) && |s| < cap && MIN_SIZE <= cap && Plenty(stream, script)
    ensures Taken(Reads(head, cap, s, stream, script)) == |stream|
    decreases |script|
  {
    ReadsStop(head, cap, s, stream, script);
    if stream != [] {
      var a := Next(cap - |s|, stream, script);
      var s' := s + stream[..a.n];
      var later := Reads(head, CapAfter(head, cap, s'), Frames(head, s').rest, stream[a.n..], script[1..]);
      TakenFirst(a, later);
      TakenFirst(a, []);
      assert [a] + [] == [a];
      if GoesOn(a) {
        Roomy(head, cap, s');
        AllTaken(head, CapAfter(head, cap, s'), Frames(head, s').rest, stream[a.n..], script[1..]);
      }
    }
  }

  // ------------------------------------------------------------ one step of them

  // What readBuf is to end with: all that has been cast, what is left, and the capacity.
  datatype End = End(cast: seq<seq<byte>>, rest: seq<byte>, cap: nat)

  function EndOf(head: nat, cap: nat, s: seq<byte>, cast: seq<seq<byte>>): End
    requires ValidHead(head)
  {
    End(cast + Frames(head, s).frames, Frames(head, s).rest, CapAfter(head, cap, s))
  }

  // The same, stated so that the functions in it are not unfolded.
  ghost predicate ComesTo(head: nat, cap: nat, s: seq<byte>, cast: seq<seq<byte>>, end: End)
    requires ValidHead(head)
  {
    forall x :: x == s ==> EndOf(head, cap, x, cast) == end
  }

  ghost predicate ReadsAre(head: nat, cap: nat, s: seq<byte>, stream: seq<byte>, script: seq<Outcome>,
                           tries: seq<Attempt>)
    requires ValidHead(head)
  {
    forall x :: x == s ==> Reads(head, cap, x, stream, script) == tries
  }

  // A bigger buffer for a frame that is not whole yet.
  lemma BufferMeasured(head: nat, cap: nat, s: seq<byte>, cast: seq<seq<byte>>, end: End)
    requires ValidHead(head) && |s| >= head && ComesTo(head, cap, s, cast, end)
    ensures ComesTo(head, if cap < Total(head, s) then Capacity(Total(head, s)) else cap, s, cast, end)
  {
    assert EndOf(head, cap, s, cast) == end;
  }

  // What casting the first frame makes of the frames, and of the buffer.
  lemma FirstCast(head: nat, cap: nat, s: seq<byte>, cast: seq<seq<byte>>, end: End)
    requires ValidHead(head) && Whole(head, s) && ComesTo(head, cap, s, cast, end)
    ensures var n := Total(head, s);
            ComesTo(head, if |s| == n then Capacity(4 * 1024) else Capacity(|s| - n), s[n..], cast + [s[..n]], end)
  {
    var n := Total(head, s);
    assert EndOf(head, cap, s, cast) == end;
    Associate(cast, [s[..n]], Frames(head, s[n..]).frames);
  }

  // No frame is whole, and the buffer is big enough for the one that has begun.
  lemma EndReached(head: nat, cap: nat, s: seq<byte>, cast: seq<seq<byte>>, end: End)
    requires ValidHead(head) && ComesTo(head, cap, s, cast, end) && (|s| >= head ==> |s| < Total(head, s) <= cap)
    ensures end == End(cast, s, cap)
  {
    assert EndOf(head, cap, s, cast) == end;
    assert cast + [] == cast;
  }

  // What a chunk comes to: the frames of all that was read, with it.
  lemma Ending(head: nat, cap: nat, all: seq<byte>, cast: seq<seq<byte>>, s: seq<byte>, chunk: seq<byte>)
    returns (end: End)
    requires ValidHead(head) && forall x :: x == all ==> Frames(head, x) == Framed(cast, s)
    ensures ComesTo(head, cap, s + chunk, cast, end)
    ensures forall x :: x == all + chunk ==> Frames(head, x) == Framed(end.cast, end.rest)
  {
    end := EndOf(head, cap, s + chunk, cast);
    assert Frames(head, all) == Framed(cast, s);
    FramesSplit(head, all, chunk);
  }

  // What one read leaves to be read.
  lemma ReadsOn(head: nat, cap: nat, s: seq<byte>, stream: seq<byte>, script: seq<Outcome>, tries: seq<Attempt>,
                cast: seq<seq<byte>>, cast': seq<seq<byte>>, cap': nat, rest: seq<byte>) returns (later: seq<Attempt>)
    requires ValidHead(head) && |s| < cap && ReadsAre(head, cap, s, stream, script, tries)
    requires var s' := s + stream[..Next(cap - |s|, stream, script).n];
             ComesTo(head, cap, s', cast, End(cast', rest, cap'))
    ensures var a := Next(cap - |s|, stream, script);
            && tries == [a] + later
            && if script == [] || !GoesOn(a) then later == []
               else ReadsAre(head, cap', rest, stream[a.n..], script[1..], later)
  {
    var a := Next(cap - |s|, stream, script);
    var s' := s + stream[..a.n];
    assert EndOf(head, cap, s', cast) == End(cast', rest, cap');
    assert tries == Reads(head, cap, s, stream, script);
    later := if script == [] || !GoesOn(a) then [] else Reads(head, cap', rest, stream[a.n..], script[1..]);
    assert [a] + [] == [a];
  }

  // ------------------------------------------------------------ the connection

  class Socket {
    var stream: seq<byte>     // what the peer has sent and nobody has read
    var script: seq<Outcome>  // how the next tries turn out; after that they would block

    constructor (stream: seq<byte>, script: seq<Outcome>)
      ensures this.stream == stream && this.script == script
    {
      this.stream, this.script := stream, script;
    }

    // Read into dst, from index `from` to its end.
    method Read(dst: array<byte>, from: nat) returns (n: nat, err: ReadErr)
      requires from <= dst.Length
      modifies this, dst
      ensures Attempt(dst.Length - from, n, err) == Next(dst.Length - from, old(stream), old(script))
      ensures stream == old(stream)[n..] && script == Behind(old(script))
      ensures dst[..from] == old(dst[..from]) && dst[from..from + n] == old(stream)[..n]
    {
      if script == [] {
        return 0, Eagain;
      }
      n, err := Min(script[0].n, Min(dst.Length - from, |stream|)), script[0].err;
      script := script[1..];
      forall i | 0 <= i < n {
        dst[from + i] := stream[i];
      }
      stream := stream[n..];
    }
  }

  predicate IsTotal(head: nat, buf: seq<byte>, total: nat)
    requires ValidHead(head)
  {
    |buf| >= head && total == Total(head, buf)
  }

  class ConnNbio {
    const head: nat
    var totalSize: nat
    var buffer: Buff?
    var mailbox: seq<Buff>  // the buffers cast to the receiving process
    var closed: bool
    ghost var pending: seq<byte>         // what the buffer holds
    ghost var delivered: seq<seq<byte>>  // what the mailbox holds
    ghost var taken: seq<byte>           // all that has ever been read
    ghost var mine: set<object>          // the buffer and its bytes
    ghost var given: set<object>         // the buffers in the mailbox and their bytes

    // What has been cast keeps its contents: nothing of it is still part of the connection.
    ghost predicate Settled()
      reads `mailbox, `delivered, `given, given
    {
      && |delivered| == |mailbox|
      && (forall i :: 0 <= i < |mailbox| ==> mailbox[i] in given && mailbox[i].b in given)
      && (forall i :: 0 <= i < |mailbox| ==> mailbox[i].Valid() && mailbox[i].Contents() == delivered[i])
    }

    ghost predicate Buffered()
      reads `buffer, `pending, `mine, `given, mine
    {
      && ValidHead(head) && mine !! given && this !in mine && this !in given
      && buffer != null && mine == {buffer, buffer.b} && buffer.Valid() && buffer.Contents() == pending
    }

    // What was delivered and what is pending are the frames, and the rest, of all that was read.
    ghost predicate InSync()
      requires ValidHead(head)
      reads `pending, `delivered, `taken
    {
      forall all :: all == taken ==> Frames(head, all) == Framed(delivered, pending)
    }

    // The frame size is known only once the head is there, and then the buffer has room.
    ghost predicate Sized()
      requires Buffered()
      reads `buffer, `pending, `mine, `given, `totalSize, mine
    {
      totalSize > 0 ==> IsTotal(head, pending, totalSize) && totalSize <= buffer.b.Length
    }

    // Between reads: no whole frame is left, and there is room to read into.
    ghost predicate Valid()
      reads `buffer, `pending, `mine, `given, `totalSize, `mailbox, `delivered, mine, given
    {
      && ValidHead(head) && Settled()
      && (buffer == null ==> totalSize == 0 && pending == [] && mine == {} && this !in given)
      && (buffer != null ==>
            Buffered() && Sized() && buffer.size < buffer.b.Length &&
            (if totalSize == 0 then |pending| < head else |pending| < totalSize))
    }

    constructor (head: nat)
      requires ValidHead(head)
      ensures Valid() && InSync() && this.head == head && taken == [] && !closed && mine == {} && given == {}
    {
      this.head := head;
      totalSize, buffer, mailbox, closed := 0, null, [], false;
      pending, delivered, taken, mine, given := [], [], [], {}, {};
    }

    // The first half of readBuf: learn the frame size, and grow the buffer if it needs to.
    // `buf` is all of the memory of the buffer, not only what is in use.
    method Measure(buf: array<byte>, ghost end: End) returns (buf': array<byte>)
      requires Buffered() && Sized() && Settled() && buf == buffer.b &&
               ComesTo(head, buffer.b.Length, pending, delivered, end)
      modifies this`totalSize, this`buffer, this`mine
      ensures Buffered() && Sized() && Settled() && buf' == buffer.b
      ensures totalSize == 0 ==> |pending| < head
      ensures ComesTo(head, buffer.b.Length, pending, delivered, end)
      ensures fresh(mine - old(mine))
    {
      buf' := buf;
      if totalSize == 0 && buffer.size >= head {
        BufferMeasured(head, buffer.b.Length, pending, delivered, end);
        totalSize := ReadHead(head, buf'[..]) + head;
        if buffer.b.Length < totalSize {
          buf' := Enlarge(buf', totalSize);
        }
      }
    }

    // A buffer that holds more, with the same contents.
    method Enlarge(buf: array<byte>, size: nat) returns (buf': array<byte>)
      requires Buffered() && buf == buffer.b && buf.Length < size
      modifies this`buffer, this`mine
      ensures Buffered() && buf' == buffer.b && buf'.Length == Capacity(size) && fresh(mine)
    {
      var bigger := new Buff(size);
      bigger := bigger.Append(buf[..buffer.size]);
      buffer := bigger;
      mine := {buffer, buffer.b};
      buf' := buffer.b;
    }

    // Cast a buffer to the receiving process; from here on it is the receiver's.
    method Cast(m: Buff, ghost contents: seq<byte>)
      requires Settled() && m.Valid() && m.Contents() == contents
      modifies this`mailbox, this`delivered, this`given
      ensures Settled() && mailbox == old(mailbox) + [m]
      ensures delivered == old(delivered) + [contents] && given == old(given) + {m, m.b}
    {
      mailbox, delivered, given := mailbox + [m], delivered + [contents], given + {m, m.b};
    }

    // The second half, when the buffer holds one frame: cast it and start an empty buffer.
    method CastAll() returns (buf': array<byte>)
      requires Buffered() && Sized() && Settled() && 0 < totalSize == buffer.size
      modifies this
      ensures Buffered() && Sized() && Settled() && buf' == buffer.b && totalSize == 0
      ensures fresh(mine) && given == old(given + mine) && closed == old(closed) && taken == old(taken)
      ensures pending == [] && delivered == old(delivered + [pending]) && buffer.b.Length == Capacity(4 * 1024)
    {
      Cast(buffer, pending);
      buffer := new Buff(4 * 1024);
      buf' := buffer.b;
      mine, pending := {buffer, buffer.b}, [];
      totalSize := 0;
    }

    // The second half, when more follows the frame: the rest moves to a buffer of its own.
    method CastFirst(buf: array<byte>) returns (buf': array<byte>)
      requires Buffered() && Sized() && Settled() && buf == buffer.b && 0 < totalSize < buffer.size
      modifies this, buffer`size
      ensures Buffered() && Sized() && Settled() && buf' == buffer.b && totalSize == 0
      ensures fresh(mine) && given == old(given + mine) && closed == old(closed) && taken == old(taken)
      ensures pending == old(pending[totalSize..]) && delivered == old(delivered + [pending[..totalSize]])
      ensures buffer.b.Length == old(Capacity(buffer.size - totalSize))
    {
      var rest := RestOf(buf);
      CastFront(buffer);
      buffer := rest;
      buf' := rest.b;
      mine, pending := {rest, rest.b}, pending[totalSize..];
      totalSize := 0;
    }

    // The buffer is cut behind the frame, and cast.
    method CastFront(tmp: Buff)
      requires Buffered() && Settled() && tmp == buffer && totalSize < buffer.size
      modifies this`mailbox, this`delivered, this`given, buffer`size
      ensures Settled() && given == old(given) + {buffer, buffer.b}
      ensures delivered == old(delivered) + [pending[..totalSize]]
    {
      tmp.SetSize(totalSize);
      assert tmp.Contents() == pending[..totalSize];
      Cast(tmp, pending[..totalSize]);
    }

    // What follows the frame, in a buffer of its own.
    method RestOf(buf: array<byte>) returns (rest: Buff)
      requires Buffered() && buf == buffer.b && totalSize < buffer.size
      ensures fresh(rest) && fresh(rest.b) && rest.Valid() && rest.Contents() == pending[totalSize..]
      ensures rest.b.Length == Capacity(buffer.size - totalSize)
    {
      rest := new Buff.From(buf[totalSize..buffer.size]);
      assert buf[..buffer.size][totalSize..] == buf[totalSize..buffer.size];
    }

    // One frame of readBuf; `last` says that nothing follows it.
    method CastFrame(buf: array<byte>) returns (buf': array<byte>, last: bool)
      requires Buffered() && Sized() && Settled() && buf == buffer.b && 0 < totalSize <= buffer.size
      modifies this, buffer`size
      ensures Buffered() && Sized() && Settled() && buf' == buffer.b && totalSize == 0
      ensures fresh(mine) && given == old(given + mine) && closed == old(closed) && taken == old(taken)
      ensures pending == old(pending[totalSize..]) && delivered == old(delivered + [pending[..totalSize]])
      ensures last == (pending == [])
      ensures buffer.b.Length == if last then Capacity(4 * 1024) else Capacity(|pending|)
    {
      last := totalSize == buffer.size;
      if last {
        assert pending[..totalSize] == pending && pending[totalSize..] == [];
        buf' := CastAll();
      } else {
        buf' := CastFirst(buf);
      }
    }

    // readBuf. Nothing of `wire` becomes part of the connection.
    method ReadBuf(buf: array<byte>, ghost wire: object, ghost end: End) returns (buf': array<byte>)
      requires Buffered() && Sized() && Settled() && buf == buffer.b && wire !in mine && wire !in given
      requires ComesTo(head, buffer.b.Length, pending, delivered, end)
      modifies this, mine
      ensures Valid() && buffer != null && buf' == buffer.b && closed == old(closed) && taken == old(taken)
      ensures fresh(mine - old(mine)) && wire !in mine && wire !in given
      ensures end == End(delivered, pending, buffer.b.Length)
    {
      buf' := buf;
      while true
        invariant Buffered() && Sized() && Settled() && buf' == buffer.b && closed == old(closed) && taken == old(taken)
        invariant fresh(mine - old(mine)) && wire !in mine && wire !in given
        invariant ComesTo(head, buffer.b.Length, pending, delivered, end)
        decreases |pending|
      {
        buf' := Measure(buf', end);
        if totalSize > 0 && buffer.size >= totalSize {
          var last;
          FirstCast(head, buffer.b.Length, pending, delivered, end);
          buf', last := CastFrame(buf');
          if last {
            break;
          }
        } else {
          break;
        }
      }
      EndReached(head, buffer.b.Length, pending, delivered, end);
    }

    ghost function Room(): nat
      requires Buffered()
      reads `buffer, `pending, `mine, `given, mine
    {
      buffer.b.Length - buffer.size
    }

    // One read of onRead: n bytes arrive in the buffer, behind what it held.
    method Fill(buf: array<byte>, socket: Socket) returns (n: nat, err: ReadErr)
      requires Buffered() && Sized() && Settled() && buf == buffer.b && socket !in mine && socket !in given
      modifies this`pending, buffer, buf, socket
      ensures Buffered() && Sized() && Settled() && buffer.size == old(buffer.size) + n
      ensures Attempt(old(Room()), n, err) == Next(old(Room()), old(socket.stream), old(socket.script))
      ensures socket.stream == old(socket.stream)[n..] && socket.script == Behind(old(socket.script))
      ensures pending == old(pending) + old(socket.stream)[..n]
    {
      n, err := socket.Read(buf, buffer.size);
      assert buffer.Contents() == pending;
      pending := pending + old(socket.stream)[..n];
      buffer.SetSize(buffer.size + n);
    }

    // The read, and what readBuf makes of it.
    method ReadOnce(buf: array<byte>, socket: Socket) returns (buf': array<byte>, n: nat, err: ReadErr)
      requires Valid() && buffer != null && buf == buffer.b && socket !in mine && socket !in given && InSync()
      modifies this, mine, socket
      ensures Valid() && buffer != null && buf' == buffer.b && closed == old(closed) && InSync()
      ensures fresh(mine - old(mine)) && socket !in mine && socket !in given
      ensures Attempt(old(Room()), n, err) == Next(old(Room()), old(socket.stream), old(socket.script))
      ensures socket.stream == old(socket.stream)[n..] && socket.script == Behind(old(socket.script))
      ensures taken == old(taken) + old(socket.stream)[..n]
      ensures var s := old(pending) + old(socket.stream)[..n];
              ComesTo(head, old(buffer.b.Length), s, old(delivered), End(delivered, pending, buffer.b.Length))
    {
      buf' := buf;
      ghost var chunk, cast, s, all := socket.stream, delivered, pending, taken;
      n, err := Fill(buf, socket);
      chunk := chunk[..n];
      ghost var end := Ending(head, buffer.b.Length, all, cast, s, chunk);
      taken := taken + chunk;
      if n > 0 {
        buf' := ReadBuf(buf, socket, end);
      } else {
        assert s + chunk == s;
        EndReached(head, buffer.b.Length, pending, delivered, end);
      }
    }

    // What onRead does with the outcome of a read: does it go on reading?
    method GoOn(n: nat, bSize: nat, err: ReadErr) returns (again: bool)
      modifies `closed
      ensures closed == (old(closed) || err == Other)
      ensures again == GoesOn(Attempt(bSize, n, err))
    {
      if err == Eintr {
        return true;
      }
      if err == Eagain {
        return false;
      }
      if err != NoErr {
        closed := true;
      }
      if n < bSize {
        return false;
      }
      return true;
    }

    // The capacity that onRead begins with.
    ghost function Cap(): nat
      reads `buffer
    {
      if buffer == null then Capacity(4 * 1024) else buffer.b.Length
    }

    method NeedBuffer()
      requires Valid() && InSync()
      modifies `buffer, `mine
      ensures Valid() && buffer != null && InSync() && fresh(mine - old(mine))
      ensures pending == old(pending) && buffer.b.Length == old(Cap())
    {
      if buffer == null {
        buffer := new Buff(4 * 1024);
        mine := {buffer, buffer.b};
      }
    }

    // What is still to be read.
    ghost predicate Coming(socket: Socket, tries: seq<Attempt>)
      requires Buffered()
      reads `buffer, `pending, `mine, `given, mine, socket
    {
      ReadsAre(head, buffer.b.Length, pending, socket.stream, socket.script, tries)
    }

    // One round of the loop of onRead.
    method Round(buf: array<byte>, socket: Socket, ghost tries: seq<Attempt>)
      returns (buf': array<byte>, again: bool, ghost a: Attempt, ghost later: seq<Attempt>)
      requires Valid() && buffer != null && buf == buffer.b && socket !in mine && socket !in given && InSync()
      requires Coming(socket, tries)
      modifies this, mine, socket
      ensures Valid() && buffer != null && buf' == buffer.b && InSync()
      ensures fresh(mine - old(mine)) && socket !in mine && socket !in given
      ensures tries == [a] + later && (if again then Coming(socket, later) else later == [])
      ensures again ==> old(socket.script) != []
      ensures closed == (old(closed) || a.err == Other) && a.n <= |old(socket.stream)|
      ensures socket.stream == old(socket.stream)[a.n..] && socket.script == Behind(old(socket.script))
      ensures taken == old(taken) + old(socket.stream)[..a.n]
    {
      var bSize := buffer.b.Length - buffer.size;
      ghost var cap, s, cast, stream, script := buffer.b.Length, pending, delivered, socket.stream, socket.script;
      var n, err;
      buf', n, err := ReadOnce(buf, socket);
      a := Attempt(bSize, n, err);
      again := GoOn(n, bSize, err);
      later := ReadsOn(head, cap, s, stream, script, tries, cast, delivered, buffer.b.Length, pending);
    }

    // onRead: read until the socket has no more, cutting frames as they complete. At the
    // end everything that was read has been cast in whole frames, or is the pending rest.
    method OnRead(socket: Socket) returns (ghost r: nat, ghost tries: seq<Attempt>)
      requires Valid() && socket !in mine && socket !in given && InSync()
      modifies this, mine, socket
      ensures Valid() && fresh(mine - old(mine)) && socket !in mine && socket !in given && InSync()
      ensures tries == Reads(head, old(Cap()), old(pending), old(socket.stream), old(socket.script))
      ensures r == Taken(tries) <= |old(socket.stream)| && socket.stream == old(socket.stream)[r..]
      ensures taken == old(taken) + old(socket.stream)[..r]
      ensures socket.script == old(socket.script)[Min(|tries|, |old(socket.script)|)..]
      ensures closed == (old(closed) || Failed(tries))
      ensures Plenty(old(socket.stream), old(socket.script)) ==>
                socket.stream == [] && taken == old(taken) + old(socket.stream)
    {
      NeedBuffer();
      ReadsStop(head, buffer.b.Length, pending, socket.stream, socket.script);
      if Plenty(socket.stream, socket.script) {
        AllTaken(head, buffer.b.Length, pending, socket.stream, socket.script);
      }
      tries := Reads(head, buffer.b.Length, pending, socket.stream, socket.script);
      r := ReadLoop(socket, tries);
    }

    // Its loop.
    method ReadLoop(socket: Socket, ghost tries: seq<Attempt>) returns (ghost r: nat)
      requires Valid() && buffer != null && socket !in mine && socket !in given && InSync() && Coming(socket, tries)
      modifies this, mine, socket
      ensures Valid() && fresh(mine - old(mine)) && socket !in mine && socket !in given && InSync()
      ensures closed == (old(closed) || Failed(tries))
      ensures r == Taken(tries) <= |old(socket.stream)| && socket.stream == old(socket.stream)[r..]
      ensures taken == old(taken) + old(socket.stream)[..r]
      ensures socket.script == old(socket.script)[Min(|tries|, |old(socket.script)|)..]
    {
      var buf := buffer.b;
      var again := true;
      ghost var stream, script, done, coming: seq<Attempt> := socket.stream, socket.script, [], tries;
      r := 0;
      assert taken + stream[..0] == taken && done + coming == tries;
      while again
        invariant Valid() && buffer != null && buf == buffer.b && InSync()
        invariant fresh(mine - old(mine)) && socket !in mine && socket !in given
        invariant Tracked(old(taken), taken, stream, socket.stream, script, socket.script, tries, done, coming, r)
        invariant if again then Coming(socket, coming) else coming == []
        invariant closed == (old(closed) || Failed(done))
        decreases |socket.script|, again
      {
        ghost var a, later;
        ghost var before, ahead, left := taken, socket.stream, socket.script;
        buf, again, a, later := Round(buf, socket, coming);
        TrackOn(old(taken), before, stream, ahead, script, left, tries, done, coming, r, a, later);
        r, done, coming := r + a.n, done + [a], later;
      }
      TrackEnds(old(taken), taken, stream, socket.stream, script, socket.script, tries, done, r);
    }
  }

  // Where the loop of onRead stands after the reads that are done: what it took, and what is left
  // of the stream and the script.
  ghost predicate Track(was: seq<byte>, taken: seq<byte>, stream: seq<byte>, ahead: seq<byte>, script: seq<Outcome>,
                        left: seq<Outcome>, tries: seq<Attempt>, done: seq<Attempt>, coming: seq<Attempt>, r: nat) {
    && r == Taken(done) <= |stream| && ahead == stream[r..] && taken == was + stream[..r]
    && left == script[Min(|done|, |script|)..] && tries == done + coming
  }

  // The same, stated so that it is not unfolded.
  ghost predicate Tracked(was: seq<byte>, taken: seq<byte>, stream: seq<byte>, ahead: seq<byte>, script: seq<Outcome>,
                          left: seq<Outcome>, tries: seq<Attempt>, done: seq<Attempt>, coming: seq<Attempt>, r: nat) {
    forall x :: x == r ==> Track(was, taken, stream, ahead, script, left, tries, done, coming, x)
  }

  lemma TrackOn(was: seq<byte>, taken: seq<byte>, stream: seq<byte>, ahead: seq<byte>, script: seq<Outcome>,
                left: seq<Outcome>, tries: seq<Attempt>, done: seq<Attempt>, coming: seq<Attempt>, r: nat, a: Attempt,
                later: seq<Attempt>)
    requires Tracked(was, taken, stream, ahead, script, left, tries, done, coming, r)
    requires coming == [a] + later && a.n <= |ahead|
    ensures Tracked(was, taken + ahead[..a.n], stream, ahead[a.n..], script, Behind(left), tries, done + [a], later,
                    r + a.n)
    ensures Failed(done + [a]) <==> Failed(done) || a.err == Other
  {
    assert Track(was, taken, stream, ahead, script, left, tries, done, coming, r);
    ReadOn(was, stream, r, a.n);
    BehindOn(script, |done|);
    OneMoreTry(done, a, coming, later);
  }

  lemma TrackEnds(was: seq<byte>, taken: seq<byte>, stream: seq<byte>, ahead: seq<byte>, script: seq<Outcome>,
                  left: seq<Outcome>, tries: seq<Attempt>, done: seq<Attempt>, r: nat)
    requires Tracked(was, taken, stream, ahead, script, left, tries, done, [], r)
    ensures done == tries && Track(was, taken, stream, ahead, script, left, tries, tries, [], r)
  {
    assert Track(was, taken, stream, ahead, script, left, tries, done, [], r);
    assert done + [] == done;
  }

  lemma BehindOn(script: seq<Outcome>, k: nat)
    ensures Behind(script[Min(k, |script|)..]) == script[Min(k + 1, |script|)..]
  {
  }

  lemma OneMoreTry(tries: seq<Attempt>, a: Attempt, coming: seq<Attempt>, later: seq<Attempt>)
    requires coming == [a] + later
    ensures tries + coming == (tries + [a]) + later && Taken(tries + [a]) == Taken(tries) + a.n
    ensures Failed(tries + [a]) <==> Failed(tries) || a.err == Other
  {
    TakenJoins(tries, [a]);
    assert [a][1..] == [];
    assert a in tries + [a];
  }

  // Messages that fit their head, all read: every one has been cast, and nothing is pending.
  lemma AllDelivered(c: ConnNbio, msgs: seq<seq<byte>>)
    requires ValidHead(c.head) && c.InSync() && c.taken == Concat(Packets(c.head, msgs))
    requires forall m :: m in msgs ==> |m| < Pow256(c.head)
    ensures c.delivered == Packets(c.head, msgs) && c.pending == []
  {
    SentIsReceived(c.head, msgs);
    assert Frames(c.head, c.taken) == Framed(c.delivered, c.pending);
  }

  // WriteSize: a size in the first bytes of a buffer, for the two heads there are.
  method WriteSize(buf: array<byte>, head: nat, size: nat)
    requires ValidHead(head) ==> buf.Length >= head
    modifies buf
    ensures ValidHead(head) ==> buf[..head] == ToBE(head, size) && buf[head..] == old(buf[head..])
    ensures !ValidHead(head) ==> buf[..] == old(buf[..])
  {
    TwoBytes(size);
    FourBytes(size);
    if head == 2 {
      buf[0] := size / 256 % 256;
      buf[1] := size % 256;
    } else if head == 4 {
      buf[0] := size / 16777216 % 256;
      buf[1] := size / 65536 % 256;
      buf[2] := size / 256 % 256;
      buf[3] := size % 256;
    }
  }

  // Send: what goes on the wire.
  method Send(head: nat, msg: seq<byte>) returns (packet: seq<byte>)
    requires ValidHead(head)
    ensures packet == Packet(head, msg)
  {
    var sendBuf := new byte[head](_ => 0);
    WriteSize(sendBuf, head, |msg|);
    packet := sendBuf[..] + msg;
  }

  lemma ReadOn<T>(t: seq<T>, s: seq<T>, r: nat, n: nat)
    requires r <= |s| && n <= |s[r..]|
    ensures r + n <= |s| && s[r..][n..] == s[r + n..]
    ensures t + s[..r] + s[r..][..n] == t + s[..r + n]
  {
    assert s[..r] + s[r..][..n] == s[..r + n];
    Associate(t, s[..r], s[r..][..n]);
  }
}
