// Length-prefixed frames on a byte stream: what a stream means, apart from how it is cut.

module Framing {
  import opened Basics
  import opened Arith
  import opened Bytes

  predicate ValidHead(head: nat) {
    head == 2 || head == 4
  }

  // ReadHead
  function ReadHead(head: nat, buf: seq<byte>): nat
    requires ValidHead(head) && |buf| >= head
  {
    if head == 2 then (buf[0] as int) * 256 + buf[1]
    else (buf[0] as int) * 16777216 + (buf[1] as int) * 65536 + (buf[2] as int) * 256 + buf[3]
  }

  lemma HeadIsBigEndian(head: nat, buf: seq<byte>)
    requires ValidHead(head) && |buf| >= head
    ensures ReadHead(head, buf) == FromBE(buf[..head])
  {
    if head == 2 { ReadTwo(buf[..2]); } else { ReadFour(buf[..4]); }
  }

  // How long the frame at the start of the buffer is, its head included.
  function Total(head: nat, buf: seq<byte>): (n: nat)
    requires ValidHead(head) && |buf| >= head
    ensures n >= head
  {
    ReadHead(head, buf) + head
  }

  predicate Whole(head: nat, stream: seq<byte>)
    requires ValidHead(head)
  {
    |stream| >= head && |stream| >= Total(head, stream)
  }

  datatype Framed = Framed(frames: seq<seq<byte>>, rest: seq<byte>)

  // The successive frames of a stream, and the unfinished one at its end.
  function Frames(head: nat, stream: seq<byte>): (r: Framed)
    requires ValidHead(head)
    ensures !Whole(head, r.rest)
    decreases |stream|
  {
    if !Whole(head, stream) then Framed([], stream)
    else
      var n := Total(head, stream);
      var r := Frames(head, stream[n..]);
      Framed([stream[..n]] + r.frames, r.rest)
  }

  // A stream that starts with a frame p.
  lemma FrameThen(head: nat, p: seq<byte>, later: seq<byte>)
    requires ValidHead(head) && Whole(head, p) && Total(head, p) == |p|
    ensures Frames(head, p + later) == Framed([p] + Frames(head, later).frames, Frames(head, later).rest)
  {
    FirstFrameStays(head, p, later);
    assert p[..|p|] == p && p[|p|..] + later == later;
  }

  lemma FirstFrame(head: nat, stream: seq<byte>) returns (p: seq<byte>, later: seq<byte>)
    requires ValidHead(head) && Whole(head, stream)
    ensures stream == p + later && Whole(head, p) && Total(head, p) == |p| && |later| < |stream|
  {
    var n := Total(head, stream);
    p, later := stream[..n], stream[n..];
  }

  lemma ConcatFirst(p: seq<byte>, parts: seq<seq<byte>>)
    ensures Concat([p] + parts) == p + Concat(parts)
  {
    assert ([p] + parts)[1..] == parts;
  }

  // Cutting into frames loses nothing.
  lemma {:induction false} FramesJoin(head: nat, stream: seq<byte>)
    requires ValidHead(head)
    ensures Concat(Frames(head, stream).frames) + Frames(head, stream).rest == stream
    decreases |stream|
  {
    if Whole(head, stream) {
      var p, later := FirstFrame(head, stream);
      var r := Frames(head, later);
      FrameThen(head, p, later);
      FramesJoin(head, later);
      ConcatFirst(p, r.frames);
      Associate(p, Concat(r.frames), r.rest);
    }
  }

  // What follows a whole frame does not change it.
  lemma FirstFrameStays(head: nat, a: seq<byte>, b: seq<byte>)
    requires ValidHead(head) && Whole(head, a)
    ensures Whole(head, a + b) && Total(head, a + b) == Total(head, a)
    ensures var n := Total(head, a);
            (a + b)[..n] == a[..n] && (a + b)[n..] == a[n..] + b
  {
  }

  // A stream may be read in two pieces: the second continues the rest of the first.
  lemma {:induction false} FramesSplit(head: nat, a: seq<byte>, b: seq<byte>)
    requires ValidHead(head)
    ensures var first := Frames(head, a);
            var second := Frames(head, first.rest + b);
            Frames(head, a + b) == Framed(first.frames + second.frames, second.rest)
    decreases |a|
  {
    if Whole(head, a) {
      var p, later := FirstFrame(head, a);
      FramesSplit(head, later, b);
      FrameThen(head, p, later);
      FrameThen(head, p, later + b);
      Associate(p, later, b);
      var r := Frames(head, later);
      Associate([p], r.frames, Frames(head, r.rest + b).frames);
    } else {
      assert [] + Frames(head, a + b).frames == Frames(head, a + b).frames;
    }
  }

  // The frames of a stream delivered in chunks, each read continuing the last.
  function FramesOfChunks(head: nat, rest: seq<byte>, chunks: seq<seq<byte>>): Framed
    requires ValidHead(head)
    decreases |chunks|
  {
    if chunks == [] then Framed([], rest)
    else
      var first := Frames(head, rest + chunks[0]);
      var later := FramesOfChunks(head, first.rest, chunks[1..]);
      Framed(first.frames + later.frames, later.rest)
  }

  // Whatever the chunks, the frames are those of the whole stream.
  lemma {:induction false} ChunksDoNotMatter(head: nat, rest: seq<byte>, chunks: seq<seq<byte>>)
    requires ValidHead(head) && !Whole(head, rest)
    ensures FramesOfChunks(head, rest, chunks) == Frames(head, rest + Concat(chunks))
    decreases |chunks|
  {
    if chunks == [] {
      assert rest + Concat(chunks) == rest;
    } else {
      var s, later := rest + chunks[0], Concat(chunks[1..]);
      FramesSplit(head, s, later);
      ChunksDoNotMatter(head, Frames(head, s).rest, chunks[1..]);
      Associate(rest, chunks[0], later);
    }
  }

  // ------------------------------------------------------------ the sending side

  // A message as Send puts it on the wire.
  function Packet(head: nat, msg: seq<byte>): seq<byte>
    requires ValidHead(head)
  {
    ToBE(head, |msg|) + msg
  }

  lemma PacketTotal(head: nat, msg: seq<byte>, more: seq<byte>)
    requires ValidHead(head)
    ensures Total(head, Packet(head, msg) + more) == head + |msg| % Pow256(head)
  {
    var s := Packet(head, msg) + more;
    HeadIsBigEndian(head, s);
    assert s[..head] == ToBE(head, |msg|);
    FromToBE(head, |msg|);
  }

  function Packets(head: nat, msgs: seq<seq<byte>>): seq<seq<byte>>
    requires ValidHead(head)
  {
    if msgs == [] then [] else [Packet(head, msgs[0])] + Packets(head, msgs[1..])
  }

  // A message comes out as the one frame that was sent exactly when its length fits the head.
  lemma OnePacket(head: nat, msg: seq<byte>)
    requires ValidHead(head)
    ensures Frames(head, Packet(head, msg)) == Framed([Packet(head, msg)], []) <==> |msg| < Pow256(head)
  {
    var s := Packet(head, msg);
    if |msg| < Pow256(head) {
      PacketIsFrame(head, msg);
      FrameThen(head, s, []);
      assert s + [] == s;
    } else {
      PacketTotal(head, msg, []);
      assert s + [] == s;
      assert Frames(head, s).frames[0] == s[..Total(head, s)];
    }
  }

  lemma PacketIsFrame(head: nat, msg: seq<byte>)
    requires ValidHead(head) && |msg| < Pow256(head)
    ensures var p := Packet(head, msg);
            Whole(head, p) && Total(head, p) == |p|
  {
    PacketTotal(head, msg, []);
    assert Packet(head, msg) + [] == Packet(head, msg);
    DivMod(|msg|, Pow256(head), 0, |msg|);
  }

  // Messages that fit, sent one after another, come out as exactly those frames.
  lemma {:induction false} SentIsReceived(head: nat, msgs: seq<seq<byte>>)
    requires ValidHead(head) && forall m :: m in msgs ==> |m| < Pow256(head)
    ensures Frames(head, Concat(Packets(head, msgs))) == Framed(Packets(head, msgs), [])
    decreases |msgs|
  {
    if msgs != [] {
      var p, later := Packet(head, msgs[0]), Packets(head, msgs[1..]);
      assert msgs[0] in msgs;
      SentIsReceived(head, msgs[1..]);
      PacketIsFrame(head, msgs[0]);
      FrameThen(head, p, Concat(later));
      ConcatFirst(p, later);
    }
  }

  // The same through any cutting of the stream into chunks.
  lemma SentInChunksIsReceived(head: nat, msgs: seq<seq<byte>>, chunks: seq<seq<byte>>)
    requires ValidHead(head) && forall m :: m in msgs ==> |m| < Pow256(head)
    requires Concat(chunks) == Concat(Packets(head, msgs))
    ensures FramesOfChunks(head, [], chunks) == Framed(Packets(head, msgs), [])
  {
    ChunksDoNotMatter(head, [], chunks);
    assert [] + Concat(chunks) == Concat(chunks);
    SentIsReceived(head, msgs);
  }
}
