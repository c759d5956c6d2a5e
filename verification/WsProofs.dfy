// What a WebSocket connection promises: frames come off the wire as they went on, however
// the stream is cut; fragments join into messages; control frames between them leave no trace.

module WsProofs {
  import opened Arith
  import opened Basics
  import opened Bytes
  import opened WsModel

  // ------------------------------------------------------------ masks

  lemma {:induction false} XorTwice(k: nat, a: nat, b: nat)
    requires a < Pow2(k)
    ensures XorBits(k, XorBits(k, a, b), b) == a
  {
    if k > 0 {
      var r := XorBits(k - 1, a / 2, b / 2);
      XorTwice(k - 1, a / 2, b / 2);
      OneBit(r, (a % 2 + b % 2) % 2);
      TwoBits(a, b % 2);
      assert XorBits(k, XorBits(k, a, b), b) == 2 * (a / 2) + ((a % 2 + b % 2) % 2 + b % 2) % 2;
    }
  }

  lemma TwoBits(a: nat, d: nat)
    requires d < 2
    ensures 2 * (a / 2) + ((a % 2 + d) % 2 + d) % 2 == a
  {
  }

  lemma OneBit(r: nat, d: nat)
    requires d < 2
    ensures (2 * r + d) / 2 == r && (2 * r + d) % 2 == d
  {
  }

  // Bit i of a number.
  predicate Bit(n: nat, i: nat) { n / Pow2(i) % 2 == 1 }

  lemma HalfBit(n: nat, i: nat)
    requires i > 0
    ensures Bit(n, i) <==> Bit(n / 2, i - 1)
  {
    var p := Pow2(i - 1);
    var q, r := n / 2 / p, n / 2 % p;
    assert n / 2 == q * p + r;
    assert q * (2 * p) == 2 * (q * p);
    DivMod(n, 2 * p, q, 2 * r + n % 2);
  }

  lemma XorHalves(k: nat, a: nat, b: nat)
    requires k > 0
    ensures XorBits(k, a, b) / 2 == XorBits(k - 1, a / 2, b / 2)
    ensures XorBits(k, a, b) % 2 == 1 <==> (a % 2 == 1 <==> b % 2 == 0)
  {
    OneBit(XorBits(k - 1, a / 2, b / 2), (a % 2 + b % 2) % 2);
  }

  lemma LowBit(n: nat)
    ensures Bit(n, 0) <==> n % 2 == 1
  {
    assert Pow2(0) == 1;
  }

  lemma {:induction false} XorBitsAre(k: nat, a: nat, b: nat, i: nat)
    requires i < k
    ensures Bit(XorBits(k, a, b), i) <==> (Bit(a, i) <==> !Bit(b, i))
    decreases k
  {
    var x := XorBits(k, a, b);
    XorHalves(k, a, b);
    if i == 0 {
      LowBit(x);
      LowBit(a);
      LowBit(b);
    } else {
      HalfBit(x, i);
      HalfBit(a, i);
      HalfBit(b, i);
      XorBitsAre(k - 1, a / 2, b / 2, i - 1);
    }
  }

  // What masking does to each bit: it stays exactly where the bit of the key is 0.
  lemma MaskedBits(key: seq<byte>, data: seq<byte>, at: nat, i: nat)
    requires |key| == 4 && at < |data| && i < 8
    ensures |Masked(key, data)| == |data|
    ensures Bit(Masked(key, data)[at], i) <==> (Bit(data[at], i) <==> !Bit(key[at % 4], i))
  {
    XorBitsAre(8, data[at], key[at % 4], i);
  }

  // Masking again with the same key unmasks.
  lemma MaskedTwice(key: seq<byte>, data: seq<byte>)
    requires |key| == 4
    ensures Masked(key, Masked(key, data)) == data
  {
    forall i | 0 <= i < |data|
      ensures Xor(Xor(data[i], key[i % 4]), key[i % 4]) == data[i]
    {
      assert Pow2(8) == 256;
      XorTwice(8, data[i], key[i % 4]);
    }
  }

  // ------------------------------------------------------------ one frame on the wire

  lemma FlagsAreRead(f: Frame)
    ensures var b := FirstByte(f);
            && f.fin == (b >= 128) && f.res1 == (b / 64 % 2 == 1) && f.res2 == (b / 32 % 2 == 1)
            && f.res3 == (b / 16 % 2 == 1) && f.opcode == b % 16
  {
  }

  // The head of a frame, before the key and the body.
  function Prefix(f: Frame, form: Form, masked: bool): seq<byte>
    requires Fits(form, |f.body|)
  {
    [FirstByte(f)] + LengthBytes(form, |f.body|, masked)
  }

  ghost predicate ReadsLength(f: Frame, form: Form, masked: bool, later: seq<byte>)
    requires Fits(form, |f.body|)
  {
    var buf := Prefix(f, form, masked) + later;
    && BodyLength(buf) == |f.body| && (buf[1] >= 128 <==> masked) && buf[0] == FirstByte(f)
    && HeadLength(buf) == |Prefix(f, form, masked)| + Flag(masked, 4)
  }

  lemma MarkIsRead(n: nat, masked: bool)
    requires n < 128
    ensures var b := n + Flag(masked, 128); b % 128 == n && (b >= 128 <==> masked)
  {
  }

  lemma BehindTwo(a: byte, b: byte, length: seq<byte>, later: seq<byte>)
    ensures var buf := ([a] + ([b] + length)) + later;
            |buf| >= 2 + |length| && buf[0] == a && buf[1] == b && buf[2..2 + |length|] == length
  {
  }

  lemma ShortLength(f: Frame, masked: bool, later: seq<byte>)
    requires Fits(Short, |f.body|)
    ensures ReadsLength(f, Short, masked, later)
  {
    MarkIsRead(|f.body|, masked);
    assert [|f.body| + Flag(masked, 128)] + [] == [|f.body| + Flag(masked, 128)];
    BehindTwo(FirstByte(f), |f.body| + Flag(masked, 128), [], later);
  }

  lemma MediumLength(f: Frame, masked: bool, later: seq<byte>)
    requires Fits(Medium, |f.body|)
    ensures ReadsLength(f, Medium, masked, later)
  {
    var length := ToBE(2, |f.body|);
    MarkIsRead(126, masked);
    BehindTwo(FirstByte(f), 126 + Flag(masked, 128), length, later);
    assert FromBE(length) == |f.body| by {
      EightBytes();
      FitsBE(2, |f.body|);
    }
  }

  lemma LongLength(f: Frame, masked: bool, later: seq<byte>)
    requires Fits(Long, |f.body|)
    ensures ReadsLength(f, Long, masked, later)
  {
    var length := ToBE(8, |f.body|);
    MarkIsRead(127, masked);
    BehindTwo(FirstByte(f), 127 + Flag(masked, 128), length, later);
    assert FromBE(length) == |f.body| by {
      EightBytes();
      FitsBE(8, |f.body|);
    }
  }

  lemma LengthIsRead(f: Frame, form: Form, masked: bool, later: seq<byte>)
    requires Fits(form, |f.body|)
    ensures ReadsLength(f, form, masked, later)
  {
    match form
    case Short => ShortLength(f, masked, later);
    case Medium => MediumLength(f, masked, later);
    case Long => LongLength(f, masked, later);
  }

  lemma Pieces(prefix: seq<byte>, key: seq<byte>, text: seq<byte>, later: seq<byte>)
    ensures var buf := prefix + ((key + text) + later);
            var head := |prefix| + |key|;
            && buf[|prefix|..head] == key && buf[head..head + |text|] == text && buf[head + |text|..] == later
  {
  }

  function KeyBytes(key: Option<seq<byte>>): seq<byte> { if key.Some? then key.value else [] }

  function BodyBytes(key: Option<seq<byte>>, body: seq<byte>): seq<byte>
    requires ValidKey(key)
  {
    if key.Some? then Masked(key.value, body) else body
  }

  lemma WireText(f: Frame, form: Form, key: Option<seq<byte>>, later: seq<byte>)
    requires Fits(form, |f.body|) && ValidKey(key)
    ensures Wire(f, form, key) + later
         == Prefix(f, form, key.Some?) + ((KeyBytes(key) + BodyBytes(key, f.body)) + later)
  {
    assert KeyBytes(key) + BodyBytes(key, f.body) == if key.Some? then key.value + Masked(key.value, f.body)
           else f.body;
  }

  lemma BodyIsRead(buf: seq<byte>, key: Option<seq<byte>>, body: seq<byte>, head: nat, total: nat)
    requires ValidKey(key) && 2 <= head <= total <= |buf| && (buf[1] >= 128 <==> key.Some?) && (key.Some? ==> head >= 4)
    requires buf[head..total] == BodyBytes(key, body) && (key.Some? ==> buf[head - 4..head] == key.value)
    ensures Unmasked(buf, head, total) == body
  {
    if key.Some? { MaskedTwice(key.value, body); }
  }

  lemma FrameIsRead(f: Frame, buf: seq<byte>, head: nat, total: nat)
    requires 2 <= head <= total <= |buf| && (buf[1] >= 128 ==> head >= 4)
    requires buf[0] == FirstByte(f) && Unmasked(buf, head, total) == f.body
    ensures FrameOf(buf, head, total) == f
  {
    FlagsAreRead(f);
  }

  lemma NextIs(buf: seq<byte>, head: nat, n: nat)
    requires |buf| >= 2 && BodyLength(buf) == n && HeadLength(buf) == head && head + n <= MAX_INT64 && head + n <= |buf|
    ensures NextFrame(buf) == Got(FrameOf(buf, head, head + n), buf[head + n..])
  {
  }

  // Looking for a frame panics if and only if its length is given in eight bytes, fits a signed
  // number, and makes the end of the frame overflow.
  lemma CrashesExactly(buf: seq<byte>)
    ensures NextFrame(buf).Crash? <==>
            |buf| >= 10 && buf[1] % 128 == 127 && MAX_INT64 - HeadLength(buf) < FromBE(buf[2..10]) <= MAX_INT64
  {
    EightBytes();
  }

  // Ten bytes do it, and no byte of the body.
  lemma TenBytesCrash(first: byte, n: nat)
    requires MAX_INT64 - 10 < n <= MAX_INT64
    ensures NextFrame([first, 127] + ToBE(8, n)).Crash?
  {
    var buf := [first, 127] + ToBE(8, n);
    assert buf[2..10] == ToBE(8, n) && HeadLength(buf) == 10;
    assert FromBE(buf[2..10]) == n by {
      EightBytes();
      FitsBE(8, n);
    }
    CrashesExactly(buf);
  }

  // A frame comes off the wire as it went on, masked or not, in any form, whatever follows.
  lemma WireIsRead(f: Frame, form: Form, key: Option<seq<byte>>, later: seq<byte>)
    requires Fits(form, |f.body|) && ValidKey(key)
    ensures NextFrame(Wire(f, form, key) + later) == Got(f, later)
  {
    var prefix, k, text := Prefix(f, form, key.Some?), KeyBytes(key), BodyBytes(key, f.body);
    var buf := Wire(f, form, key) + later;
    WireText(f, form, key, later);
    LengthIsRead(f, form, key.Some?, (k + text) + later);
    Pieces(prefix, k, text, later);
    var head := |prefix| + |k|;
    NextIs(buf, head, |f.body|);
    BodyIsRead(buf, key, f.body, head, head + |f.body|);
    FrameIsRead(f, buf, head, head + |f.body|);
  }

  lemma HiMasked()
    ensures Masked([1, 2, 3, 4], [104, 105]) == [105, 107]
  {
    var key: seq<byte>, data: seq<byte> := [1, 2, 3, 4], [104, 105];
    assert Xor(104, 1) == 105 && Xor(105, 2) == 107;
    assert Masked(key, data)[0] == 105 && Masked(key, data)[1] == 107;
  }

  // A frame as browsers send it: a masked text, "hi".
  lemma HiIsRead()
    ensures NextFrame([129, 130, 1, 2, 3, 4, 105, 107]) == Got(Frame(true, false, false, false, TEXT, [104, 105]), [])
  {
    var f, key := Frame(true, false, false, false, TEXT, [104, 105]), Some([1, 2, 3, 4]);
    HiMasked();
    WireIsRead(f, Short, key, []);
    assert Wire(f, Short, key) + [] == [129, 130, 1, 2, 3, 4, 105, 107];
  }

  lemma SameHead(a: seq<byte>, b: seq<byte>)
    requires |a| >= 2 && BodyLength(a) >= 0
    ensures BodyLength(a + b) == BodyLength(a) && HeadLength(a + b) == HeadLength(a)
  {
    assert (a + b)[1] == a[1];
    if a[1] % 128 == 126 { SameSlice(a, b, 2, 4); }
    if a[1] % 128 == 127 { SameSlice(a, b, 2, 10); }
  }

  lemma SameSlice(a: seq<byte>, b: seq<byte>, i: nat, j: nat)
    requires i <= j <= |a|
    ensures (a + b)[i..j] == a[i..j] && (a + b)[j..] == a[j..] + b
  {
  }

  lemma SameFrame(a: seq<byte>, b: seq<byte>, head: nat, total: nat)
    requires 2 <= head <= total <= |a| && (a[1] >= 128 ==> head >= 4)
    ensures FrameOf(a + b, head, total) == FrameOf(a, head, total) && (a + b)[total..] == a[total..] + b
  {
    assert (a + b)[0] == a[0] && (a + b)[1] == a[1];
    SameSlice(a, b, head, total);
    if head >= 4 { SameSlice(a, b, head - 4, head); }
    assert Unmasked(a + b, head, total) == Unmasked(a, head, total);
  }

  // What follows a frame does not change it.
  lemma FrameStays(a: seq<byte>, b: seq<byte>)
    requires NextFrame(a) != Wait
    ensures NextFrame(a + b) == if NextFrame(a).Crash? then Crash else Got(NextFrame(a).frame, NextFrame(a).rest + b)
  {
    SameHead(a, b);
    if NextFrame(a).Got? { SameFrame(a, b, HeadLength(a), HeadLength(a) + BodyLength(a)); }
  }

  lemma TakingIsSound(cfg: Config, lib: Lib)
    ensures Sound(Taking(cfg, lib))
  {
    forall a, b
      ensures Stays(Taking(cfg, lib), a, b)
    {
      if NextFrame(a) != Wait { FrameStays(a, b); }
    }
  }

  // ------------------------------------------------------------ a stream in pieces

  lemma {:induction false} FeedSplit(m: Machine, st: State, a: seq<byte>, b: seq<byte>)
    requires Sound(m)
    ensures var p := Feed(m, st, a);
            Feed(m, st, a + b) ==
              if p.failure != Fine then p.(rest := p.rest + b) else Before(p.events, Feed(m, p.st, p.rest + b))
    decreases |a|
  {
    assert Stays(m, a, b);
    match m.next(a)
    case Wait =>
      var whole := Feed(m, st, a + b);
      assert [] + whole.events == whole.events;
    case Crash =>
      assert Feed(m, st, a + b).rest == a + b;
    case Got(f, rest) =>
      var e := m.take(st, f);
      if e.failure == Fine {
        FeedSplit(m, e.st, rest, b);
        var p := Feed(m, e.st, rest);
        if p.failure == Fine {
          var later := Feed(m, p.st, p.rest + b);
          assert e.events + (p.events + later.events) == (e.events + p.events) + later.events;
        }
      }
  }

  // What Read leaves in the buffer is no whole frame.
  lemma {:induction false} RestWaits(m: Machine, st: State, buf: seq<byte>)
    requires Sound(m)
    ensures var p := Feed(m, st, buf);
            (p.failure == Fine ==> m.next(p.rest).Wait?) && |p.rest| <= |buf|
    decreases |buf|
  {
    assert Stays(m, buf, []);
    var next := m.next(buf);
    if next.Got? {
      var e := m.take(st, next.frame);
      if e.failure == Fine { RestWaits(m, e.st, next.rest); }
    }
  }

  // One Read after another, until one fails.
  ghost function ReadAll(m: Machine, limit: int, st: State, buf: seq<byte>, chunks: seq<seq<byte>>): Progress
    requires Sound(m)
    decreases |chunks|
  {
    if chunks == [] then Progress(st, buf, [], Fine)
    else
      var p := ReadResult(m, limit, st, buf, chunks[0]);
      if p.failure != Fine then p else Before(p.events, ReadAll(m, limit, p.st, p.rest, chunks[1..]))
  }

  // No Read is refused for its size before it has begun.
  ghost predicate NoneRefused(m: Machine, limit: int, st: State, buf: seq<byte>, chunks: seq<seq<byte>>)
    requires Sound(m)
    decreases |chunks|
  {
    chunks != [] ==>
      && !Refused(limit, st, buf, chunks[0])
      && var p := Feed(m, st, buf + chunks[0]);
        p.failure == Fine ==> NoneRefused(m, limit, p.st, p.rest, chunks[1..])
  }

  // However the network cuts the stream, within the limit, the events, the failure and what
  // the connection ends up with are those of the whole stream.
  lemma {:induction false} ChunksDoNotMatter(m: Machine, limit: int, st: State, buf: seq<byte>, chunks: seq<seq<byte>>)
    requires Sound(m) && m.next(buf).Wait? && NoneRefused(m, limit, st, buf, chunks)
    ensures var parts := ReadAll(m, limit, st, buf, chunks);
            var whole := Feed(m, st, buf + Concat(chunks));
            && parts.events == whole.events && parts.failure == whole.failure && parts.st == whole.st
            && (whole.failure == Fine ==> parts.rest == whole.rest)
    decreases |chunks|
  {
    if chunks == [] {
      assert buf + Concat(chunks) == buf;
    } else {
      var a, b := buf + chunks[0], Concat(chunks[1..]);
      assert buf + Concat(chunks) == a + b;
      FeedSplit(m, st, a, b);
      RestWaits(m, st, a);
      var p := Feed(m, st, a);
      if p.failure == Fine { ChunksDoNotMatter(m, limit, p.st, p.rest, chunks[1..]); }
    }
  }
}
