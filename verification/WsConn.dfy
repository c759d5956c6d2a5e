// The connection as an object (httpd/websocket/conn.go): a buffer that is unmasked in place
// and cut into frames, and a message that grows.

module WsConn {
  import opened Basics
  import opened Bytes
  import opened Bpool
  import opened WsModel
  import opened WsProofs
  import opened WsMessages

  // The bytes of the answers among some events.
  function AnswerBytes(es: seq<Event>): seq<byte> {
    if es == [] then []
    else (if es[0].Reply? then Written(es[0].opcode, false, es[0].data) else []) + AnswerBytes(es[1..])
  }

  lemma {:induction false} AnswersJoin(a: seq<Event>, b: seq<Event>)
    ensures AnswerBytes(a + b) == AnswerBytes(a) + AnswerBytes(b)
    decreases |a|
  {
    if a == [] {
      assert a + b == b;
    } else {
      var first := AnswerBytes([a[0]]);
      assert (a + b)[1..] == a[1..] + b && [a[0]][1..] == [];
      AnswersJoin(a[1..], b);
      Associate(first, AnswerBytes(a[1..]), AnswerBytes(b));
    }
  }

  lemma TellMore(events: seq<Event>, sent: seq<byte>, out: seq<Event>, es: seq<Event>)
    ensures (events + out) + es == events + (out + es)
    ensures (sent + AnswerBytes(out)) + AnswerBytes(es) == sent + AnswerBytes(out + es)
  {
    AnswersJoin(out, es);
    Associate(sent, AnswerBytes(out), AnswerBytes(es));
  }

  lemma WrittenFirst(opcode: Opcode, compress: bool, data: seq<byte>)
    ensures |data| <= MAX_FRAME_PAYLOAD ==>
              Written(opcode, compress, data)
                == Wire(Frame(true, compress, false, false, opcode, data), FormFor(|data|), None)
    ensures |data| > MAX_FRAME_PAYLOAD ==>
              Written(opcode, compress, data) ==
                Wire(Frame(false, compress, false, false, opcode, data[..MAX_FRAME_PAYLOAD]),
                  FormFor(MAX_FRAME_PAYLOAD), None) +
                Written(FRAGMENT, compress, data[MAX_FRAME_PAYLOAD..])
  {
    var parts := Cut(data);
    FitsAll(opcode, compress, parts);
    var fs := Fragments(opcode, compress, parts);
    var ss := AsWritten(fs);
    assert ss[1..] == AsWritten(fs[1..]);
    if |data| <= MAX_FRAME_PAYLOAD {
      assert fs[1..] == [];
      assert WireAll(ss[1..]) == [];
    } else {
      assert parts[1..] == Cut(data[MAX_FRAME_PAYLOAD..]) && parts[1..] != [];
      FitsAll(FRAGMENT, compress, parts[1..]);
      assert fs[1..] == Fragments(FRAGMENT, compress, parts[1..]);
    }
  }

  // A sum of int64 values that are not negative.
  function Wrap64(n: nat): int { if n <= MAX_INT64 then n else n - 0x1_0000_0000_0000_0000 }

  // What is still to be written of a message.
  ghost predicate ToCome(sent: seq<byte>, goal: seq<byte>, opcode: Opcode, compress: bool, data: seq<byte>) {
    if data == [] then sent == goal
    else forall later :: later == data ==> sent + Written(opcode, compress, later) == goal
  }

  lemma OnePiece(sent: seq<byte>, goal: seq<byte>, opcode: Opcode, compress: bool, data: seq<byte>, n: nat)
    requires data != [] && ToCome(sent, goal, opcode, compress, data)
    requires n == if |data| > MAX_FRAME_PAYLOAD then MAX_FRAME_PAYLOAD else |data|
    ensures var wire := Wire(Frame(n == |data|, compress, false, false, opcode, data[..n]), FormFor(n), None);
            ToCome(sent + wire, goal, FRAGMENT, compress, data[n..])
  {
    WrittenFirst(opcode, compress, data);
    var wire := Wire(Frame(n == |data|, compress, false, false, opcode, data[..n]), FormFor(n), None);
    assert sent + Written(opcode, compress, data) == goal;
    if n == |data| {
      assert data[..n] == data && data[n..] == [];
    } else {
      assert (sent + wire) + Written(FRAGMENT, compress, data[n..])
             == sent + (wire + Written(FRAGMENT, compress, data[n..]));
    }
  }

  // An event that is no answer sends nothing.
  lemma NoBytes()
    ensures AnswerBytes([]) == [] && AnswerBytes([Closed]) == []
  {
    assert [Closed][1..] == [];
  }

  // An answer sends its one frame.
  lemma OneAnswer(op: Opcode, data: seq<byte>)
    ensures AnswerBytes([Reply(op, data)]) == Written(op, false, data)
    ensures AnswerBytes([Reply(op, data), Closed]) == Written(op, false, data)
  {
    NoBytes();
    assert [Reply(op, data)][1..] == [] && [Reply(op, data), Closed][1..] == [Closed];
    assert Written(op, false, data) + [] == Written(op, false, data);
  }

  lemma NoAnswers(cfg: Config, lib: Lib, st: State, f: Frame)
    requires IsData(f.opcode)
    ensures AnswerBytes(Take(cfg, lib, st, f).events) == []
  {
    DataIsNoReply(cfg, lib, st, f);
    NoBytes();
    var es := Take(cfg, lib, st, f).events;
    if es != [] { assert es[1..] == []; }
  }

  // Where the loop of Read stands: this much has happened, and reading goes on from here.
  ghost predicate Stands(m: Machine, goal: Progress, out: seq<Event>, st: State, held: seq<byte>) {
    Sound(m) && forall later :: later == held ==> goal == Before(out, Feed(m, st, later))
  }

  // All that is to happen, as the loop begins.
  ghost function Begins(m: Machine, st: State, held: seq<byte>): (goal: Progress)
    requires Sound(m)
    ensures goal == Feed(m, st, held) && Stands(m, goal, [], st, held)
  {
    var goal := Feed(m, st, held);
    assert [] + goal.events == goal.events;
    goal
  }

  lemma Stops(m: Machine, goal: Progress, out: seq<Event>, st: State, held: seq<byte>)
    requires Stands(m, goal, out, st, held) && !m.next(held).Got?
    ensures goal == Progress(st, held, out, if m.next(held).Crash? then Panic else Fine)
  {
    assert goal == Before(out, Feed(m, st, held)) && out + [] == out;
  }

  lemma Goes(cfg: Config, lib: Lib, goal: Progress, out: seq<Event>, st: State, held: seq<byte>, e: Effect)
    requires Stands(Taking(cfg, lib), goal, out, st, held) && NextFrame(held).Got? &&
             e == Take(cfg, lib, st, NextFrame(held).frame)
    ensures var rest := NextFrame(held).rest;
            && |rest| < |held|
            && (e.failure == Fine ==> Stands(Taking(cfg, lib), goal, out + e.events, e.st, rest))
            && (e.failure != Fine ==> goal == Progress(e.st, rest, out + e.events, e.failure))
  {
    var m, rest := Taking(cfg, lib), NextFrame(held).rest;
    assert goal == Before(out, Feed(m, st, held)) && m.next(held) == NextFrame(held);
    assert m.take(st, NextFrame(held).frame) == e && Stays(m, held, []);
    if e.failure == Fine {
      var p := Feed(m, e.st, rest);
      assert (out + e.events) + p.events == out + (e.events + p.events);
    }
  }

  lemma SliceOfPrefix(s: seq<byte>, l: nat, i: nat, j: nat)
    requires i <= j <= l <= |s|
    ensures s[..l][i..j] == s[i..j]
  {
  }

  lemma SliceOfBuffer(b: array<byte>, l: nat, held: seq<byte>, i: nat, j: nat)
    requires i <= j <= l <= b.Length && held == b[..l]
    ensures b[i..j] == held[i..j]
  {
    SliceOfPrefix(b[..], l, i, j);
    assert b[..][..l] == held && b[..][i..j] == b[i..j];
  }

  // binary.BigEndian.PutUint16 and PutUint64
  method PutBE(b: array<byte>, from: nat, k: nat, n: nat)
    requires from + k <= b.Length
    modifies b
    ensures b[from..from + k] == ToBE(k, n)
    ensures b[..from] == old(b[..from]) && b[from + k..] == old(b[from + k..])
  {
    var i, rest := k, n;
    while i > 0
      invariant 0 <= i <= k && rest >= 0
      invariant ToBE(k, n) == ToBE(i, rest) + b[from + i..from + k]
      invariant b[..from] == old(b[..from]) && b[from + k..] == old(b[from + k..])
    {
      b[from + i - 1] := rest % 256;
      assert ToBE(i, rest) == ToBE(i - 1, rest / 256) + [rest % 256];
      assert b[from + i - 1..from + k] == [rest % 256] + b[from + i..from + k];
      i, rest := i - 1, rest / 256;
    }
    assert ToBE(0, rest) == [];
  }

  method CopyTo(b: array<byte>, from: nat, data: seq<byte>)
    requires from + |data| <= b.Length
    modifies b
    ensures b[from..from + |data|] == data
    ensures b[..from] == old(b[..from]) && b[from + |data|..] == old(b[from + |data|..])
  {
    forall i | 0 <= i < |data| {
      b[from + i] := data[i];
    }
  }

  // Unmasking in place: each byte under its byte of the key.
  method Unmask(b: array<byte>, from: nat, to: nat, key: seq<byte>)
    requires from <= to <= b.Length && |key| == 4
    modifies b
    ensures b[from..to] == Masked(key, old(b[from..to]))
    ensures b[..from] == old(b[..from]) && b[to..] == old(b[to..])
  {
    ghost var was := b[..];
    var i := 0;
    while i < to - from
      invariant 0 <= i <= to - from
      invariant forall k :: 0 <= k < i ==> b[from + k] == Xor(was[from + k], key[k % 4])
      invariant b[..from] == was[..from] && b[from + i..] == was[from + i..]
    {
      b[from + i] := Xor(b[from + i], key[i % 4]);
      i := i + 1;
    }
    assert b[from..to] == Masked(key, was[from..to]);
    assert was[from..to] == old(b[from..to]);
  }

  // The buffer of writeFrame with the length of the body in it.
  method SizedBuffer(bodyLen: nat) returns (buf: array<byte>, headLen: nat)
    requires bodyLen <= MAX_INT64 - 14
    ensures fresh(buf) && headLen == 1 + |LengthBytes(FormFor(bodyLen), bodyLen, false)| &&
            buf.Length == headLen + bodyLen
    ensures buf[1..headLen] == LengthBytes(FormFor(bodyLen), bodyLen, false)
  {
    if bodyLen < 126 {
      headLen := 2;
      buf := new byte[bodyLen + headLen];
      buf[1] := bodyLen;
      assert buf[1..2] == [buf[1]];
    } else if bodyLen <= 65535 {
      headLen := 4;
      buf := new byte[bodyLen + headLen];
      buf[1] := 126;
      assert buf[..2][1] == 126;
      PutBE(buf, 2, 2, bodyLen);
      assert buf[..2][1] == buf[1];
      assert buf[1..4] == [buf[1]] + buf[2..4];
    } else {
      headLen := 10;
      buf := new byte[bodyLen + headLen];
      buf[1] := 127;
      assert buf[..2][1] == 127;
      PutBE(buf, 2, 8, bodyLen);
      assert buf[..2][1] == buf[1];
      assert buf[1..10] == [buf[1]] + buf[2..10];
    }
  }

  // The bytes of one frame, as writeFrame lays them out.
  method FrameBytes(opcode: Opcode, sendOpcode: bool, fin: bool, data: seq<byte>, compress: bool)
    returns (buf: array<byte>)
    requires |data| <= MAX_INT64 - 14
    ensures fresh(buf) && buf[..] ==
              Wire(Frame(fin, compress, false, false, if sendOpcode then opcode else FRAGMENT, data), FormFor(|data|),
                None)
  {
    var headLen;
    buf, headLen := SizedBuffer(|data|);
    ghost var size := buf[1..headLen];
    assert size == buf[..headLen][1..];
    CopyTo(buf, headLen, data);
    assert size == buf[..headLen][1..];
    ghost var tail := buf[1..];
    assert tail == size + data;
    SetFlags(buf, if sendOpcode then opcode else FRAGMENT, fin, compress);
    assert buf[..] == [buf[0]] + buf[1..];
  }

  method SetFlags(buf: array<byte>, opcode: Opcode, fin: bool, compress: bool)
    requires buf.Length > 0
    modifies buf
    ensures buf[0] == Flag(fin, 128) + Flag(compress, 64) + opcode && buf[1..] == old(buf[1..])
  {
    buf[0] := opcode;
    if compress {
      buf[0] := buf[0] + 64;
    }
    if fin {
      buf[0] := buf[0] + 128;
    }
  }

  class Conn {
    const config: Config
    const readLimit: int
    const lib: Lib
    var buffer: Buff
    var message: Buff?
    var opcode: Opcode
    var compress: bool
    var expectingFragments: bool
    var enableWriteCompression: bool
    var sent: seq<byte>      // what has been written to the peer
    var events: seq<Event>   // what has been handed over, answered and closed
    ghost var held: seq<byte>          // what the buffer holds
    ghost var got: Option<seq<byte>>   // what the message holds

    ghost predicate Buffered()
      reads `buffer, `held, buffer, buffer.b
    {
      buffer.Valid() && buffer.Contents() == held
    }

    ghost function Mine(): set<object>
      reads `message
    {
      if message == null then {} else {message, message.b}
    }

    ghost function Repr(): set<object>
      reads `buffer, `message
    {
      {buffer, buffer.b} + Mine()
    }

    ghost predicate Messaged()
      reads `buffer, `message, `got, Mine()
    {
      && buffer !in Mine() && buffer.b !in Mine()
      && (if message == null then got == None else message.Valid() && got == Some(message.Contents()))
    }

    ghost predicate Valid()
      reads `buffer, `held, `message, `got, buffer, buffer.b, Mine()
    {
      Buffered() && Messaged()
    }

    ghost function St(): State
      reads `opcode, `compress, `expectingFragments, `got
    {
      State(opcode, compress, expectingFragments, got)
    }

    constructor (config: Config, readLimit: int, lib: Lib, enableWriteCompression: bool)
      ensures Valid() && St() == IDLE && held == [] && sent == [] && events == []
      ensures this.config == config && this.readLimit == readLimit && this.lib == lib
      ensures fresh(buffer) && fresh(buffer.b) && this.enableWriteCompression == enableWriteCompression
    {
      this.config, this.readLimit, this.lib, this.enableWriteCompression := config, readLimit, lib,
        enableWriteCompression;
      buffer := new Buff(4 * 1024);
      message, opcode, compress, expectingFragments := null, 0, false, false;
      sent, events, held, got := [], [], [], None;
    }

    // ---------------------------------------------------------- writing

    method WriteFrame(messageType: Opcode, sendOpcode: bool, fin: bool, data: seq<byte>, compress: bool)
      requires |data| <= MAX_INT64 - 14
      modifies this`sent
      ensures sent == old(sent) +
        Wire(Frame(fin, compress, false, false, if sendOpcode then messageType else FRAGMENT, data), FormFor(|data|),
          None)
    {
      var buf := FrameBytes(messageType, sendOpcode, fin, data, compress);
      sent := sent + buf[..];
    }

    // The loop of WriteMessage over the pieces of what is not empty.
    method WritePieces(messageType: Opcode, text: seq<byte>, compress: bool)
      requires text != []
      modifies this`sent
      ensures sent == old(sent) + Written(messageType, compress, text)
    {
      var data, sendOpcode := text, true;
      ghost var goal := sent + Written(messageType, compress, text);
      while |data| > 0
        invariant ToCome(sent, goal, if sendOpcode then messageType else FRAGMENT, compress, data)
        decreases |data|
      {
        var n := |data|;
        if n > MAX_FRAME_PAYLOAD {
          n := MAX_FRAME_PAYLOAD;
        }
        OnePiece(sent, goal, if sendOpcode then messageType else FRAGMENT, compress, data, n);
        WriteFrame(messageType, sendOpcode, n == |data|, data[..n], compress);
        sendOpcode := false;
        data := data[n..];
      }
    }

    // WriteMessage: what the peer is sent, or nothing for a control message that is too long.
    method WriteMessage(messageType: Opcode, text: seq<byte>) returns (ok: bool)
      modifies this`sent
      ensures var control := messageType == PING || messageType == PONG || messageType == CLOSE;
              var squeezed := if enableWriteCompression && (messageType == TEXT || messageType == BINARY)
                then lib.deflate(text) else None;
              && ok == !(control && |text| > MAX_CONTROL_PAYLOAD)
              && (ok ==>
                sent == old(sent) +
                  Written(messageType, squeezed.Some?, if squeezed.Some? then squeezed.value else text))
              && (!ok ==> sent == old(sent))
    {
      if messageType == PING || messageType == PONG || messageType == CLOSE {
        if |text| > MAX_CONTROL_PAYLOAD {
          return false;
        }
      }
      var data := text;
      var compress := enableWriteCompression && (messageType == TEXT || messageType == BINARY);
      if compress {
        var r := lib.deflate(data);
        if r == None {
          compress := false;
        } else {
          data := r.value;
        }
      }
      if |data| > 0 {
        WritePieces(messageType, data, compress);
        return true;
      }
      WrittenFirst(messageType, compress, data);
      WriteFrame(messageType, true, true, [], compress);
      return true;
    }

    // ---------------------------------------------------------- reading

    // nextFrame; `crash` says that it panics.
    method NextFrame() returns (f: Option<Frame>, crash: bool)
      requires Valid()
      modifies this`buffer, this`held, buffer, buffer.b
      ensures Valid() && (buffer == old(buffer) || (fresh(buffer) && fresh(buffer.b)))
      ensures match WsModel.NextFrame(old(held))
              case Wait => f == None && !crash && held == old(held)
              case Crash => f == None && crash && held == old(held)
              case Got(frame, rest) => f == Some(frame) && !crash && held == rest
    {
      f, crash := None, false;
      if buffer.size < 2 {
        return;
      }
      f, crash := Behind();
    }

    // The rest of nextFrame, once its first two bytes are there.
    method Behind() returns (f: Option<Frame>, crash: bool)
      requires Valid() && |held| >= 2
      modifies this`buffer, this`held, buffer, buffer.b
      ensures Valid() && (buffer == old(buffer) || (fresh(buffer) && fresh(buffer.b)))
      ensures match WsModel.NextFrame(old(held))
              case Wait => f == None && !crash && held == old(held)
              case Crash => f == None && crash && held == old(held)
              case Got(frame, rest) => f == Some(frame) && !crash && held == rest
    {
      f, crash := None, false;
      var l, buf := buffer.size, buffer.b;
      var headLen, bodyLen := ReadLength();
      if bodyLen < 0 {
        return;
      }
      var masked := buf[1] >= 128;
      if masked {
        headLen := headLen + 4;
      }
      var total := Wrap64(headLen + bodyLen);
      if l < total {
        return;
      }
      if total < headLen {
        crash := true;
        return;
      }
      f := TakeOut(headLen, total, masked);
    }

    // The beginning of nextFrame: the length, and where it ends.
    method ReadLength() returns (headLen: nat, bodyLen: int)
      requires Valid() && |held| >= 2
      ensures bodyLen == BodyLength(held) && bodyLen <= MAX_INT64
      ensures bodyLen >= 0 ==> headLen + (if held[1] >= 128 then 4 else 0) == HeadLength(held)
    {
      var l, buf := buffer.size, buffer.b;
      var payloadLen := buf[1] % 128;
      headLen, bodyLen := 2, -1;
      if payloadLen == 126 {
        if l >= 4 {
          SliceOfBuffer(buf, l, held, 2, 4);
          bodyLen, headLen := FromBE(buf[2..4]), 4;
        }
      } else if payloadLen == 127 {
        if l >= 10 {
          EightBytes();
          SliceOfBuffer(buf, l, held, 2, 10);
          bodyLen, headLen := AsInt64(FromBE(buf[2..10])), 10;
        }
      } else {
        bodyLen := payloadLen;
      }
    }

    // The end of nextFrame: unmask the body where it is, and keep what follows.
    method TakeOut(headLen: nat, total: nat, masked: bool) returns (f: Option<Frame>)
      requires Valid() && 2 <= headLen <= total <= |held| && (masked ==> headLen >= 4) && masked == (held[1] >= 128)
      modifies this`buffer, this`held, buffer, buffer.b
      ensures Valid() && (buffer == old(buffer) || (fresh(buffer) && fresh(buffer.b)))
      ensures f == Some(FrameOf(old(held), headLen, total)) && held == old(held)[total..]
    {
      var l, buf, first := buffer.size, buffer.b, buffer.b[0];
      SliceOfBuffer(buf, l, held, headLen, total);
      if masked {
        SliceOfBuffer(buf, l, held, headLen - 4, headLen);
        Unmask(buf, headLen, total, buf[headLen - 4..headLen]);
      }
      f := Some(Frame(first >= 128, first / 64 % 2 == 1, first / 32 % 2 == 1, first / 16 % 2 == 1, first % 16,
        buf[headLen..total]));
      assert buf[total..l] == old(held)[total..] by {
        assert buf[total..l] == buf[total..][..l - total];
      }
      if l == total {
        buffer.Reset();
      } else {
        buffer := new Buff.From(buf[total..l]);
      }
      held := held[total..];
    }

    // A data frame with a body: the message grows, up to its limit.
    method AddBody(body: seq<byte>) returns (tooLarge: bool)
      requires Valid() && body != []
      modifies this`message, this`got, Mine()
      ensures Valid() && fresh(Mine() - old(Mine()))
      ensures tooLarge == (|old(Held(got))| + |body| > config.maxMessageSize)
      ensures got == if tooLarge && old(got).Some? then old(got) else Some(Held(old(got)) + body)
    {
      if message == null {
        message := new Buff.From(body);
        got := Some(body);
        assert Held(old(got)) + body == body;
        return |body| > config.maxMessageSize;
      }
      if message.size + |body| > config.maxMessageSize {
        return true;
      }
      message := message.Append(body);
      got := Some(got.value + body);
      return false;
    }

    // handleMessage; a text that is not there panics.
    method HandleMessage(opcode: Opcode) returns (failure: Failure)
      requires Valid()
      modifies this`events
      ensures var e := Handle(lib, opcode, got); failure == e.failure && events == old(events) + e.events
    {
      if opcode == TEXT {
        if message == null {
          return Panic;
        }
        var text := message.b[..message.size];
        if !lib.utf8(text) {
          events := events + [Closed];
          return Fine;
        }
      }
      events := events + [Cast(if message == null then None else Some(message.b[..message.size]))];
      return Fine;
    }

    // The last fragment: decompress, hand over, start again.
    method Complete() returns (failure: Failure)
      requires Valid()
      modifies this`message, this`got, this`events, this`opcode, this`compress, this`expectingFragments
      ensures Valid() && fresh(Mine() - old(Mine()))
      ensures var e := Finish(lib, old(St()));
              failure == e.failure && events == old(events) + e.events && (failure == Fine ==> St() == e.st)
    {
      if compress {
        if message == null {
          return Panic;
        }
        var text := lib.inflate(message.b[..message.size]);
        if text == None {
          return Failure.Error(ErrInflate);
        }
        message := new Buff.From(text.value);
        got := text;
      }
      failure := HandleMessage(opcode);
      if failure == Fine {
        compress, expectingFragments, message, opcode := false, false, null, 0;
        got := None;
      }
    }

    // A data frame, once it is valid.
    method TakeDataFrame(f: Frame) returns (failure: Failure)
      requires Valid() && IsData(f.opcode)
      modifies this`message, this`got, this`events, this`opcode, this`compress, this`expectingFragments, Mine()
      ensures Valid() && fresh(Mine() - old(Mine()))
      ensures var e := TakeData(config, lib, old(St()), f);
              failure == e.failure && events == old(events) + e.events && (failure == Fine ==> St() == e.st)
    {
      if opcode == 0 {
        opcode, compress := f.opcode, f.res1;
      }
      if |f.body| > 0 {
        var tooLarge := AddBody(f.body);
        if tooLarge {
          return Failure.Error(ErrTooLarge);
        }
      }
      failure := CompleteOrWait(f.fin);
    }

    // The end of that: the message is complete, or more of it is expected.
    method CompleteOrWait(fin: bool) returns (failure: Failure)
      requires Valid()
      modifies this`message, this`got, this`events, this`opcode, this`compress, this`expectingFragments
      ensures Valid() && fresh(Mine() - old(Mine()))
      ensures var st := old(St());
              var e := if fin then Finish(lib, st) else Effect(st.(expecting := true), [], Fine);
              failure == e.failure && events == old(events) + e.events && (failure == Fine ==> St() == e.st)
    {
      if fin {
        failure := Complete();
      } else {
        expectingFragments := true;
        failure := Fine;
      }
    }

    // The answer to a close frame; a close with a long reason is not answered.
    method AnswerClose(data: seq<byte>)
      modifies this`events, this`sent
      ensures var es := CloseReply(lib, data); events == old(events) + es && sent == old(sent) + AnswerBytes(es)
    {
      var answer := [];
      if |data| >= 2 {
        answer := data;
        if !ValidCloseCode(FromBE(data[..2])) || !lib.utf8(data[2..]) {
          answer := ToBE(2, 1002);
        }
      }
      NoBytes();
      OneAnswer(CLOSE, answer);
      if |answer| > MAX_CONTROL_PAYLOAD {
        events := events + [Closed];
        return;
      }
      var ok := WriteMessage(CLOSE, answer);
      events := events + [Reply(CLOSE, answer), Closed];
    }

    // pingMessage
    method AnswerPing(data: seq<byte>)
      modifies this`events, this`sent
      ensures var es := if |data| > MAX_CONTROL_PAYLOAD then [Closed] else [Reply(PONG, data)];
              events == old(events) + es && sent == old(sent) + AnswerBytes(es)
    {
      NoBytes();
      OneAnswer(PONG, data);
      if |data| > MAX_CONTROL_PAYLOAD {
        events := events + [Closed];
        return;
      }
      var ok := WriteMessage(PONG, data);
      events := events + [Reply(PONG, data)];
    }

    // handleWsMessage for the control frames.
    method TakeControlFrame(f: Frame) returns (failure: Failure)
      requires !IsData(f.opcode)
      modifies this`events, this`sent
      ensures var e := TakeControl(config, lib, old(St()), f);
              failure == e.failure && events == old(events) + e.events && sent == old(sent) + AnswerBytes(e.events)
    {
      NoBytes();
      if |f.body| > 0 {
        if |f.body| > config.maxMessageSize {
          return Failure.Error(ErrTooLarge);
        }
      }
      if f.opcode == CLOSE {
        AnswerClose(f.body);
      } else if f.opcode == PING {
        AnswerPing(f.body);
      } else if f.opcode != PONG {
        events := events + [Closed];
      }
      failure := Fine;
    }

    // One turn of the loop of Read.
    method TakeFrame(f: Frame) returns (failure: Failure)
      requires Valid()
      modifies this`message, this`got, this`events, this`sent, this`opcode, this`compress, this`expectingFragments,
        Mine()
      ensures Valid() && fresh(Mine() - old(Mine()))
      ensures var e := Take(config, lib, old(St()), f);
              && failure == e.failure && events == old(events) + e.events && sent == old(sent) + AnswerBytes(e.events)
              && (failure == Fine ==> St() == e.st)
    {
      var err := FrameError(config, f, expectingFragments);
      if err.Some? {
        return Failure.Error(err.value);
      }
      if IsData(f.opcode) {
        NoAnswers(config, lib, St(), f);
        failure := TakeDataFrame(f);
      } else {
        failure := TakeControlFrame(f);
      }
    }

    // One turn of the loop of Read: a frame is found and taken, or there is no more to do.
    method Turn(ghost goal: Progress, ghost out: seq<Event>)
      returns (more: bool, failure: Failure, ghost es: seq<Event>)
      requires Valid() && Stands(Taking(config, lib), goal, out, St(), held)
      modifies this, Repr()
      ensures Valid() && fresh(Repr() - old(Repr()))
      ensures events == old(events) + es && sent == old(sent) + AnswerBytes(es)
      ensures more ==>
                failure == Fine && |held| < |old(held)| && Stands(Taking(config, lib), goal, out + es, St(), held)
      ensures !more ==> && goal.failure == failure && goal.events == out + es && goal.rest == held
                        && (failure == Fine ==> goal.st == St())
    {
      ghost var was, st := held, St();
      var f, crash := NextFrame();
      NoBytes();
      if f == None {
        Stops(Taking(config, lib), goal, out, st, was);
        return false, if crash then Panic else Fine, [];
      }
      more, failure, es := Turned(goal, out, was, f.value);
    }

    method Turned(ghost goal: Progress, ghost out: seq<Event>, ghost was: seq<byte>, f: Frame)
      returns (more: bool, failure: Failure, ghost es: seq<Event>)
      requires Valid() && Stands(Taking(config, lib), goal, out, St(), was) && WsModel.NextFrame(was) == Got(f, held)
      modifies this`message, this`got, this`events, this`sent, this`opcode, this`compress, this`expectingFragments,
        Mine()
      ensures Valid() && fresh(Mine() - old(Mine()))
      ensures events == old(events) + es && sent == old(sent) + AnswerBytes(es)
      ensures more ==> failure == Fine && |held| < |was| && Stands(Taking(config, lib), goal, out + es, St(), held)
      ensures !more ==> && goal.failure == failure && goal.events == out + es && goal.rest == held
                        && (failure == Fine ==> goal.st == St())
    {
      Goes(config, lib, goal, out, St(), was, Take(config, lib, St(), f));
      es := Take(config, lib, St(), f).events;
      failure := TakeFrame(f);
      more := failure == Fine;
      if more && buffer.size == 0 {
        Stops(Taking(config, lib), goal, out + es, St(), held);
        more := false;
      }
    }

    // The loop of Read.
    method ReadFrames(ghost goal: Progress) returns (failure: Failure)
      requires Valid() && Stands(Taking(config, lib), goal, [], St(), held)
      modifies this, Repr()
      ensures Valid() && failure == goal.failure && held == goal.rest && (failure == Fine ==> St() == goal.st)
      ensures events == old(events) + goal.events && sent == old(sent) + AnswerBytes(goal.events)
    {
      ghost var out := [];
      NoBytes();
      var more := true;
      failure := Fine;
      while more
        invariant Valid() && (more ==> Stands(Taking(config, lib), goal, out, St(), held))
        invariant !more ==>
                    goal.failure == failure && goal.events == out && goal.rest == held &&
                    (failure == Fine ==> goal.st == St())
        invariant fresh(Repr() - old(Repr()))
        invariant events == old(events) + out && sent == old(sent) + AnswerBytes(out)
        decreases more, |held|
      {
        ghost var es;
        more, failure, es := Turn(goal, out);
        TellMore(old(events), old(sent), out, es);
        out := out + es;
      }
    }

    method Read(data: seq<byte>) returns (failure: Failure)
      requires Valid()
      modifies this, Repr()
      ensures Valid() && Sound(Taking(config, lib))
      ensures var p := ReadResult(Taking(config, lib), readLimit, old(St()), old(held), data);
              && failure == p.failure && held == p.rest && (failure == Fine ==> St() == p.st)
              && events == old(events) + p.events && sent == old(sent) + AnswerBytes(p.events)
    {
      TakingIsSound(config, lib);
      var bufLen, messageSize := buffer.size, if message == null then 0 else message.size;
      if (readLimit > 0 && bufLen + |data| > readLimit) || bufLen + messageSize > readLimit {
        return Failure.Error(ErrTooLarge);
      }
      buffer := buffer.Append(data);
      held := held + data;
      failure := ReadFrames(Begins(Taking(config, lib), St(), held));
    }
  }
}
