// WebSocket frames and messages (httpd/websocket/conn.go), on values: how a frame is laid
// out, what one frame does to a connection, and what a stream of bytes does.

module WsModel {
  import opened Arith
  import opened Basics
  import opened Bytes

  // ------------------------------------------------------------ masks

  // The exclusive or of two bytes, bit by bit.
  function XorBits(k: nat, a: nat, b: nat): (r: nat)
    ensures r < Pow2(k)
  {
    if k == 0 then 0 else 2 * XorBits(k - 1, a / 2, b / 2) + (a % 2 + b % 2) % 2
  }

  function Xor(a: byte, b: byte): byte
  {
    assert Pow2(8) == 256;
    XorBits(8, a, b)
  }

  // A key repeated over the data.
  function Masked(key: seq<byte>, data: seq<byte>): (s: seq<byte>)
    requires |key| == 4
  {
    seq(|data|, i requires 0 <= i < |data| => Xor(data[i], key[i % 4]))
  }

  // ------------------------------------------------------------ frames

  type Opcode = o: int | 0 <= o < 16 witness 0

  const FRAGMENT: Opcode := 0
  const TEXT: Opcode := 1
  const BINARY: Opcode := 2
  const CLOSE: Opcode := 8
  const PING: Opcode := 9
  const PONG: Opcode := 10

  const MAX_FRAME_PAYLOAD := 16 * 1024
  const MAX_CONTROL_PAYLOAD := 125
  const MAX_INT64 := 0x7fff_ffff_ffff_ffff

  datatype Frame = Frame(fin: bool, res1: bool, res2: bool, res3: bool, opcode: Opcode, body: seq<byte>)

  function Flag(on: bool, bit: nat): nat { if on then bit else 0 }

  function FirstByte(f: Frame): (b: byte)
  {
    Flag(f.fin, 128) + Flag(f.res1, 64) + Flag(f.res2, 32) + Flag(f.res3, 16) + f.opcode
  }

  // How the length of a body is written: in seven bits, in two bytes, or in eight.
  datatype Form = Short | Medium | Long

  predicate Fits(form: Form, n: nat) {
    match form
    case Short => n < 126
    case Medium => n < 65536
    case Long => n <= MAX_INT64 - 14
  }

  function LengthBytes(form: Form, n: nat, masked: bool): seq<byte>
    requires Fits(form, n)
  {
    match form
    case Short => [n + Flag(masked, 128)]
    case Medium => [126 + Flag(masked, 128)] + ToBE(2, n)
    case Long => [127 + Flag(masked, 128)] + ToBE(8, n)
  }

  predicate ValidKey(key: Option<seq<byte>>) { key.Some? ==> |key.value| == 4 }

  // A frame on the wire (section 5.2 of RFC 6455), masked or not.
  function Wire(f: Frame, form: Form, key: Option<seq<byte>>): seq<byte>
    requires Fits(form, |f.body|) && ValidKey(key)
  {
    [FirstByte(f)] + (LengthBytes(form, |f.body|, key.Some?) +
      (if key.Some? then key.value + Masked(key.value, f.body) else f.body))
  }

  datatype Next = Wait | Crash | Got(frame: Frame, rest: seq<byte>)

  function AsInt64(n: nat): int
    requires n < 0x1_0000_0000_0000_0000
  {
    if n <= MAX_INT64 then n else n - 0x1_0000_0000_0000_0000
  }

  lemma EightBytes()
    ensures Pow256(8) == 0x1_0000_0000_0000_0000 && Pow256(2) == 65536
  {
    assert Pow256(4) == 0x1_0000_0000;
  }

  // The length of the body, or a negative number when it is not there or has the top bit set.
  function BodyLength(buf: seq<byte>): int
    requires |buf| >= 2
  {
    var n := buf[1] % 128;
    if n == 126 then (if |buf| >= 4 then FromBE(buf[2..4]) else -1)
    else if n == 127 then
      (if |buf| >= 10 then EightBytes(); AsInt64(FromBE(buf[2..10])) else -1)
    else n
  }

  function HeadLength(buf: seq<byte>): (n: nat)
    requires |buf| >= 2
    ensures 2 <= n <= 14
  {
    var n := buf[1] % 128;
    (if n == 126 then 4 else if n == 127 then 10 else 2) + (if buf[1] >= 128 then 4 else 0)
  }

  function Unmasked(buf: seq<byte>, head: nat, total: nat): seq<byte>
    requires 2 <= head <= total <= |buf| && (buf[1] >= 128 ==> head >= 4)
  {
    if buf[1] >= 128 then Masked(buf[head - 4..head], buf[head..total]) else buf[head..total]
  }

  function FrameOf(buf: seq<byte>, head: nat, total: nat): Frame
    requires 2 <= head <= total <= |buf| && (buf[1] >= 128 ==> head >= 4)
  {
    var b := buf[0];
    Frame(b >= 128, b / 64 % 2 == 1, b / 32 % 2 == 1, b / 16 % 2 == 1, b % 16, Unmasked(buf, head, total))
  }

  // nextFrame: the first frame of the buffer. A length that makes the end of the frame
  // overflow crashes; one with the top bit set waits for ever.
  function NextFrame(buf: seq<byte>): Next {
    if |buf| < 2 then Wait
    else
      var n, head := BodyLength(buf), HeadLength(buf);
      if n < 0 then Wait
      else if head + n > MAX_INT64 then Crash
      else if |buf| < head + n then Wait
      else Got(FrameOf(buf, head, head + n), buf[head + n..])
  }

  // ------------------------------------------------------------ one frame

  // Library functions the connection calls; nothing is assumed of them.
  datatype Lib = Lib(
    utf8: seq<byte> -> bool,
    inflate: seq<byte> -> Option<seq<byte>>,
    deflate: seq<byte> -> Option<seq<byte>>)

  datatype Config = Config(maxMessageSize: int, enableCompression: bool)

  datatype State = State(opcode: Opcode, compress: bool, expecting: bool, message: Option<seq<byte>>)

  const IDLE := State(0, false, false, None)

  // What a connection does: hand a message over, answer, close.
  datatype Event = Cast(message: Option<seq<byte>>) | Reply(opcode: Opcode, data: seq<byte>) | Closed

  datatype Error = ErrReserveBit | ErrReservedOpcode | ErrControlFragmented | ErrNotAFragment | ErrTooLarge | ErrInflate

  datatype Failure = Fine | Error(error: Error) | Panic

  datatype Effect = Effect(st: State, events: seq<Event>, failure: Failure)

  predicate IsData(opcode: Opcode) { opcode <= 2 }

  // validFrame
  function FrameError(cfg: Config, f: Frame, expecting: bool): Option<Error> {
    if f.res1 && !cfg.enableCompression then Some(ErrReserveBit)
    else if f.res2 || f.res3 then Some(ErrReserveBit)
    else if BINARY < f.opcode < CLOSE then Some(ErrReservedOpcode)
    else if !f.fin && !IsData(f.opcode) then Some(ErrControlFragmented)
    else if expecting && (f.opcode == TEXT || f.opcode == BINARY) then Some(ErrNotAFragment)
    else None
  }

  predicate ValidCloseCode(code: int) {
    code in {1000, 1001, 1002, 1003, 1007, 1008, 1009, 1010, 1011, 1015} || 3000 <= code < 5000
  }

  // handleMessage: a text that is not there crashes, one that is not UTF-8 closes.
  function Handle(lib: Lib, opcode: Opcode, message: Option<seq<byte>>): Effect {
    if opcode == TEXT && message == None then Effect(IDLE, [], Panic)
    else if opcode == TEXT && !lib.utf8(message.value) then Effect(IDLE, [Closed], Fine)
    else Effect(IDLE, [Cast(message)], Fine)
  }

  // The last fragment has come.
  function Finish(lib: Lib, st: State): Effect {
    if !st.compress then Handle(lib, st.opcode, st.message)
    else if st.message == None then Effect(st, [], Panic)
    else
      var text := lib.inflate(st.message.value);
      if text == None then Effect(st, [], Error(ErrInflate)) else Handle(lib, st.opcode, text)
  }

  function Held(message: Option<seq<byte>>): seq<byte> { if message.Some? then message.value else [] }

  function Extended(message: Option<seq<byte>>, body: seq<byte>): Option<seq<byte>> {
    if body == [] then message else Some(Held(message) + body)
  }

  function TakeData(cfg: Config, lib: Lib, st: State, f: Frame): Effect {
    var st1 := if st.opcode == 0 then st.(opcode := f.opcode, compress := f.res1) else st;
    var st2 := st1.(message := Extended(st1.message, f.body));
    if f.body != [] && |Held(st2.message)| > cfg.maxMessageSize then
      Effect(if st1.message == None then st2 else st1, [], Error(ErrTooLarge))
    else if f.fin then Finish(lib, st2)
    else Effect(st2.(expecting := true), [], Fine)
  }

  // handleWsMessage for a close frame
  function CloseReply(lib: Lib, data: seq<byte>): seq<Event> {
    if |data| < 2 then [Reply(CLOSE, []), Closed]
    else if !ValidCloseCode(FromBE(data[..2])) || !lib.utf8(data[2..]) then [Reply(CLOSE, ToBE(2, 1002)), Closed]
    else if |data| > MAX_CONTROL_PAYLOAD then [Closed]
    else [Reply(CLOSE, data), Closed]
  }

  function ControlEvents(lib: Lib, f: Frame): seq<Event> {
    if f.opcode == CLOSE then CloseReply(lib, f.body)
    else if f.opcode == PING then
      (if |f.body| > MAX_CONTROL_PAYLOAD then [Closed] else [Reply(PONG, f.body)])
    else if f.opcode == PONG then []
    else [Closed]
  }

  function TakeControl(cfg: Config, lib: Lib, st: State, f: Frame): Effect {
    if f.body != [] && |f.body| > cfg.maxMessageSize then Effect(st, [], Error(ErrTooLarge))
    else Effect(st, ControlEvents(lib, f), Fine)
  }

  // One turn of the loop of Read.
  function Take(cfg: Config, lib: Lib, st: State, f: Frame): Effect {
    var e := FrameError(cfg, f, st.expecting);
    if e.Some? then Effect(st, [], Error(e.value))
    else if IsData(f.opcode) then TakeData(cfg, lib, st, f)
    else TakeControl(cfg, lib, st, f)
  }

  // ------------------------------------------------------------ a stream

  datatype Progress = Progress(st: State, rest: seq<byte>, events: seq<Event>, failure: Failure)

  function Before(events: seq<Event>, p: Progress): Progress { p.(events := events + p.events) }

  // A connection as a machine that finds one frame at a time and takes it.
  datatype Machine = Machine(next: seq<byte> -> Next, take: (State, Frame) -> Effect)

  function Taking(cfg: Config, lib: Lib): Machine {
    Machine(buf => NextFrame(buf), (st, f) => Take(cfg, lib, st, f))
  }

  // A frame, once it is there, is not changed by what follows, and takes some bytes.
  ghost predicate Stays(m: Machine, a: seq<byte>, b: seq<byte>) {
    && (m.next(a).Crash? ==> m.next(a + b).Crash?)
    && (m.next(a).Got? ==>
          |m.next(a).rest| < |a| && m.next(a + b) == Got(m.next(a).frame, m.next(a).rest + b))
  }

  ghost predicate Sound(m: Machine) {
    forall a, b :: Stays(m, a, b)
  }

  // Every whole frame of the buffer is taken, until one fails.
  ghost function Feed(m: Machine, st: State, buf: seq<byte>): Progress
    requires Sound(m)
    decreases |buf|
  {
    match m.next(buf)
    case Wait => Progress(st, buf, [], Fine)
    case Crash => Progress(st, buf, [], Panic)
    case Got(f, rest) =>
      assert Stays(m, buf, []);
      var e := m.take(st, f);
      if e.failure != Fine then Progress(e.st, rest, e.events, e.failure)
      else Before(e.events, Feed(m, e.st, rest))
  }

  // The guard of Read, as it is written: `a && b || c`.
  predicate Refused(limit: int, st: State, buf: seq<byte>, data: seq<byte>) {
    (limit > 0 && |buf| + |data| > limit) || |buf| + |Held(st.message)| > limit
  }

  ghost function ReadResult(m: Machine, limit: int, st: State, buf: seq<byte>, data: seq<byte>): Progress
    requires Sound(m)
  {
    if Refused(limit, st, buf, data) then Progress(st, buf, [], Error(ErrTooLarge))
    else Feed(m, st, buf + data)
  }

  // ------------------------------------------------------------ writing

  function FormFor(n: nat): Form
  {
    if n < 126 then Short else if n <= 65535 then Medium else Long
  }

  // The pieces WriteMessage cuts a message into.
  function Cut(data: seq<byte>): (parts: seq<seq<byte>>)
    ensures parts != [] && forall i :: 0 <= i < |parts| ==> |parts[i]| <= MAX_FRAME_PAYLOAD
    decreases |data|
  {
    if |data| <= MAX_FRAME_PAYLOAD then [data]
    else [data[..MAX_FRAME_PAYLOAD]] + Cut(data[MAX_FRAME_PAYLOAD..])
  }

  // A message in fragments: the first has the opcode, and only the last has the fin bit.
  function Fragments(opcode: Opcode, compress: bool, parts: seq<seq<byte>>): seq<Frame>
    decreases |parts|
  {
    if parts == [] then []
    else [Frame(|parts| == 1, compress, false, false, opcode, parts[0])] + Fragments(FRAGMENT, compress, parts[1..])
  }

  // A frame and how it is sent.
  datatype Sent = Sent(frame: Frame, form: Form, key: Option<seq<byte>>)

  predicate ValidSent(s: Sent) { ValidKey(s.key) && Fits(s.form, |s.frame.body|) }

  function WireAll(ss: seq<Sent>): seq<byte>
    requires forall i :: 0 <= i < |ss| ==> ValidSent(ss[i])
  {
    if ss == [] then []
    else
      assert ValidSent(ss[0]);
      Wire(ss[0].frame, ss[0].form, ss[0].key) + WireAll(ss[1..])
  }

  function FramesOf(ss: seq<Sent>): (fs: seq<Frame>)
    ensures |fs| == |ss|
  {
    if ss == [] then [] else [ss[0].frame] + FramesOf(ss[1..])
  }

  // As writeFrame sends them: unmasked, in the shortest form.
  function AsWritten(fs: seq<Frame>): (ss: seq<Sent>)
    requires forall i :: 0 <= i < |fs| ==> |fs[i].body| <= MAX_INT64 - 14
    ensures FramesOf(ss) == fs && forall i :: 0 <= i < |ss| ==> ValidSent(ss[i])
  {
    if fs == [] then [] else [Sent(fs[0], FormFor(|fs[0].body|), None)] + AsWritten(fs[1..])
  }
}
