// Messages over frames: fragments join, control frames leave no trace, and what one side
// writes the other side is handed, however the bytes travel.

module WsMessages {
  import opened Basics
  import opened Bytes
  import opened WsModel
  import opened WsProofs

  // ------------------------------------------------------------ frames, apart from bytes

  function Run(m: Machine, st: State, fs: seq<Frame>): Effect
    decreases |fs|
  {
    if fs == [] then Effect(st, [], Fine)
    else
      var e := m.take(st, fs[0]);
      if e.failure != Fine then e
      else var later := Run(m, e.st, fs[1..]); later.(events := e.events + later.events)
  }

  lemma {:induction false} RunSplit(m: Machine, st: State, a: seq<Frame>, b: seq<Frame>)
    ensures var e := Run(m, st, a);
            Run(m, st, a + b) ==
              if e.failure != Fine then e else var later := Run(m, e.st, b); later.(events := e.events + later.events)
    decreases |a|
  {
    if a == [] {
      assert a + b == b;
      var e := Run(m, st, b);
      assert [] + e.events == e.events;
    } else {
      assert (a + b)[1..] == a[1..] + b;
      var e := m.take(st, a[0]);
      if e.failure == Fine {
        RunSplit(m, e.st, a[1..], b);
        var mid := Run(m, e.st, a[1..]);
        if mid.failure == Fine {
          var later := Run(m, mid.st, b);
          assert (e.events + mid.events) + later.events == e.events + (mid.events + later.events);
        }
      }
    }
  }

  // A machine that finds frames as the connection does.
  ghost predicate Finds(m: Machine) {
    Sound(m) && forall buf :: m.next(buf) == NextFrame(buf)
  }

  // The bytes of some frames do what the frames do.
  lemma {:induction false} WireRuns(m: Machine, st: State, ss: seq<Sent>)
    requires Finds(m) && forall i :: 0 <= i < |ss| ==> ValidSent(ss[i])
    ensures var p := Feed(m, st, WireAll(ss));
            var e := Run(m, st, FramesOf(ss));
            p.st == e.st && p.events == e.events && p.failure == e.failure && (e.failure == Fine ==> p.rest == [])
    decreases |ss|
  {
    if ss != [] {
      var s := ss[0];
      assert ValidSent(s);
      var later := WireAll(ss[1..]);
      WireIsRead(s.frame, s.form, s.key, later);
      assert m.next(WireAll(ss)) == Got(s.frame, later);
      var e := m.take(st, s.frame);
      assert FramesOf(ss)[1..] == FramesOf(ss[1..]);
      if e.failure == Fine { WireRuns(m, e.st, ss[1..]); }
    }
  }

  // ------------------------------------------------------------ control frames

  // A ping or a pong that the connection puts up with.
  predicate Tame(cfg: Config, f: Frame) {
    && f.fin && !f.res1 && !f.res2 && !f.res3 && |f.body| <= cfg.maxMessageSize
    && (f.opcode == PONG || (f.opcode == PING && |f.body| <= MAX_CONTROL_PAYLOAD))
  }

  function DataOnly(fs: seq<Frame>): seq<Frame> {
    if fs == [] then [] else (if IsData(fs[0].opcode) then [fs[0]] else []) + DataOnly(fs[1..])
  }

  // The answers to the pings.
  function Pongs(fs: seq<Frame>): seq<Event> {
    if fs == [] then []
    else (if fs[0].opcode == PING then [Reply(PONG, fs[0].body)] else []) + Pongs(fs[1..])
  }

  function Replies(es: seq<Event>): seq<Event> {
    if es == [] then [] else (if es[0].Reply? then [es[0]] else []) + Replies(es[1..])
  }

  function Others(es: seq<Event>): seq<Event> {
    if es == [] then [] else (if es[0].Reply? then [] else [es[0]]) + Others(es[1..])
  }

  lemma {:induction false} RepliesJoin(a: seq<Event>, b: seq<Event>)
    ensures Replies(a + b) == Replies(a) + Replies(b)
    decreases |a|
  {
    if a == [] {
      assert a + b == b;
    } else {
      var first := if a[0].Reply? then [a[0]] else [];
      assert (a + b)[1..] == a[1..] + b && Replies(a + b) == first + Replies(a[1..] + b);
      RepliesJoin(a[1..], b);
      Associate(first, Replies(a[1..]), Replies(b));
    }
  }

  lemma {:induction false} OthersJoin(a: seq<Event>, b: seq<Event>)
    ensures Others(a + b) == Others(a) + Others(b)
    decreases |a|
  {
    if a == [] {
      assert a + b == b;
    } else {
      var first := if a[0].Reply? then [] else [a[0]];
      assert (a + b)[1..] == a[1..] + b && Others(a + b) == first + Others(a[1..] + b);
      OthersJoin(a[1..], b);
      Associate(first, Others(a[1..]), Others(b));
    }
  }

  lemma TameLeavesNoTrace(cfg: Config, lib: Lib, st: State, f: Frame)
    requires Tame(cfg, f)
    ensures Take(cfg, lib, st, f) == Effect(st, Pongs([f]), Fine)
  {
    assert [f][1..] == [];
  }

  lemma PongIsReply(f: Frame)
    ensures Replies(Pongs([f])) == Pongs([f]) && Others(Pongs([f])) == []
    ensures Pongs([f]) == if f.opcode == PING then [Reply(PONG, f.body)] else []
  {
    assert [f][1..] == [];
    assert [Reply(PONG, f.body)][1..] == [];
  }

  lemma DataIsNoReply(cfg: Config, lib: Lib, st: State, f: Frame)
    requires IsData(f.opcode)
    ensures var e := Take(cfg, lib, st, f); Others(e.events) == e.events && Replies(e.events) == []
  {
    var e := Take(cfg, lib, st, f);
    assert |e.events| <= 1 && (e.events != [] ==> !e.events[0].Reply?);
    if e.events != [] { assert e.events[1..] == []; }
  }

  // Pings and pongs among the frames of messages change nothing but the answers: the
  // messages, the failure and the state are those of the data frames alone (section 5.4 of RFC 6455).
  lemma {:induction false} ControlLeavesNoTrace(cfg: Config, lib: Lib, st: State, fs: seq<Frame>)
    requires forall f :: f in fs ==> IsData(f.opcode) || Tame(cfg, f)
    ensures var all := Run(Taking(cfg, lib), st, fs);
            var data := Run(Taking(cfg, lib), st, DataOnly(fs));
            && all.st == data.st && all.failure == data.failure && Others(all.events) == data.events
            && (all.failure == Fine ==> Replies(all.events) == Pongs(fs))
    decreases |fs|
  {
    if fs != [] {
      var m, f := Taking(cfg, lib), fs[0];
      var e := m.take(st, f);
      assert e == Take(cfg, lib, st, f);
      var later := Run(m, e.st, fs[1..]);
      RepliesJoin(e.events, later.events);
      OthersJoin(e.events, later.events);
      if IsData(f.opcode) {
        DataIsNoReply(cfg, lib, st, f);
        assert DataOnly(fs) == [f] + DataOnly(fs[1..]) && DataOnly(fs)[1..] == DataOnly(fs[1..]);
      } else {
        assert Tame(cfg, f);
        TameLeavesNoTrace(cfg, lib, st, f);
        PongIsReply(f);
        assert DataOnly(fs) == DataOnly(fs[1..]);
      }
      if e.failure == Fine { ControlLeavesNoTrace(cfg, lib, e.st, fs[1..]); }
    }
  }

  // ------------------------------------------------------------ fragments

  // What becomes of a message, whatever fragments it comes in.
  function Outcome(cfg: Config, lib: Lib, opcode: Opcode, compress: bool, data: seq<byte>): Effect {
    if data != [] && |data| > cfg.maxMessageSize then Effect(IDLE, [], Error(ErrTooLarge))
    else Finish(lib, State(opcode, compress, false, if data == [] then None else Some(data)))
  }

  // Two effects that look the same from outside; after a failure the state does not matter.
  predicate Alike(e: Effect, o: Effect) {
    e.events == o.events && e.failure == o.failure && (e.failure == Fine ==> e.st == o.st)
  }

  predicate IsMessage(cfg: Config, opcode: Opcode, compress: bool) {
    (opcode == TEXT || opcode == BINARY) && (compress ==> cfg.enableCompression)
  }

  // A message in fragments: the first frame has the opcode and says whether the message is
  // compressed, and only the last has the fin bit. What the first reserved bit of the others
  // is does not matter, where compression is allowed at all.
  predicate Fragmented(cfg: Config, fs: seq<Frame>, opcode: Opcode, compress: bool, parts: seq<seq<byte>>) {
    && |fs| == |parts| && (fs != [] ==> fs[0].res1 == compress)
    && forall i :: 0 <= i < |fs| ==>
         && fs[i] == Frame(i == |fs| - 1, fs[i].res1, false, false, if i == 0 then opcode else FRAGMENT, parts[i])
         && (fs[i].res1 ==> cfg.enableCompression)
  }

  // A message of which something has come.
  predicate Begun(cfg: Config, st: State) {
    && IsMessage(cfg, st.opcode, st.compress)
    && st.message != Some([]) && (st.message.Some? ==> |Held(st.message)| <= cfg.maxMessageSize)
  }

  lemma LastFragment(cfg: Config, lib: Lib, st: State, rsv: bool, body: seq<byte>)
    requires Begun(cfg, st) && (rsv ==> cfg.enableCompression)
    ensures Alike(Take(cfg, lib, st, Frame(true, rsv, false, false, FRAGMENT, body)),
                  Outcome(cfg, lib, st.opcode, st.compress, Held(st.message) + body))
  {
    assert body == [] ==> Held(st.message) + body == Held(st.message);
  }

  lemma MiddleFragment(cfg: Config, lib: Lib, st: State, rsv: bool, body: seq<byte>)
    requires Begun(cfg, st) && (rsv ==> cfg.enableCompression)
    ensures var e := Take(cfg, lib, st, Frame(false, rsv, false, false, FRAGMENT, body));
            var data := Held(st.message) + body;
            if data != [] && |data| > cfg.maxMessageSize then e.failure == Error(ErrTooLarge) && e.events == []
            else e == Effect(st.(expecting := true, message := if data == [] then None else Some(data)), [], Fine)
  {
    assert body == [] ==> Held(st.message) + body == Held(st.message);
  }

  // A run whose first frame goes well goes on from there.
  lemma RunFirst(m: Machine, st: State, fs: seq<Frame>)
    requires fs != []
    ensures var e := m.take(st, fs[0]);
            && (fs[1..] == [] || e.failure != Fine ==> Run(m, st, fs) == e)
            && (e.failure == Fine && e.events == [] ==> Run(m, st, fs) == Run(m, e.st, fs[1..]))
  {
    var e, later := m.take(st, fs[0]), Run(m, m.take(st, fs[0]).st, fs[1..]);
    assert [] + later.events == later.events;
    if fs[1..] == [] { assert e.events + [] == e.events; }
  }

  lemma RestFragmented(cfg: Config, fs: seq<Frame>, opcode: Opcode, compress: bool, parts: seq<seq<byte>>)
    requires Fragmented(cfg, fs, opcode, compress, parts) && |parts| > 1
    ensures Fragmented(cfg, fs[1..], FRAGMENT, fs[1].res1, parts[1..])
  {
    forall i | 0 <= i < |fs[1..]|
      ensures var f := fs[1..][i];
              f == Frame(i == |fs[1..]| - 1, f.res1, false, false, FRAGMENT, parts[1..][i]) &&
                (f.res1 ==> cfg.enableCompression)
    {
      assert fs[1..][i] == fs[i + 1];
    }
  }

  // What a whole message comes to that begins with this part.
  lemma FirstPart(held: seq<byte>, parts: seq<seq<byte>>)
    requires parts != []
    ensures held + Concat(parts) == (held + parts[0]) + Concat(parts[1..])
    ensures |parts| == 1 ==> held + Concat(parts) == held + parts[0]
  {
    Associate(held, parts[0], Concat(parts[1..]));
    if |parts| == 1 { assert parts[1..] == []; }
  }

  lemma {:induction false} RestJoins(cfg: Config, lib: Lib, st: State, parts: seq<seq<byte>>, fs: seq<Frame>)
    requires |fs| == |parts| > 0 && Begun(cfg, st) && Fragmented(cfg, fs, FRAGMENT, fs[0].res1, parts)
    ensures Alike(Run(Taking(cfg, lib), st, fs),
            Outcome(cfg, lib, st.opcode, st.compress, Held(st.message) + Concat(parts)))
    decreases |parts|
  {
    var m := Taking(cfg, lib);
    assert m.take(st, fs[0]) == Take(cfg, lib, st, fs[0]);
    RunFirst(m, st, fs);
    FirstPart(Held(st.message), parts);
    if |parts| == 1 {
      LastFragment(cfg, lib, st, fs[0].res1, parts[0]);
    } else {
      var e := m.take(st, fs[0]);
      MiddleFragment(cfg, lib, st, fs[0].res1, parts[0]);
      RestFragmented(cfg, fs, FRAGMENT, fs[0].res1, parts);
      if e.failure == Fine { RestJoins(cfg, lib, e.st, parts[1..], fs[1..]); }
    }
  }

  lemma FirstIsLikeTheRest(cfg: Config, lib: Lib, opcode: Opcode, compress: bool, fin: bool, body: seq<byte>)
    requires IsMessage(cfg, opcode, compress)
    ensures var st := IDLE.(opcode := opcode, compress := compress);
            Alike(Take(cfg, lib, IDLE, Frame(fin, compress, false, false, opcode, body)),
                  Take(cfg, lib, st, Frame(fin, compress, false, false, FRAGMENT, body)))
  {
  }

  // However a message is cut into fragments, what becomes of it depends only on the whole.
  lemma FragmentsJoin(cfg: Config, lib: Lib, opcode: Opcode, compress: bool, parts: seq<seq<byte>>, fs: seq<Frame>)
    requires parts != [] && IsMessage(cfg, opcode, compress) && Fragmented(cfg, fs, opcode, compress, parts)
    ensures Alike(Run(Taking(cfg, lib), IDLE, fs), Outcome(cfg, lib, opcode, compress, Concat(parts)))
  {
    var m, st := Taking(cfg, lib), IDLE.(opcode := opcode, compress := compress);
    var gs := [fs[0].(opcode := FRAGMENT)] + fs[1..];
    FirstIsLikeTheRest(cfg, lib, opcode, compress, |parts| == 1, parts[0]);
    assert m.take(IDLE, fs[0]) == Take(cfg, lib, IDLE, fs[0]) && m.take(st, gs[0]) == Take(cfg, lib, st, gs[0]);
    assert fs[1..] == gs[1..];
    RestJoins(cfg, lib, st, parts, gs);
    assert Held(st.message) + Concat(parts) == Concat(parts);
  }

  // The text of a message of these bytes, if it can be had.
  function TextOf(lib: Lib, compress: bool, data: seq<byte>): Option<seq<byte>> {
    if compress then lib.inflate(data) else Some(data)
  }

  // A message is handed over whole exactly if it is not empty, not too large and can be
  // inflated if it is compressed, and its text is valid if it is a text. An empty one panics
  // exactly if it is a text or compressed.
  lemma DeliveredExactly(cfg: Config, lib: Lib, opcode: Opcode, compress: bool, parts: seq<seq<byte>>, fs: seq<Frame>)
    requires parts != [] && IsMessage(cfg, opcode, compress) && Fragmented(cfg, fs, opcode, compress, parts)
    ensures var e := Run(Taking(cfg, lib), IDLE, fs);
            var data := Concat(parts);
            var text := TextOf(lib, compress, data);
            && (text.Some? && e.events == [Cast(text)] && e.failure == Fine && e.st == IDLE <==>
                data != [] && |data| <= cfg.maxMessageSize && text.Some? && (opcode == TEXT ==> lib.utf8(text.value)))
            && (e.failure == Panic <==> data == [] && (opcode == TEXT || compress))
  {
    FragmentsJoin(cfg, lib, opcode, compress, parts, fs);
  }

  // ------------------------------------------------------------ many messages

  datatype Message = Message(opcode: Opcode, compress: bool, parts: seq<seq<byte>>)

  function Text(lib: Lib, msg: Message): Option<seq<byte>> { TextOf(lib, msg.compress, Concat(msg.parts)) }

  predicate Deliverable(cfg: Config, lib: Lib, msg: Message) {
    && msg.parts != [] && IsMessage(cfg, msg.opcode, msg.compress)
    && Concat(msg.parts) != [] && |Concat(msg.parts)| <= cfg.maxMessageSize
    && Text(lib, msg).Some? && (msg.opcode == TEXT ==> lib.utf8(Text(lib, msg).value))
  }

  // These frames are those messages, one after another.
  predicate AllFragmented(cfg: Config, fs: seq<Frame>, msgs: seq<Message>)
    decreases |msgs|
  {
    if msgs == [] then fs == []
    else
      var n := |msgs[0].parts|;
      n <= |fs| && Fragmented(cfg, fs[..n], msgs[0].opcode, msgs[0].compress, msgs[0].parts) &&
        AllFragmented(cfg, fs[n..], msgs[1..])
  }

  function Casts(lib: Lib, msgs: seq<Message>): seq<Event> {
    if msgs == [] then [] else [Cast(Text(lib, msgs[0]))] + Casts(lib, msgs[1..])
  }

  lemma MessageRuns(cfg: Config, lib: Lib, msg: Message, fs: seq<Frame>)
    requires Deliverable(cfg, lib, msg) && Fragmented(cfg, fs, msg.opcode, msg.compress, msg.parts)
    ensures Run(Taking(cfg, lib), IDLE, fs) == Effect(IDLE, [Cast(Text(lib, msg))], Fine)
  {
    FragmentsJoin(cfg, lib, msg.opcode, msg.compress, msg.parts, fs);
    assert Outcome(cfg, lib, msg.opcode, msg.compress, Concat(msg.parts)) == Effect(IDLE, [Cast(Text(lib, msg))], Fine);
  }

  lemma RunsJoin(m: Machine, fs: seq<Frame>, n: nat, first: seq<Event>, later: seq<Event>)
    requires n <= |fs| && Run(m, IDLE, fs[..n]) == Effect(IDLE, first, Fine) &&
             Run(m, IDLE, fs[n..]) == Effect(IDLE, later, Fine)
    ensures Run(m, IDLE, fs) == Effect(IDLE, first + later, Fine)
  {
    assert fs == fs[..n] + fs[n..];
    RunSplit(m, IDLE, fs[..n], fs[n..]);
  }

  lemma {:induction false} MessagesJoin(cfg: Config, lib: Lib, msgs: seq<Message>, fs: seq<Frame>)
    requires (forall i :: 0 <= i < |msgs| ==> Deliverable(cfg, lib, msgs[i])) && AllFragmented(cfg, fs, msgs)
    ensures Run(Taking(cfg, lib), IDLE, fs) == Effect(IDLE, Casts(lib, msgs), Fine)
    decreases |msgs|
  {
    if msgs != [] {
      var msg, n := msgs[0], |msgs[0].parts|;
      assert Deliverable(cfg, lib, msg);
      MessageRuns(cfg, lib, msg, fs[..n]);
      MessagesJoin(cfg, lib, msgs[1..], fs[n..]);
      RunsJoin(Taking(cfg, lib), fs, n, [Cast(Text(lib, msg))], Casts(lib, msgs[1..]));
    }
  }

  // Messages, in any fragments, with pings and pongs anywhere among them, each frame in any
  // form and under any key, the bytes cut anyhow within the limit: the messages are handed
  // over in order, the pings are answered in order, and nothing is left.
  lemma StreamIsDelivered(cfg: Config, lib: Lib, limit: int, msgs: seq<Message>, ss: seq<Sent>, chunks: seq<seq<byte>>)
    requires forall i :: 0 <= i < |msgs| ==> Deliverable(cfg, lib, msgs[i])
    requires forall i :: 0 <= i < |ss| ==> ValidSent(ss[i])
    requires (forall f :: f in FramesOf(ss) ==> IsData(f.opcode) || Tame(cfg, f)) &&
             AllFragmented(cfg, DataOnly(FramesOf(ss)), msgs)
    requires Concat(chunks) == WireAll(ss)
    requires |WireAll(ss)| <= limit ||
             (Sound(Taking(cfg, lib)) && NoneRefused(Taking(cfg, lib), limit, IDLE, [], chunks))
    ensures Sound(Taking(cfg, lib))
    ensures var p := ReadAll(Taking(cfg, lib), limit, IDLE, [], chunks);
            && p.failure == Fine && p.st == IDLE && p.rest == []
            && Others(p.events) == Casts(lib, msgs) && Replies(p.events) == Pongs(FramesOf(ss))
  {
    var m := Taking(cfg, lib);
    TakingIsSound(cfg, lib);
    TakingIsModest(cfg, lib);
    assert Finds(m) && m.next([]).Wait?;
    if |WireAll(ss)| <= limit { SmallIsNotRefused(m, limit, IDLE, [], chunks); }
    ChunksDoNotMatter(m, limit, IDLE, [], chunks);
    assert [] + Concat(chunks) == WireAll(ss);
    WireRuns(m, IDLE, ss);
    ControlLeavesNoTrace(cfg, lib, IDLE, FramesOf(ss));
    MessagesJoin(cfg, lib, msgs, DataOnly(FramesOf(ss)));
  }

  // ------------------------------------------------------------ limits

  // A frame adds no more to the message than its body.
  ghost predicate Modest(m: Machine) {
    forall st, f :: |Held(m.take(st, f).st.message)| <= |Held(st.message)| + |f.body|
  }

  lemma TakingIsModest(cfg: Config, lib: Lib)
    ensures Modest(Taking(cfg, lib))
  {
    forall st, f
      ensures |Held(Taking(cfg, lib).take(st, f).st.message)| <= |Held(st.message)| + |f.body|
    {
      assert Taking(cfg, lib).take(st, f) == Take(cfg, lib, st, f);
    }
  }

  lemma FrameHasRoom(buf: seq<byte>)
    requires NextFrame(buf).Got?
    ensures |NextFrame(buf).frame.body| + |NextFrame(buf).rest| <= |buf|
  {
  }

  lemma {:induction false} FeedIsModest(m: Machine, st: State, buf: seq<byte>)
    requires Finds(m) && Modest(m)
    ensures var p := Feed(m, st, buf); |Held(p.st.message)| + |p.rest| <= |Held(st.message)| + |buf|
    decreases |buf|
  {
    assert Stays(m, buf, []) && m.next(buf) == NextFrame(buf);
    var next := m.next(buf);
    if next.Got? {
      FrameHasRoom(buf);
      FeedIsModest(m, m.take(st, next.frame).st, next.rest);
    }
  }

  // A stream that fits the limit as a whole is never refused.
  lemma {:induction false} SmallIsNotRefused(m: Machine, limit: int, st: State, buf: seq<byte>, chunks: seq<seq<byte>>)
    requires Finds(m) && Modest(m) && |Held(st.message)| + |buf| + |Concat(chunks)| <= limit
    ensures NoneRefused(m, limit, st, buf, chunks)
    decreases |chunks|
  {
    if chunks != [] {
      var p := Feed(m, st, buf + chunks[0]);
      FeedIsModest(m, st, buf + chunks[0]);
      if p.failure == Fine { SmallIsNotRefused(m, limit, p.st, p.rest, chunks[1..]); }
    }
  }

  // A connection takes a frame only if the message does not get larger than it may be.
  ghost predicate Bounds(m: Machine, most: int) {
    forall st: State, f :: |Held(st.message)| <= most && m.take(st, f).failure == Fine ==>
                      |Held(m.take(st, f).st.message)| <= most
  }

  lemma TakingBounds(cfg: Config, lib: Lib)
    requires cfg.maxMessageSize >= 0
    ensures Bounds(Taking(cfg, lib), cfg.maxMessageSize)
  {
    var m := Taking(cfg, lib);
    forall st: State, f | |Held(st.message)| <= cfg.maxMessageSize && m.take(st, f).failure == Fine
      ensures |Held(m.take(st, f).st.message)| <= cfg.maxMessageSize
    {
      assert m.take(st, f) == Take(cfg, lib, st, f);
    }
  }

  lemma {:induction false} FeedIsBounded(m: Machine, st: State, buf: seq<byte>, most: int)
    requires Sound(m) && Bounds(m, most) && |Held(st.message)| <= most && Feed(m, st, buf).failure == Fine
    ensures |Held(Feed(m, st, buf).st.message)| <= most && |Feed(m, st, buf).rest| <= |buf|
    decreases |buf|
  {
    assert Stays(m, buf, []);
    var next := m.next(buf);
    if next.Got? { FeedIsBounded(m, m.take(st, next.frame).st, next.rest, most); }
  }

  lemma {:induction false} ReadsAreBounded(m: Machine, limit: int, most: int, st: State, buf: seq<byte>,
                                           chunks: seq<seq<byte>>)
    requires Sound(m) && Bounds(m, most) && |Held(st.message)| <= most && 0 < limit && |buf| <= limit
    requires ReadAll(m, limit, st, buf, chunks).failure == Fine
    ensures var p := ReadAll(m, limit, st, buf, chunks); |p.rest| <= limit && |Held(p.st.message)| <= most
    decreases |chunks|
  {
    if chunks != [] {
      var p := ReadResult(m, limit, st, buf, chunks[0]);
      FeedIsBounded(m, st, buf + chunks[0], most);
      ReadsAreBounded(m, limit, most, p.st, p.rest, chunks[1..]);
    }
  }

  // Between reads a connection never holds more bytes than its limit, nor a message that is
  // larger than a message may be.
  lemma HeldIsBounded(cfg: Config, lib: Lib, limit: int, st: State, buf: seq<byte>, chunks: seq<seq<byte>>)
    requires 0 < limit && |buf| <= limit && |Held(st.message)| <= cfg.maxMessageSize
    ensures Sound(Taking(cfg, lib))
    ensures var p := ReadAll(Taking(cfg, lib), limit, st, buf, chunks);
            p.failure == Fine ==> |p.rest| <= limit && |Held(p.st.message)| <= cfg.maxMessageSize
  {
    TakingIsSound(cfg, lib);
    TakingBounds(cfg, lib);
    if ReadAll(Taking(cfg, lib), limit, st, buf, chunks).failure == Fine {
      ReadsAreBounded(Taking(cfg, lib), limit, cfg.maxMessageSize, st, buf, chunks);
    }
  }

  // ------------------------------------------------------------ what WriteMessage sends

  lemma {:induction false} CutJoins(data: seq<byte>)
    ensures Concat(Cut(data)) == data
    decreases |data|
  {
    if |data| > MAX_FRAME_PAYLOAD {
      CutJoins(data[MAX_FRAME_PAYLOAD..]);
      var parts := Cut(data);
      assert parts[0] == data[..MAX_FRAME_PAYLOAD] && parts[1..] == Cut(data[MAX_FRAME_PAYLOAD..]);
    } else {
      assert [data][1..] == [];
    }
  }

  // The bytes of WriteMessage.
  function Written(opcode: Opcode, compress: bool, data: seq<byte>): seq<byte> {
    FitsAll(opcode, compress, Cut(data));
    WireAll(AsWritten(Fragments(opcode, compress, Cut(data))))
  }

  lemma {:induction false} FitsAll(opcode: Opcode, compress: bool, parts: seq<seq<byte>>)
    requires forall i :: 0 <= i < |parts| ==> |parts[i]| <= MAX_FRAME_PAYLOAD
    ensures var fs := Fragments(opcode, compress, parts);
            |fs| == |parts| && forall i :: 0 <= i < |fs| ==>
              |fs[i].body| <= MAX_FRAME_PAYLOAD && IsData(fs[i].opcode) == (i > 0 || IsData(opcode))
    decreases |parts|
  {
    if parts != [] { FitsAll(FRAGMENT, compress, parts[1..]); }
  }

  lemma {:induction false} FragmentsAre(opcode: Opcode, compress: bool, parts: seq<seq<byte>>)
    ensures var fs := Fragments(opcode, compress, parts);
            |fs| == |parts| && forall i :: 0 <= i < |fs| ==>
              fs[i] == Frame(i == |fs| - 1, compress, false, false, if i == 0 then opcode else FRAGMENT, parts[i])
    decreases |parts|
  {
    if parts != [] {
      FragmentsAre(FRAGMENT, compress, parts[1..]);
      var fs := Fragments(opcode, compress, parts);
      assert fs[1..] == Fragments(FRAGMENT, compress, parts[1..]);
      forall i | 0 < i < |fs|
        ensures fs[i] == Frame(i == |fs| - 1, compress, false, false, FRAGMENT, parts[i])
      {
        assert fs[i] == fs[1..][i - 1];
      }
    }
  }

  lemma WrittenRuns(cfg: Config, lib: Lib, opcode: Opcode, compress: bool, data: seq<byte>)
    requires Deliverable(cfg, lib, Message(opcode, compress, [data]))
    ensures Run(Taking(cfg, lib), IDLE, Fragments(opcode, compress, Cut(data)))
         == Effect(IDLE, [Cast(TextOf(lib, compress, data))], Fine)
  {
    assert Concat([data]) == data by { assert [data][1..] == []; }
    CutJoins(data);
    FragmentsAre(opcode, compress, Cut(data));
    MessageRuns(cfg, lib, Message(opcode, compress, Cut(data)), Fragments(opcode, compress, Cut(data)));
  }

  // What WriteMessage writes of `data`, the message or what it was compressed to, is read as
  // that message, however the network cuts it: nothing else happens, and the connection is idle again.
  lemma WrittenIsRead(cfg: Config, lib: Lib, limit: int, opcode: Opcode, compress: bool, data: seq<byte>,
                      chunks: seq<seq<byte>>)
    requires Deliverable(cfg, lib, Message(opcode, compress, [data]))
    requires Concat(chunks) == Written(opcode, compress, data)
    requires |Written(opcode, compress, data)| <= limit ||
             (Sound(Taking(cfg, lib)) && NoneRefused(Taking(cfg, lib), limit, IDLE, [], chunks))
    ensures Sound(Taking(cfg, lib))
    ensures ReadAll(Taking(cfg, lib), limit, IDLE, [], chunks)
         == Progress(IDLE, [], [Cast(TextOf(lib, compress, data))], Fine)
  {
    var m, fs := Taking(cfg, lib), Fragments(opcode, compress, Cut(data));
    TakingIsSound(cfg, lib);
    TakingIsModest(cfg, lib);
    FitsAll(opcode, compress, Cut(data));
    assert Finds(m) && m.next([]).Wait?;
    assert [] + Concat(chunks) == Written(opcode, compress, data);
    if |Written(opcode, compress, data)| <= limit { SmallIsNotRefused(m, limit, IDLE, [], chunks); }
    ChunksDoNotMatter(m, limit, IDLE, [], chunks);
    WireRuns(m, IDLE, AsWritten(fs));
    WrittenRuns(cfg, lib, opcode, compress, data);
  }

  // The frames that WriteMessage makes have the first reserved bit set on all fragments of a
  // compressed message. They are as section 6 of RFC 7692 has them, set on none but the first,
  // if and only if the message is not compressed or what it was compressed to is one fragment.
  lemma BitsAsDemandedExactly(opcode: Opcode, compress: bool, data: seq<byte>)
    ensures var fs := Fragments(opcode, compress, Cut(data));
            (forall i :: 0 < i < |fs| ==> !fs[i].res1) <==> !compress || |data| <= MAX_FRAME_PAYLOAD
  {
    var fs := Fragments(opcode, compress, Cut(data));
    FragmentsAre(opcode, compress, Cut(data));
    assert |data| > MAX_FRAME_PAYLOAD ==> |Cut(data)| > 1 && fs[1].res1 == compress;
  }
}
