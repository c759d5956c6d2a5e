// Which frames a connection accepts, and how it answers a close frame on the wire.

module WsControl {
  import opened Basics
  import opened Bytes
  import opened WsModel
  import opened WsProofs
  import opened WsMessages

  // ------------------------------------------------------------ which frames are accepted

  // Reserved bits that are set only as far as an extension takes them (section 5.2 of RFC 6455).
  predicate BitsFine(cfg: Config, f: Frame) { !f.res2 && !f.res3 && (f.res1 ==> cfg.enableCompression) }

  // A frame that the protocol allows next: section 5.4 of RFC 6455 says how fragments follow
  // one another, and section 5.5 what control frames are like.
  predicate Lawful(cfg: Config, f: Frame, expecting: bool) {
    && BitsFine(cfg, f)
    && if f.opcode in {CLOSE, PING, PONG} then f.fin && |f.body| <= 125
       else f.opcode in (if expecting then {FRAGMENT} else {TEXT, BINARY})
  }

  // Frames that the connection takes although the protocol does not allow them: a fragment of
  // no message, a control frame that is too long, and a control frame of no known kind.
  predicate PutUpWith(cfg: Config, f: Frame, expecting: bool) {
    && BitsFine(cfg, f)
    && ((f.opcode == FRAGMENT && !expecting)
        || (f.fin && f.opcode in {CLOSE, PING, PONG} && |f.body| > 125)
        || (f.fin && f.opcode in {11, 12, 13, 14, 15}))
  }

  lemma AcceptedExactly(cfg: Config, f: Frame, expecting: bool)
    ensures FrameError(cfg, f, expecting) == None <==> Lawful(cfg, f, expecting) || PutUpWith(cfg, f, expecting)
    ensures !(Lawful(cfg, f, expecting) && PutUpWith(cfg, f, expecting))
    ensures FrameError(cfg, f, expecting) == Some(ErrReserveBit) <==> !BitsFine(cfg, f)
    ensures BitsFine(cfg, f) && f.opcode in {3, 4, 5, 6, 7} <==>
            FrameError(cfg, f, expecting) == Some(ErrReservedOpcode)
    ensures FrameError(cfg, f, expecting) == Some(ErrNotAFragment) ==> expecting
  {
  }

  // A frame that is accepted fails only for what it would make of the message: a control frame
  // exactly if its body is larger than a message may be.
  lemma ControlFailsExactly(cfg: Config, lib: Lib, st: State, f: Frame)
    requires FrameError(cfg, f, st.expecting) == None && !IsData(f.opcode)
    ensures Take(cfg, lib, st, f).st == st
    ensures Take(cfg, lib, st, f).failure != Fine <==> f.body != [] && |f.body| > cfg.maxMessageSize
  {
  }

  // A fragment of no message is handed over as a message of neither kind.
  lemma StrayIsHandedOver(cfg: Config, lib: Lib, body: seq<byte>)
    requires 0 < |body| <= cfg.maxMessageSize
    ensures Take(cfg, lib, IDLE, Frame(true, false, false, false, FRAGMENT, body))
            == Effect(IDLE, [Cast(Some(body))], Fine)
  {
    assert [] + body == body;
  }

  // ------------------------------------------------------------ close frames

  // The codes that may be sent in a close frame (section 7.4 of RFC 6455, and 1015).
  predicate CodeFine(code: int) {
    1000 <= code <= 1003 || 1007 <= code <= 1011 || code == 1015 || 3000 <= code <= 4999
  }

  function CloseFrame(body: seq<byte>): Frame { Frame(true, false, false, false, CLOSE, body) }

  lemma CodeIsRead(code: int, text: seq<byte>)
    requires 0 <= code < 65536
    ensures var data := ToBE(2, code) + text; |data| == 2 + |text| && FromBE(data[..2]) == code && data[2..] == text
  {
    var data := ToBE(2, code) + text;
    EightBytes();
    FitsBE(2, code);
    assert data[..2] == ToBE(2, code);
  }

  // What a close frame on the wire comes to, masked or not and with its length in any form.
  lemma CloseRuns(cfg: Config, lib: Lib, st: State, body: seq<byte>, form: Form, key: Option<seq<byte>>)
    requires |body| <= cfg.maxMessageSize && Fits(form, |body|) && ValidKey(key)
    ensures Sound(Taking(cfg, lib))
    ensures var p := Feed(Taking(cfg, lib), st, Wire(CloseFrame(body), form, key));
            p == Progress(st, [], CloseReply(lib, body), Fine)
  {
    var m, f := Taking(cfg, lib), CloseFrame(body);
    TakingIsSound(cfg, lib);
    WireIsRead(f, form, key, []);
    var wire := Wire(f, form, key);
    assert wire + [] == wire;
    assert m.next(wire) == Got(f, []) && m.next([]).Wait?;
    assert m.take(st, f) == Effect(st, CloseReply(lib, body), Fine);
    assert Feed(m, st, []) == Progress(st, [], [], Fine);
    assert CloseReply(lib, body) + [] == CloseReply(lib, body);
  }

  function CloseBody(code: int, text: seq<byte>): (body: seq<byte>)
    ensures |body| == 2 + |text|
  {
    ToBE(2, code) + text
  }

  // The answer to a close frame with a code: the same code and text if the code may be sent and
  // the text is UTF-8, and 1002 if not; one that is too long is not answered. The connection is
  // closed after each.
  lemma AnswerIs(lib: Lib, code: int, text: seq<byte>)
    requires 0 <= code < 65536
    ensures CloseReply(lib, CloseBody(code, text)) ==
            if !CodeFine(code) || !lib.utf8(text) then [Reply(CLOSE, [3, 234]), Closed]
            else if |text| > 123 then [Closed]
            else [Reply(CLOSE, CloseBody(code, text)), Closed]
  {
    CodeIsRead(code, text);
    TwoBytes(1002);
  }

  lemma CloseIsAnswered(cfg: Config, lib: Lib, st: State, code: int, text: seq<byte>, form: Form,
                        key: Option<seq<byte>>)
    requires 0 <= code < 65536 && 2 + |text| <= cfg.maxMessageSize && Fits(form, 2 + |text|) && ValidKey(key)
    ensures Sound(Taking(cfg, lib))
    ensures Feed(Taking(cfg, lib), st, Wire(CloseFrame(CloseBody(code, text)), form, key)) ==
            Progress(st, [], if !CodeFine(code) || !lib.utf8(text) then [Reply(CLOSE, [3, 234]), Closed]
                             else if |text| > 123 then [Closed]
                             else [Reply(CLOSE, CloseBody(code, text)), Closed], Fine)
  {
    CloseRuns(cfg, lib, st, CloseBody(code, text), form, key);
    AnswerIs(lib, code, text);
  }

  // Without a code it is answered with an empty one.
  lemma BareCloseIsAnswered(cfg: Config, lib: Lib, st: State, body: seq<byte>, form: Form, key: Option<seq<byte>>)
    requires |body| < 2 && |body| <= cfg.maxMessageSize && Fits(form, |body|) && ValidKey(key)
    ensures Sound(Taking(cfg, lib))
    ensures Feed(Taking(cfg, lib), st, Wire(CloseFrame(body), form, key))
         == Progress(st, [], [Reply(CLOSE, []), Closed], Fine)
  {
    CloseRuns(cfg, lib, st, body, form, key);
  }

  // What the connection answers is a close frame that it would itself take for one that is fine.
  lemma AnswerIsFine(lib: Lib, body: seq<byte>, answer: seq<byte>)
    requires Reply(CLOSE, answer) in CloseReply(lib, body) && lib.utf8([])
    ensures CloseReply(lib, answer) == [Reply(CLOSE, answer), Closed]
  {
    if answer == ToBE(2, 1002) {
      CodeIsRead(1002, []);
      assert ToBE(2, 1002) + [] == answer;
    }
  }
}
