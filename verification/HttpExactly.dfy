// The requests that are served are those that were printed, no more and no fewer: over every
// stream, however it is cut.

module HttpExactly {
  import opened Basics
  import opened HttpModel
  import opened HttpParser
  import opened HttpRoundTrip
  import opened HttpMessages
  import opened HttpOnly

  // ------------------------------------------------------------ the head

  lemma HeadOnly(lib: Lib, core: Core, data: Text) returns (m: Message, rest: Text)
    requires HasKeys(lib) && Idle(core) && Hands(lib, core, [], data)
    ensures data == HeadText(m) + (['\r'] + rest) && GoodHead(lib, m)
    ensures var a := EndOfHeader(lib, HeadRead(lib, core, m)); a.Go? && Hands(lib, a.core, [], rest)
  {
    var line, behind := LineOnly(lib, core, data);
    var start := Started(lib, core, line);
    var fs, close;
    fs, close, rest := FieldsOnly(lib, start, behind);
    m := line.(fields := fs, gaps := line.gaps.(close := close));
    assert Started(lib, core, m) == start && RequestLine(m) == RequestLine(line);
    Associate(RequestLine(m), FieldLines(fs) + close, ['\r'] + rest);
  }

  // ------------------------------------------------------------ what the header tells

  // A message with this head whose body is yet to be found.
  function AsPlain(m: Message, text: Text): Message { m.(payload := Plain(text)) }

  function AsChunked(m: Message, payload: Payload): Message { m.(payload := payload) }

  const NO_CHUNKS := Chunks([], Part("", "", ""), [], "")

  lemma PlainTold(lib: Lib, core: Core, m: Message)
    requires Idle(core) && GoodHead(lib, m) && !core.chunked && TE !in Kept3(lib, m)
    requires EndOfHeader(lib, HeadRead(lib, core, m)).Go?
    ensures ContentLength(Kept3(lib, m), false).0 == None
    ensures EndOfHeader(lib, HeadRead(lib, core, m)).core == Headed(lib, core, AsPlain(m, ""))
  {
  }

  lemma MarkedTold(lib: Lib, core: Core, m: Message)
    requires Idle(core) && GoodHead(lib, m) && core.chunked && TE !in Kept3(lib, m)
    requires EndOfHeader(lib, HeadRead(lib, core, m)).Go?
    ensures !Sizes(lib, m) && Announced(lib, Kept3(lib, m)).Some?
    ensures EndOfHeader(lib, HeadRead(lib, core, m)).core == Headed(lib, core, AsChunked(m, NO_CHUNKS))
  {
    assert TR !in Kept3(lib, m) ==> Kept3(lib, m) - {TR} == Kept3(lib, m);
  }

  lemma ChunkedTold(lib: Lib, core: Core, m: Message)
    requires Idle(core) && GoodHead(lib, m) && TE in Kept3(lib, m)
    requires EndOfHeader(lib, HeadRead(lib, core, m)).Go?
    ensures Encoded(lib, m) && Announced(lib, Kept3(lib, m)).Some?
    ensures EndOfHeader(lib, HeadRead(lib, core, m)).core == Headed(lib, core, AsChunked(m, NO_CHUNKS))
  {
    var kept := Kept3(lib, m) - {TE} - {CL};
    assert TR !in kept ==> kept - {TR} == kept;
  }

  // ------------------------------------------------------------ the body

  lemma PlainOnly(lib: Lib, core: Core, m: Message, data: Text) returns (text: Text, rest: Text)
    requires Idle(core) && GoodHead(lib, m) && !core.chunked && TE !in Kept3(lib, m)
    requires ContentLength(Kept3(lib, m), false).0 == None && Hands(lib, Headed(lib, core, AsPlain(m, "")), [], data)
    ensures data == ['\n'] + (text + rest) && GoodPlain(lib, AsPlain(m, text))
  {
    var c, n := Headed(lib, core, AsPlain(m, "")), ContentLength(Kept3(lib, m), false).1;
    EmptyLineOnly(lib, c, data);
    HeadAndTail(data);
    text, rest := "", data[1..];
    if n > 0 {
      BodyOnly(lib, c.(state := Body, headerExists := false), rest);
      text, rest := rest[..n], rest[n..];
    }
    assert text + rest == data[1..];
  }

  lemma TrailOnly(lib: Lib, core: Core, data: Text) returns (fs: seq<Field>, close: Text, rest: Text)
    requires HasKeys(lib) && core.request.Some? && core.key == "" && core.value == "" && Hands(lib, core, [], data)
    requires core.state == if core.trailer != {} then Trailer(TKeyBefore) else Trailer(TailCR)
    ensures data == ((FieldLines(fs) + close) + CRLF) + rest && GoodTrailer(lib, core.trailer, fs, close)
  {
    if core.trailer != {} {
      fs, close, rest := TrailerOnly(lib, core, [], data);
    } else {
      rest := NoTrailerOnly(lib, core, data);
      fs, close := [], "";
      assert "" + "" == "" && "" + (CRLF + rest) == CRLF + rest;
    }
    Associate(FieldLines(fs) + close, CRLF, rest);
  }

  lemma ChunksOnly(lib: Lib, core: Core, m: Message, data: Text) returns (payload: Payload, rest: Text)
    requires HasKeys(lib) && Idle(core) && Hands(lib, Headed(lib, core, AsChunked(m, NO_CHUNKS)), [], data)
    ensures data == ['\n'] + (PayloadText(payload) + rest) && payload.Chunks?
    ensures (forall p :: p in payload.parts ==> GoodPart(p)) && GoodSize(payload.last.size, 0) &&
            GoodExt(payload.last.ext)
    ensures GoodTrailer(lib, NamesOf(lib, m), payload.trailer, payload.close)
  {
    var begin := Begun(lib, core, AsChunked(m, NO_CHUNKS));
    EmptyLineOnly(lib, Headed(lib, core, AsChunked(m, NO_CHUNKS)), data);
    HeadAndTail(data);
    var ps, last, behind := PartsOnly(lib, begin, [], data[1..]);
    var fs, close;
    fs, close, rest := TrailOnly(lib, Tail(begin, ps), behind);
    payload := Chunks(ps, last, fs, close);
    Associate(SizeLine(last), (FieldLines(fs) + close) + CRLF, rest);
    Associate(PartsText(ps), SizeLine(last) + ((FieldLines(fs) + close) + CRLF), rest);
  }

  // ------------------------------------------------------------ one message

  predicate BeginsWith(lib: Lib, marked: bool, data: Text, m: Message) { GoodFor(lib, marked, m) && Printed(m) <= data }

  lemma WholeText(m: Message, data: Text, behind: Text, rest: Text)
    requires data == HeadText(m) + (['\r'] + behind) && behind == ['\n'] + (PayloadText(m.payload) + rest)
    ensures Printed(m) <= data
  {
    HeadSplits(m, PayloadText(m.payload) + rest);
    Associate(HeadText(m), ['\r'], behind);
    Associate(HeadOf(m), PayloadText(m.payload), rest);
    assert data == Printed(m) + rest;
  }

  lemma PlainMessage(lib: Lib, core: Core, head: Message, data: Text, behind: Text) returns (m: Message)
    requires Idle(core) && !core.chunked && GoodHead(lib, head) && TE !in Kept3(lib, head)
    requires data == HeadText(head) + (['\r'] + behind)
    requires var a := EndOfHeader(lib, HeadRead(lib, core, head)); a.Go? && Hands(lib, a.core, [], behind)
    ensures BeginsWith(lib, false, data, m)
  {
    PlainTold(lib, core, head);
    var text, rest := PlainOnly(lib, core, head, behind);
    m := AsPlain(head, text);
    WholeText(m, data, behind, rest);
  }

  lemma ChunkedMessage(lib: Lib, core: Core, head: Message, data: Text, behind: Text) returns (m: Message)
    requires HasKeys(lib) && Idle(core) && GoodHead(lib, head) && (core.chunked || TE in Kept3(lib, head))
    requires data == HeadText(head) + (['\r'] + behind)
    requires var a := EndOfHeader(lib, HeadRead(lib, core, head)); a.Go? && Hands(lib, a.core, [], behind)
    ensures BeginsWith(lib, core.chunked, data, m)
  {
    if TE in Kept3(lib, head) { ChunkedTold(lib, core, head); } else { MarkedTold(lib, core, head); }
    var payload, rest := ChunksOnly(lib, core, head, behind);
    m := AsChunked(head, payload);
    ChunksFit(lib, core.chunked, head, payload);
    WholeText(m, data, behind, rest);
  }

  lemma ChunksFit(lib: Lib, marked: bool, head: Message, payload: Payload)
    requires GoodHead(lib, head) && payload.Chunks? && Announced(lib, Kept3(lib, head)).Some?
    requires Encoded(lib, head) || (marked && TE !in Kept3(lib, head) && !Sizes(lib, head))
    requires (forall p :: p in payload.parts ==> GoodPart(p)) && GoodSize(payload.last.size, 0) &&
             GoodExt(payload.last.ext)
    requires GoodTrailer(lib, NamesOf(lib, head), payload.trailer, payload.close)
    ensures ChunkedFor(lib, marked, AsChunked(head, payload))
  {
  }

  // What is served first was printed.
  lemma OnlyMessages(lib: Lib, core: Core, data: Text) returns (m: Message)
    requires HasKeys(lib) && Idle(core) && Hands(lib, core, [], data)
    ensures BeginsWith(lib, core.chunked, data, m)
  {
    var head, behind := HeadOnly(lib, core, data);
    if TE !in Kept3(lib, head) && !core.chunked {
      m := PlainMessage(lib, core, head, data, behind);
    } else {
      m := ChunkedMessage(lib, core, head, data, behind);
    }
  }

  // And what was printed is served first, and the rest as by a parser that is idle again.
  lemma FirstIsServed(lib: Lib, core: Core, data: Text, m: Message)
    requires Idle(core) && BeginsWith(lib, core.chunked, data, m)
    ensures Idle(Marked(core, m))
    ensures Feed(Parsing(lib), core, [], data)
         == Before([Expected(lib, m)], Feed(Parsing(lib), Marked(core, m), [], data[|Printed(m)|..]))
  {
    MessageIsServed(lib, core, m);
    FeedSplit(Parsing(lib), core, [], Printed(m), data[|Printed(m)|..]);
    assert Printed(m) + data[|Printed(m)|..] == data;
  }

  // An idle parser serves a request of a stream if and only if the stream begins with a printed
  // message that is well formed.
  lemma ServedExactly(lib: Lib, core: Core, data: Text)
    requires HasKeys(lib) && Idle(core)
    ensures Feed(Parsing(lib), core, [], data).out != [] <==> exists m :: BeginsWith(lib, core.chunked, data, m)
  {
    if Hands(lib, core, [], data) {
      var m := OnlyMessages(lib, core, data);
    }
    if m :| BeginsWith(lib, core.chunked, data, m) {
      FirstIsServed(lib, core, data, m);
    }
  }

  // Within a message the parser is not between two messages.
  lemma {:induction false} Inside(lib: Lib, core: Core, tok: Text, data: Text)
    requires Ready(core) && (core.state != Line(MethodBefore) || data != [])
    ensures var p := Feed(Parsing(lib), core, tok, data); p.At? && p.out == [] ==> p.core.state != Line(MethodBefore)
    decreases |data|
  {
    if data != [] {
      var a := Step(lib, core, tok, data[0]);
      assert Parsing(lib).step(core, tok, data[0]) == a;
      StepInside(lib, core, tok, data[0]);
      if a.Go? && a.out == [] { Inside(lib, a.core, Kept(a.keep, tok, data[0]), data[1..]); }
    }
  }

  lemma StepInside(lib: Lib, core: Core, tok: Text, c: char)
    requires Ready(core)
    ensures var a := Step(lib, core, tok, c); a.Go? && a.out == [] ==> a.core.state != Line(MethodBefore)
  {
  }

  // No printed message is the beginning of another one, and no text is two messages that are
  // served differently.
  lemma PrintedOnce(lib: Lib, core: Core, a: Message, b: Message)
    requires Idle(core) && GoodFor(lib, core.chunked, a) && GoodFor(lib, core.chunked, b) && Printed(a) <= Printed(b)
    ensures Printed(a) == Printed(b) && Expected(lib, a) == Expected(lib, b) && Marked(core, a) == Marked(core, b)
  {
    var next, more := Marked(core, a), Printed(b)[|Printed(a)|..];
    FirstIsServed(lib, core, Printed(b), a);
    MessageIsServed(lib, core, b);
    var p := Feed(Parsing(lib), next, [], more);
    OneRequest(Expected(lib, a), p.out, Expected(lib, b));
    if more != [] { Inside(lib, next, [], more); }
  }

  lemma OneRequest(a: Request, more: seq<Request>, b: Request)
    requires [a] + more == [b]
    ensures a == b && more == []
  {
    assert |[a] + more| == 1 && ([a] + more)[0] == a;
  }

  // ------------------------------------------------------------ whole streams

  // The parser after some messages.
  function MarkedAll(core: Core, ms: seq<Message>): Core
    decreases |ms|
  {
    if ms == [] then core else MarkedAll(Marked(core, ms[0]), ms[1..])
  }

  // What an idle parser serves of any stream: the messages it begins with, up to where no
  // well-formed message begins, and nothing else.
  lemma {:induction false} StreamExactly(lib: Lib, core: Core, data: Text) returns (ms: seq<Message>, rest: Text)
    requires HasKeys(lib) && Idle(core)
    ensures data == AllPrinted(ms) + rest && GoodRun(lib, core.chunked, ms)
    ensures Feed(Parsing(lib), core, [], data).out == AllExpected(lib, ms)
    ensures Idle(MarkedAll(core, ms)) && forall m :: !BeginsWith(lib, MarkedAll(core, ms).chunked, rest, m)
    decreases |data|
  {
    ServedExactly(lib, core, data);
    if Hands(lib, core, [], data) {
      var m := OnlyMessages(lib, core, data);
      var next, later, more := Marked(core, m), data[|Printed(m)|..], [];
      FirstIsServed(lib, core, data, m);
      more, rest := StreamExactly(lib, next, later);
      ms := [m] + more;
      OneMore(lib, core, m, more, data, rest);
    } else {
      ms, rest := [], data;
      assert "" + data == data;
    }
  }

  lemma OneMore(lib: Lib, core: Core, m: Message, more: seq<Message>, data: Text, rest: Text)
    requires BeginsWith(lib, core.chunked, data, m) && data[|Printed(m)|..] == AllPrinted(more) + rest
    requires GoodRun(lib, Marked(core, m).chunked, more)
    ensures data == AllPrinted([m] + more) + rest && GoodRun(lib, core.chunked, [m] + more)
    ensures AllExpected(lib, [m] + more) == [Expected(lib, m)] + AllExpected(lib, more)
    ensures MarkedAll(core, [m] + more) == MarkedAll(Marked(core, m), more)
  {
    assert ([m] + more)[1..] == more;
    Associate(Printed(m), AllPrinted(more), rest);
  }

  // However the network cuts a stream, none of the reads refused as too long, what is handed
  // over are the messages it begins with.
  lemma ReadsExactly(lib: Lib, limit: nat, p: ParserState, chunks: seq<Text>) returns (ms: seq<Message>, rest: Text)
    requires HasKeys(lib) && Idle(p.core) && p.cache == None
    requires ReadAll(Parsing(lib), limit, p, chunks).err != Some(ErrTooLong)
    ensures Concat(chunks) == AllPrinted(ms) + rest && GoodRun(lib, p.core.chunked, ms)
    ensures ReadAll(Parsing(lib), limit, p, chunks).out == AllExpected(lib, ms)
    ensures forall m :: !BeginsWith(lib, MarkedAll(p.core, ms).chunked, rest, m)
  {
    ms, rest := StreamExactly(lib, p.core, Concat(chunks));
    ParsingIsSound(lib);
    ChunksDoNotMatter(Parsing(lib), limit, p, chunks);
  }
}
