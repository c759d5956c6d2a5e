// A parser that has not read anything yet has a cache that is there but empty. Until it
// has consumed something, what it reads is lost.

module HttpFresh {
  import opened Basics
  import opened HttpModel
  import opened HttpParser
  import opened HttpRoundTrip
  import opened HttpMessages

  // Nothing but the start of a method.
  predicate MethodSoFar(data: Text) {
    data != [] && IsMethodChar(data[0]) && forall c :: c in data ==> IsAlpha(c)
  }

  // Within the method, what is held grows by every byte exactly if all of them are letters.
  lemma {:induction false} InMethod(lib: Lib, core: Core, tok: Text, data: Text)
    requires core.state == Line(Method)
    ensures var p := Feed(Parsing(lib), core, tok, data);
            p.At? ==> (|p.tok| == |tok| + |data| <==> forall c :: c in data ==> IsAlpha(c))
    decreases |data|
  {
    if data != [] {
      var a := StepLine(lib, core, Method, tok, data[0]);
      assert Step(lib, core, tok, data[0]) == a && Parsing(lib).step(core, tok, data[0]) == a;
      assert data == [data[0]] + data[1..];
      if IsAlpha(data[0]) {
        InMethod(lib, core, tok + [data[0]], data[1..]);
      } else if a.Go? {
        ParsingIsSound(lib);
        FeedWaits(Parsing(lib), a.core, [], data[1..]);
        assert data[0] in data;
      }
    }
  }

  // The first read of a parser leaves in its cache what has not been consumed, exactly
  // unless the chunk is nothing but the start of a method.
  lemma FirstReadKeepsExactly(lib: Lib, limit: nat, core: Core, data: Text)
    requires Idle(core) && data != []
    ensures var r := ReadResult(Parsing(lib), limit, ParserState(core, Some([])), data);
            r.err == None ==>
              (Held(r.parser.cache) == Feed(Parsing(lib), core, [], data).tok <==> !MethodSoFar(data))
  {
    var a := StepLine(lib, core, MethodBefore, [], data[0]);
    assert Step(lib, core, [], data[0]) == a && Parsing(lib).step(core, [], data[0]) == a;
    assert data == [data[0]] + data[1..];
    if a.Go? { InMethod(lib, a.core, [data[0]], data[1..]); }
  }

  // The method that ends in these two letters: no method ends in another one.
  function ByEnd(x: char, y: char): Text {
    if y == 'S' then "OPTIONS" else if y == 'D' then "HEAD" else if y == 'I' then "PRI"
    else if y == 'E' then (if x == 'T' then "DELETE" else "TRACE")
    else if x == 'E' then "GET" else if x == 'S' then "POST" else if x == 'U' then "PUT" else "CONNECT"
  }

  lemma EndTellsMethod(a: Text)
    requires a in METHODS
    ensures a == ByEnd(a[|a| - 2], a[|a| - 1])
  {
  }

  lemma NoMethodInside(m: Text, k: nat)
    requires ValidMethod(Upper(m)) && 0 < k <= |m|
    ensures !ValidMethod(Upper(m[k..]))
  {
    var a, b := Upper(m), Upper(m[k..]);
    assert b == a[k..];
    if ValidMethod(b) {
      EndTellsMethod(a);
      EndTellsMethod(b);
    }
  }

  // What is left of a method that has been cut into is refused.
  lemma RestIsRefused(lib: Lib, core: Core, verb: Text, k: nat, later: Text)
    requires core.state == Line(Method) && ValidMethod(Upper(verb)) && 0 < k <= |verb|
    ensures Feed(Parsing(lib), core, [], (verb[k..] + [' ']) + later) == Failed(ErrInvalidMethod, core, [])
  {
    var p, word := Parsing(lib), verb[k..];
    MethodLetters(verb);
    NoMethodInside(verb, k);
    forall c | c in word
      ensures Stays(p, core, c)
    {
      assert c in verb;
      StaysIf(lib, core, c);
    }
    Run(p, core, [], word);
    assert [] + word == word;
    assert Step(lib, core, word, ' ') == Fail(ErrInvalidMethod, core) == p.step(core, word, ' ');
    assert Feed(p, core, word, [' ']) == Failed(ErrInvalidMethod, core, []);
    EndsServing(p, core, [], word, core, word, [' ']);
    FeedSplit(p, core, [], word + [' '], later);
  }

  lemma PrintedFrom(m: Message) returns (later: Text)
    ensures Printed(m) == (m.verb + " ") + later
  {
    var rest := (m.gaps.uri + (m.uri + " ")) + (m.gaps.proto + ((m.proto + m.gaps.end) + CRLF));
    var fields := (FieldLines(m.fields) + m.gaps.close) + CRLF;
    later := (rest + fields) + PayloadText(m.payload);
    Associate(m.verb + " ", rest, fields);
    Associate(m.verb + " ", rest + fields, PayloadText(m.payload));
  }

  lemma MethodIsHeld(lib: Lib, core: Core, verb: Text, k: nat)
    requires Idle(core) && ValidMethod(Upper(verb)) && 0 < k <= |verb|
    ensures Leads(Parsing(lib), core, [], verb[..k], To(core, Line(Method)), verb[..k])
  {
    var mid, word := To(core, Line(Method)), verb[..k];
    MethodLetters(verb);
    forall c | c in word
      ensures Stays(Parsing(lib), mid, c)
    {
      assert c in verb;
      StaysIf(lib, mid, c);
    }
    StepIs(lib, core, [], word[0], mid, Here);
    WordStart(Parsing(lib), core, [], word, mid);
  }

  // ------------------------------------------------------------ a pipeline on a new parser

  // The first chunk that is not empty.
  function FirstRead(chunks: seq<Text>): Text {
    if chunks == [] then [] else if chunks[0] != [] then chunks[0] else FirstRead(chunks[1..])
  }

  // No read of a new parser is refused for its size.
  predicate NotTooLong(lib: Lib, limit: nat, core: Core, chunks: seq<Text>) {
    ReadAll(Parsing(lib), limit, ParserState(core, Some([])), chunks).err != Some(ErrTooLong)
  }

  // Empty chunks in front change nothing.
  lemma NothingRead(m: Machine, limit: nat, p: ParserState, chunks: seq<Text>)
    requires p.core.state != Close && chunks != [] && chunks[0] == []
    ensures ReadAll(m, limit, p, chunks) == ReadAll(m, limit, p, chunks[1..])
    ensures Concat(chunks) == Concat(chunks[1..]) && FirstRead(chunks) == FirstRead(chunks[1..])
  {
    var later := ReadAll(m, limit, p, chunks[1..]);
    assert [] + later.out == later.out && [] + Concat(chunks[1..]) == Concat(chunks[1..]);
  }

  // Letters that come while the start of the method is lost are lost as well.
  lemma LettersAreLost(lib: Lib, limit: nat, core: Core, word: Text)
    requires core.state == Line(Method) && forall c :: c in word ==> IsAlpha(c)
    ensures ReadResult(Parsing(lib), limit, ParserState(core, Some([])), word)
            == Result(None, ParserState(core, Some([])), [])
  {
    forall c | c in word
      ensures Stays(Parsing(lib), core, c)
    {
      StaysIf(lib, core, c);
    }
    Run(Parsing(lib), core, [], word);
    assert [] + word == word;
  }

  // A chunk of a text ends within its first word or reaches behind it.
  lemma CutInWord(a: Text, rest: Text, word: Text, later: Text)
    requires a + rest == (word + [' ']) + later
    ensures |a| <= |word| ==> a == word[..|a|] && rest == (word[|a|..] + [' ']) + later
    ensures |a| > |word| ==> a[|word|] == ' ' && a == (word + [' ']) + a[|word| + 1..]
  {
    var text := (word + [' ']) + later;
    assert a == text[..|a|] && rest == text[|a|..];
    if |a| <= |word| { assert word == word[..|a|] + word[|a|..]; }
  }

  // A read that only loses bytes, and one that fails.
  lemma LostRead(m: Machine, limit: nat, p: ParserState, chunks: seq<Text>)
    requires chunks != [] && ReadResult(m, limit, p, chunks[0]) == Result(None, p, [])
    ensures ReadAll(m, limit, p, chunks).err == ReadAll(m, limit, p, chunks[1..]).err
    ensures ReadAll(m, limit, p, chunks).out == ReadAll(m, limit, p, chunks[1..]).out
  {
    var later := ReadAll(m, limit, p, chunks[1..]);
    assert [] + later.out == later.out;
  }

  lemma FailedRead(m: Machine, limit: nat, core: Core, data: Text, err: Error, core': Core)
    requires core.state != Close && data != [] && Feed(m, core, [], data) == Failed(err, core', [])
    ensures var r := ReadResult(m, limit, ParserState(core, Some([])), data); r.err == Some(err) && r.out == []
  {
  }

  // However the rest of a message comes whose method has been cut into: it is refused when its
  // method ends, and nothing has been handed over.
  lemma {:induction false} CutMethodIsRefused(lib: Lib, limit: nat, core: Core, verb: Text, k: nat, later: Text,
                                              chunks: seq<Text>)
    requires core.state == Line(Method) && ValidMethod(Upper(verb)) && 0 < k <= |verb|
    requires Concat(chunks) == (verb[k..] + [' ']) + later
    ensures var r := ReadAll(Parsing(lib), limit, ParserState(core, Some([])), chunks);
            r.err == Some(ErrInvalidMethod) && r.out == []
    decreases |chunks|
  {
    assert chunks != [];
    var a, word := chunks[0], verb[k..];
    CutInWord(a, Concat(chunks[1..]), word, later);
    if |a| <= |word| {
      PieceIsLost(lib, limit, core, verb, k, a, chunks);
      CutMethodIsRefused(lib, limit, core, verb, k + |a|, later, chunks[1..]);
    } else {
      RestIsRefused(lib, core, verb, k, a[|word| + 1..]);
      FailedRead(Parsing(lib), limit, core, a, ErrInvalidMethod, core);
    }
  }

  lemma PieceIsLost(lib: Lib, limit: nat, core: Core, verb: Text, k: nat, a: Text, chunks: seq<Text>)
    requires core.state == Line(Method) && ValidMethod(Upper(verb)) && k + |a| <= |verb| && a == verb[k..k + |a|]
    requires chunks != [] && chunks[0] == a
    ensures verb[k..][|a|..] == verb[k + |a|..]
    ensures var p := ParserState(core, Some([]));
            && ReadAll(Parsing(lib), limit, p, chunks).err == ReadAll(Parsing(lib), limit, p, chunks[1..]).err
            && ReadAll(Parsing(lib), limit, p, chunks).out == ReadAll(Parsing(lib), limit, p, chunks[1..]).out
  {
    MethodLetters(verb);
    LettersAreLost(lib, limit, core, a);
    LostRead(Parsing(lib), limit, ParserState(core, Some([])), chunks);
  }

  // A pipeline whose first message is cut within its method.
  lemma FirstReadIsLost(lib: Lib, limit: nat, core: Core, m: Message, later: Text, chunks: seq<Text>)
    requires Idle(core) && GoodHead(lib, m) && chunks != [] && 0 < |chunks[0]| <= |m.verb|
    requires Concat(chunks) == (m.verb + [' ']) + later
    ensures var r := ReadAll(Parsing(lib), limit, ParserState(core, Some([])), chunks);
            r.err == Some(ErrInvalidMethod) && r.out == []
  {
    var k := |chunks[0]|;
    CutInWord(chunks[0], Concat(chunks[1..]), m.verb, later);
    MethodIsHeld(lib, core, m.verb, k);
    CutMethodIsRefused(lib, limit, To(core, Line(Method)), m.verb, k, later, chunks[1..]);
  }

  // A first read that keeps what it should is followed by others as by feeding all of them.
  lemma FirstReadIsKept(lib: Lib, limit: nat, core: Core, chunks: seq<Text>)
    requires Idle(core) && chunks != [] && chunks[0] != [] && !MethodSoFar(chunks[0])
    requires |Concat(chunks)| <= limit || NotTooLong(lib, limit, core, chunks)
    requires var p := Feed(Parsing(lib), core, [], Concat(chunks)); p.At? && p.tok == []
    ensures var r := ReadAll(Parsing(lib), limit, ParserState(core, Some([])), chunks);
            var p := Feed(Parsing(lib), core, [], Concat(chunks));
            r.err == None && r.out == p.out && r.parser == ParserState(p.core, None)
  {
    var m, a, rest := Parsing(lib), chunks[0], chunks[1..];
    ParsingIsSound(lib);
    FeedSplit(m, core, [], a, Concat(rest));
    FeedWaits(m, core, [], a);
    var first := ReadResult(m, limit, ParserState(core, Some([])), a);
    FirstReadKeepsExactly(lib, limit, core, a);
    assert first.parser.cache != Some([]) && ValidParser(first.parser);
    if |Concat(chunks)| <= limit { SmallIsNotRefused(m, limit, first.parser, rest); }
    ChunksDoNotMatter(m, limit, first.parser, rest);
  }

  lemma PrintedPipeline(ms: seq<Message>) returns (later: Text)
    requires ms != []
    ensures AllPrinted(ms) == (ms[0].verb + " ") + later
  {
    var rest := PrintedFrom(ms[0]);
    later := rest + AllPrinted(ms[1..]);
    Associate(ms[0].verb + " ", rest, AllPrinted(ms[1..]));
  }

  // A pipeline of well-formed messages that reaches a new parser in any number of chunks, none
  // refused for its size, is served, and leaves the parser waiting for another message, if and
  // only if the first chunk that is not empty reaches behind the first method. Otherwise it is
  // refused, and nothing is handed over.
  lemma {:induction false} PipelineOnNewParser(lib: Lib, limit: nat, core: Core, ms: seq<Message>, chunks: seq<Text>)
    requires Idle(core) && ms != [] && GoodRun(lib, core.chunked, ms)
    requires Concat(chunks) == AllPrinted(ms)
    requires |AllPrinted(ms)| <= limit || NotTooLong(lib, limit, core, chunks)
    ensures var r := ReadAll(Parsing(lib), limit, ParserState(core, Some([])), chunks);
            if |FirstRead(chunks)| > |ms[0].verb| then
              r.err == None && r.out == AllExpected(lib, ms) && Idle(r.parser.core) && r.parser.cache == None
            else r.err == Some(ErrInvalidMethod) && r.out == []
    decreases |chunks|
  {
    var later := PrintedPipeline(ms);
    assert chunks != [] && GoodFor(lib, core.chunked, ms[0]);
    if chunks[0] == [] {
      NothingRead(Parsing(lib), limit, ParserState(core, Some([])), chunks);
      PipelineOnNewParser(lib, limit, core, ms, chunks[1..]);
    } else if |chunks[0]| > |ms[0].verb| {
      CutInWord(chunks[0], Concat(chunks[1..]), ms[0].verb, later);
      assert ' ' in chunks[0] && !MethodSoFar(chunks[0]);
      PipelineIsServed(lib, core, ms);
      FirstReadIsKept(lib, limit, core, chunks);
    } else {
      FirstReadIsLost(lib, limit, core, ms[0], later, chunks);
    }
  }

  lemma {:induction false} EmptyChunks(m: Machine, limit: nat, p: ParserState, chunks: seq<Text>)
    requires p.core.state != Close && Concat(chunks) == []
    ensures ReadAll(m, limit, p, chunks) == Result(None, p, [])
    decreases |chunks|
  {
    if chunks != [] {
      assert chunks[0] == [];
      NothingRead(m, limit, p, chunks);
      EmptyChunks(m, limit, p, chunks[1..]);
    }
  }

  // Over all parsers that wait for a message and hold nothing, all pipelines and all chunkings
  // of which no read is refused for its size: the pipeline is served, and the parser waits for
  // another message and holds nothing, if and only if the parser has consumed something before
  // or its first read reaches behind the first method.
  lemma PipelineInChunks(lib: Lib, limit: nat, p: ParserState, ms: seq<Message>, chunks: seq<Text>)
    requires Idle(p.core) && Held(p.cache) == []
    requires GoodRun(lib, p.core.chunked, ms) && Concat(chunks) == AllPrinted(ms)
    requires |AllPrinted(ms)| <= limit || ReadAll(Parsing(lib), limit, p, chunks).err != Some(ErrTooLong)
    ensures var r := ReadAll(Parsing(lib), limit, p, chunks);
            if p.cache == None || ms == [] || |FirstRead(chunks)| > |ms[0].verb| then
              r.err == None && r.out == AllExpected(lib, ms) && Idle(r.parser.core) && Held(r.parser.cache) == []
            else r.err == Some(ErrInvalidMethod) && r.out == []
  {
    if p.cache == None {
      PipelineOnUsedParser(lib, limit, p, ms, chunks);
    } else if ms == [] {
      EmptyChunks(Parsing(lib), limit, p, chunks);
    } else {
      PipelineOnNewParser(lib, limit, p.core, ms, chunks);
    }
  }

  lemma OneOnly(lib: Lib, m: Message)
    ensures AllPrinted([m]) == Printed(m) && AllExpected(lib, [m]) == [Expected(lib, m)]
    ensures GoodFor(lib, false, m) ==> GoodRun(lib, false, [m])
  {
    assert [m][1..] == [];
  }

  lemma TwoOnly(a: Text, b: Text)
    ensures Concat([a, b]) == a + b && (a != [] ==> FirstRead([a, b]) == a)
  {
    assert [a, b][1..] == [b] && [b][1..] == [];
    assert Concat([b]) == b + Concat([]) == b;
  }

  // So a message in two chunks is served exactly if the cut is behind the method.
  lemma FirstMessageInTwo(lib: Lib, limit: nat, core: Core, m: Message, k: nat)
    requires Idle(core) && !core.chunked && Good(lib, m) && 0 < k < |Printed(m)|
    requires |Printed(m)| <= limit || NotTooLong(lib, limit, core, [Printed(m)[..k], Printed(m)[k..]])
    ensures var r := ReadAll(Parsing(lib), limit, ParserState(core, Some([])), [Printed(m)[..k], Printed(m)[k..]]);
            if k > |m.verb| then r.err == None && r.out == [Expected(lib, m)]
            else r.err == Some(ErrInvalidMethod) && r.out == []
  {
    var a, b := Printed(m)[..k], Printed(m)[k..];
    OneOnly(lib, m);
    TwoOnly(a, b);
    assert a + b == Printed(m);
    PipelineOnNewParser(lib, limit, core, [m], [a, b]);
  }
}
