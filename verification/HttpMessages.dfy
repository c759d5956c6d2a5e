// Printed messages, one after another, come out of the parser as the requests they were.

module HttpMessages {
  import opened Basics
  import opened HttpModel
  import opened HttpParser
  import opened HttpRoundTrip

  // ------------------------------------------------------------ what is well formed

  predicate GoodSize(size: Text, n: int) {
    size != "" && (forall c :: c in size ==> IsHex(c)) && ParseInt(size, 16) == Some(n)
  }

  predicate GoodExt(ext: Text) {
    ext == "" || (!IsHex(ext[0]) && '\r' !in ext)
  }

  predicate GoodPart(p: Part) {
    p.data != "" && GoodSize(p.size, |p.data|) && GoodExt(p.ext)
  }

  // What may stand in front of a name in a trailer, or of its empty line.
  predicate Junk(s: Text) { forall c :: c in s ==> !IsAlpha(c) && c != '\r' }

  // A trailer field. Its value is cut at the first blank.
  predicate GoodTrailerField(lib: Lib, f: Field) {
    && Junk(f.pre) && GoodName(lib, f)
    && Blanks(f.gap) && (f.value != "" ==> f.value[0] != ' ') && '\r' !in f.value
  }

  function FirstWord(value: Text): Text {
    if value == [] || value[0] == ' ' then [] else [value[0]] + FirstWord(value[1..])
  }

  function TrailerSet(lib: Lib, fs: seq<Field>): set<Text> {
    if fs == [] then {} else {lib.canonical(fs[0].name)} + TrailerSet(lib, fs[1..])
  }

  predicate DifferentNames(lib: Lib, fs: seq<Field>) {
    fs == [] || (lib.canonical(fs[0].name) !in TrailerSet(lib, fs[1..]) && DifferentNames(lib, fs[1..]))
  }

  // The value that the request gets: the blanks, if there is nothing behind them.
  function TrailerGiven(f: Field): Text { if f.value == "" then f.gap else FirstWord(f.value) }

  // The trailer of the request; adding a field makes its key canonical once more.
  function TrailerFrom(lib: Lib, h: Header, fs: seq<Field>): Header
    decreases |fs|
  {
    if fs == [] then h
    else TrailerFrom(lib, Add(h, lib.canonical(lib.canonical(fs[0].name)), TrailerGiven(fs[0])), fs[1..])
  }

  // What is still awaited of the announced names behind a field: one without a value does not count.
  function Still(lib: Lib, names: set<Text>, f: Field): set<Text> {
    if f.value == "" then names else names - {lib.canonical(f.name)}
  }

  function StillAll(lib: Lib, names: set<Text>, fs: seq<Field>): set<Text>
    decreases |fs|
  {
    if fs == [] then names else StillAll(lib, Still(lib, names, fs[0]), fs[1..])
  }

  // A field with a value comes only while some are awaited.
  predicate WhileAwaited(lib: Lib, names: set<Text>, fs: seq<Field>)
    decreases |fs|
  {
    fs == [] || ((fs[0].value != "" ==> names != {}) && WhileAwaited(lib, Still(lib, names, fs[0]), fs[1..]))
  }

  // A trailer that brings the announced names. Without any there is nothing before the empty line.
  predicate GoodTrailer(lib: Lib, names: set<Text>, fs: seq<Field>, close: Text) {
    if names == {} then fs == [] && close == ""
    else
      && (forall f :: f in fs ==> GoodTrailerField(lib, f)) && Junk(close)
      && WhileAwaited(lib, names, fs) && StillAll(lib, names, fs) == {}
  }

  // Fields with values whose names are those announced, each once.
  lemma {:induction false} DifferentBring(lib: Lib, fs: seq<Field>)
    requires DifferentNames(lib, fs) && forall f :: f in fs ==> f.value != ""
    ensures WhileAwaited(lib, TrailerSet(lib, fs), fs) && StillAll(lib, TrailerSet(lib, fs), fs) == {}
    decreases |fs|
  {
    if fs != [] {
      assert fs[0] in fs && Still(lib, TrailerSet(lib, fs), fs[0]) == TrailerSet(lib, fs[1..]);
      DifferentBring(lib, fs[1..]);
    }
  }

  // The fields that the header announces for the trailer.
  function Announced(lib: Lib, kept: Header): Option<set<Text>> {
    if TR in kept then AllTrailerKeys(lib, kept[TR]) else Some({})
  }

  function Kept3(lib: Lib, m: Message): Header { KeptFrom(lib, map[], m.fields) }

  predicate GoodPlain(lib: Lib, m: Message) {
    && m.payload.Plain? && GoodHead(lib, m) && TE !in Kept3(lib, m)
    && var (e, l) := ContentLength(Kept3(lib, m), false);
      e == None && (if l > 0 then |m.payload.text| == l else m.payload.text == "")
  }

  // The message says that it is chunked.
  predicate Encoded(lib: Lib, m: Message) {
    TE in Kept3(lib, m) && |Kept3(lib, m)[TE]| == 1 && Lower(Trim(Kept3(lib, m)[TE][0])) == "chunked"
  }

  // The message gives its length.
  predicate Sizes(lib: Lib, m: Message) {
    CL in Kept3(lib, m) && Kept3(lib, m)[CL] != [] && Kept3(lib, m)[CL][0] != ""
  }

  // A message in chunks. On a parser that is marked it need not say so, but then it must not
  // give a length.
  predicate ChunkedFor(lib: Lib, marked: bool, m: Message) {
    && m.payload.Chunks? && GoodHead(lib, m)
    && (Encoded(lib, m) || (marked && TE !in Kept3(lib, m) && !Sizes(lib, m)))
    && (forall p :: p in m.payload.parts ==> GoodPart(p))
    && GoodSize(m.payload.last.size, 0) && GoodExt(m.payload.last.ext)
    && var names := Announced(lib, Kept3(lib, m));
       names.Some? && GoodTrailer(lib, names.value, m.payload.trailer, m.payload.close)
  }

  predicate GoodChunked(lib: Lib, m: Message) { ChunkedFor(lib, false, m) }

  predicate Good(lib: Lib, m: Message) { GoodPlain(lib, m) || GoodChunked(lib, m) }

  // Well formed for a parser that is marked by a chunked message, or not.
  predicate GoodFor(lib: Lib, marked: bool, m: Message) {
    if m.payload.Plain? then GoodPlain(lib, m) && !marked else ChunkedFor(lib, marked, m)
  }

  // ------------------------------------------------------------ what is to be served

  function AllData(ps: seq<Part>): Text {
    if ps == [] then "" else ps[0].data + AllData(ps[1..])
  }

  function Content(m: Message): Text {
    match m.payload
    case Plain(text) => text
    case Chunks(parts, _, _, _) => AllData(parts)
  }

  function Length(lib: Lib, m: Message): int {
    if m.payload.Plain? then ContentLength(Kept3(lib, m), false).1 else -1
  }

  function Expected(lib: Lib, m: Message): Request {
    Request(Upper(m.verb), m.uri, m.proto, HeaderFrom(lib, map[], m.fields), Length(lib, m),
      if Content(m) == "" then None else Some(Content(m)),
      if m.payload.Plain? then map[] else TrailerFrom(lib, map[], m.payload.trailer))
  }

  // A chunked message leaves two marks on an idle parser.
  function Marked(core: Core, m: Message): Core {
    if m.payload.Plain? then core else core.(chunked := true, chunkSize := 0)
  }

  // ------------------------------------------------------------ the end of the header

  lemma Serves(m: Machine, core: Core, tok: Text, c: char, core': Core, r: Request)
    requires m.step(core, tok, c) == Go(core', After, [r])
    ensures Feed(m, core, tok, [c]) == At(core', [], [r])
  {
    assert [c][1..] == [] && Feed(m, core', [], []) == At(core', [], []);
    assert [r] + [] == [r];
  }

  // The names that the header announces.
  function NamesOf(lib: Lib, m: Message): set<Text> {
    var names := Announced(lib, Kept3(lib, m));
    if names.Some? then names.value else {}
  }

  // Where the parser is after the carriage return of the empty line.
  function Headed(lib: Lib, core: Core, m: Message): Core {
    var c := HeadRead(lib, core, m);
    c.(state := Head(OverLF), request := Some(c.request.value.(contentLength := Length(lib, m))),
       header := if m.payload.Plain? then c.header
                 else if TE in Kept3(lib, m) then c.header - {TE} - {CL} - {TR} else c.header - {TR},
       trailer := if m.payload.Plain? then c.trailer else NamesOf(lib, m),
       chunked := c.chunked || m.payload.Chunks?)
  }

  lemma PlainLine(lib: Lib, core: Core, m: Message)
    requires Idle(core) && GoodPlain(lib, m) && !core.chunked
    ensures EndOfHeader(lib, HeadRead(lib, core, m)) == Go(Headed(lib, core, m), After, [])
  {
  }

  lemma MarkedLine(lib: Lib, core: Core, m: Message)
    requires Idle(core) && ChunkedFor(lib, core.chunked, m) && TE !in Kept3(lib, m)
    ensures EndOfHeader(lib, HeadRead(lib, core, m)) == Go(Headed(lib, core, m), After, [])
  {
    assert TR !in Kept3(lib, m) ==> Kept3(lib, m) - {TR} == Kept3(lib, m);
  }

  lemma ChunkedLine(lib: Lib, core: Core, m: Message)
    requires Idle(core) && ChunkedFor(lib, core.chunked, m) && TE in Kept3(lib, m)
    ensures EndOfHeader(lib, HeadRead(lib, core, m)) == Go(Headed(lib, core, m), After, [])
  {
    var kept := Kept3(lib, m) - {TE} - {CL};
    assert TR !in kept ==> kept - {TR} == kept;
  }

  lemma EmptyLine(lib: Lib, core: Core, m: Message)
    requires Idle(core) && GoodFor(lib, core.chunked, m)
    ensures EndOfHeader(lib, HeadRead(lib, core, m)) == Go(Headed(lib, core, m), After, [])
  {
    if m.payload.Plain? {
      PlainLine(lib, core, m);
    } else if TE in Kept3(lib, m) {
      ChunkedLine(lib, core, m);
    } else {
      MarkedLine(lib, core, m);
    }
  }

  lemma EmptyLineStep(lib: Lib, core: Core, m: Message)
    requires Idle(core) && GoodFor(lib, core.chunked, m)
    ensures Parsing(lib).step(HeadRead(lib, core, m), m.gaps.close, '\r') == Go(Headed(lib, core, m), After, [])
  {
    EmptyLine(lib, core, m);
    StepIs(lib, HeadRead(lib, core, m), m.gaps.close, '\r', Headed(lib, core, m), After);
  }

  // All of the head but its last two bytes.
  function HeadText(m: Message): Text { RequestLine(m) + (FieldLines(m.fields) + m.gaps.close) }

  lemma HeaderEnds(lib: Lib, core: Core, m: Message)
    requires Idle(core) && GoodFor(lib, core.chunked, m)
    ensures Leads(Parsing(lib), core, [], HeadText(m) + ['\r'], Headed(lib, core, m), [])
  {
    var c := HeadRead(lib, core, m);
    HeadIsRead(lib, core, m);
    EmptyLineStep(lib, core, m);
    OneByte(Parsing(lib), c, m.gaps.close, '\r', Headed(lib, core, m), After);
    LeadsOn(Parsing(lib), core, [], HeadText(m), c, m.gaps.close, ['\r'], Headed(lib, core, m), []);
  }

  lemma HeadSplits(m: Message, later: Text)
    ensures HeadOf(m) + later == (HeadText(m) + ['\r']) + (['\n'] + later)
  {
    assert CRLF == ['\r'] + ['\n'];
  }

  // ------------------------------------------------------------ plain bodies

  lemma EndsServing(m: Machine, c0: Core, t0: Text, a: Text, c1: Core, t1: Text, b: Text)
    requires Leads(m, c0, t0, a, c1, t1)
    ensures Feed(m, c0, t0, a + b) == Feed(m, c1, t1, b)
  {
    FeedSplit(m, c0, t0, a, b);
    var p := Feed(m, c1, t1, b);
    assert [] + p.out == p.out;
  }

  // After the line feed of the empty line, the body of a plain message.
  lemma BodyIsRead(lib: Lib, core: Core, m: Message)
    requires Idle(core) && GoodPlain(lib, m) && !core.chunked && Length(lib, m) > 0
    ensures var body := Headed(lib, core, m).(state := Body, headerExists := false);
            Feed(Parsing(lib), body, [], m.payload.text) == At(core, [], [Expected(lib, m)])
  {
    var body := Headed(lib, core, m).(state := Body, headerExists := false);
    ParsingIsSound(lib);
    var d := BodyMissing(Parsing(lib), body, [], m.payload.text);
    assert [] + m.payload.text == m.payload.text && "" + m.payload.text == m.payload.text;
    assert d == Go(core, After, [Expected(lib, m)]);
  }

  lemma BodyText(lib: Lib, core: Core, m: Message)
    requires Idle(core) && GoodPlain(lib, m) && !core.chunked && Length(lib, m) > 0
    ensures Feed(Parsing(lib), Headed(lib, core, m), [], ['\n'] + m.payload.text) == At(core, [], [Expected(lib, m)])
  {
    var p, c := Parsing(lib), Headed(lib, core, m);
    var body := c.(state := Body, headerExists := false);
    StepIs(lib, c, [], '\n', body, After);
    OneByte(p, c, [], '\n', body, After);
    BodyIsRead(lib, core, m);
    EndsServing(p, c, [], ['\n'], body, [], m.payload.text);
  }

  lemma PlainText(lib: Lib, core: Core, m: Message)
    requires Idle(core) && GoodPlain(lib, m) && !core.chunked
    ensures Feed(Parsing(lib), Headed(lib, core, m), [], ['\n'] + m.payload.text) == At(core, [], [Expected(lib, m)])
  {
    var p, c := Parsing(lib), Headed(lib, core, m);
    if Length(lib, m) > 0 {
      BodyText(lib, core, m);
    } else {
      assert Step(lib, c, [], '\n') == Go(core, After, [Expected(lib, m)]);
      assert p.step(c, [], '\n') == Step(lib, c, [], '\n');
      Serves(p, c, [], '\n', core, Expected(lib, m));
      assert ['\n'] + m.payload.text == ['\n'];
    }
  }

  // ------------------------------------------------------------ chunks

  function Sized(core: Core, n: int): Core { To(core, Chunk(SizeLF)).(chunkSize := n) }

  lemma SizeStart(lib: Lib, core: Core, tok: Text, size: Text, n: int)
    requires core.state == Chunk(SizeBefore) && core.request.Some? && GoodSize(size, n)
    ensures Leads(Parsing(lib), core, tok, size, To(core, Chunk(Size)).(chunkSize := -1), size)
  {
    var mid := To(core, Chunk(Size)).(chunkSize := -1);
    forall c | c in size
      ensures Stays(Parsing(lib), mid, c)
    {
      StaysIf(lib, mid, c);
    }
    StepIs(lib, core, tok, size[0], mid, Here);
    WordStart(Parsing(lib), core, tok, size, mid);
  }

  // The first byte behind the size has it parsed; an extension is passed over.
  lemma SizeEnd(lib: Lib, core: Core, size: Text, n: int, ext: Text)
    requires core.state == Chunk(Size) && core.chunkSize == -1 && core.request.Some?
    requires GoodSize(size, n) && n >= 0 && GoodExt(ext)
    ensures Leads(Parsing(lib), core, size, ext + ['\r'], Sized(core, n), [])
  {
    var p, end := Parsing(lib), Sized(core, n);
    if ext == "" {
      StepIs(lib, core, size, '\r', end, After);
      OneByte(p, core, size, '\r', end, After);
      assert ext + ['\r'] == ['\r'];
    } else {
      var known := core.(chunkSize := n);
      forall c | c in ext[1..]
        ensures Stays(p, known, c)
      {
        assert c in ext;
        StaysIf(lib, known, c);
      }
      StepIs(lib, core, size, ext[0], known, Same);
      OneByte(p, core, size, ext[0], known, Same);
      Run(p, known, size + [ext[0]], ext[1..]);
      StepIs(lib, known, size + [ext[0]] + ext[1..], '\r', end, After);
      OneByte(p, known, size + [ext[0]] + ext[1..], '\r', end, After);
      LeadsOn(p, known, size + [ext[0]], ext[1..], known, size + [ext[0]] + ext[1..], ['\r'], end, []);
      LeadsOn(p, core, size, [ext[0]], known, size + [ext[0]], ext[1..] + ['\r'], end, []);
      assert [ext[0]] + (ext[1..] + ['\r']) == ext + ['\r'];
    }
  }

  lemma SizeIsRead(lib: Lib, core: Core, tok: Text, p: Part, n: int)
    requires core.state == Chunk(SizeBefore) && core.request.Some? && GoodSize(p.size, n) && n >= 0 && GoodExt(p.ext)
    ensures Leads(Parsing(lib), core, tok, (p.size + p.ext) + ['\r'], Sized(core, n), [])
  {
    var mid := To(core, Chunk(Size)).(chunkSize := -1);
    SizeStart(lib, core, tok, p.size, n);
    SizeEnd(lib, mid, p.size, n, p.ext);
    LeadsOn(Parsing(lib), core, tok, p.size, mid, p.size, p.ext + ['\r'], Sized(core, n), []);
    assert p.size + (p.ext + ['\r']) == (p.size + p.ext) + ['\r'];
  }

  // The request with one more piece of body.
  function Grown(core: Core, data: Text): Core
    requires core.request.Some?
  {
    core.(request := Some(OnBody(core.request.value, data)))
  }

  lemma DataEnd(lib: Lib, core: Core)
    requires core.state == Chunk(DataCR) && core.request.Some?
    ensures Leads(Parsing(lib), core, [], CRLF, To(core, Chunk(SizeBefore)), CRLF)
  {
    var p, lf, end := Parsing(lib), To(core, Chunk(DataLF)), To(core, Chunk(SizeBefore));
    assert [] + ['\r'] == ['\r'] && ['\r'] + ['\n'] == CRLF;
    StepIs(lib, core, [], '\r', lf, Same);
    OneByte(p, core, [], '\r', lf, Same);
    StepIs(lib, lf, ['\r'], '\n', end, Same);
    OneByte(p, lf, ['\r'], '\n', end, Same);
    LeadsOn(p, core, [], ['\r'], lf, ['\r'], ['\n'], end, CRLF);
  }

  lemma DataIsRead(lib: Lib, core: Core, data: Text)
    requires core.state == Chunk(SizeLF) && core.request.Some? && core.chunkSize == |data| > 0
    ensures Leads(Parsing(lib), core, [], (['\n'] + data) + CRLF, To(Grown(core, data), Chunk(SizeBefore)), CRLF)
  {
    var p, body, cr := Parsing(lib), To(core, ChunkData), To(Grown(core, data), Chunk(DataCR));
    StepIs(lib, core, [], '\n', body, After);
    OneByte(p, core, [], '\n', body, After);
    ParsingIsSound(lib);
    var d := BodyMissing(p, body, [], data);
    assert [] + data == data && d == Go(cr, After, []);
    LeadsOn(p, core, [], ['\n'], body, [], data, cr, []);
    DataEnd(lib, cr);
    LeadsOn(p, core, [], ['\n'] + data, cr, [], CRLF, To(Grown(core, data), Chunk(SizeBefore)), CRLF);
  }

  lemma PartIsRead(lib: Lib, core: Core, tok: Text, p: Part)
    requires core.state == Chunk(SizeBefore) && core.request.Some? && GoodPart(p)
    ensures Leads(Parsing(lib), core, tok, PartText(p), Grown(core, p.data).(chunkSize := |p.data|), CRLF)
  {
    var n := |p.data|;
    SizeIsRead(lib, core, tok, p, n);
    DataIsRead(lib, Sized(core, n), p.data);
    LeadsOn(Parsing(lib), core, tok, (p.size + p.ext) + ['\r'], Sized(core, n), [], (['\n'] + p.data) + CRLF,
      Grown(core, p.data).(chunkSize := n), CRLF);
    assert ((p.size + p.ext) + ['\r']) + ((['\n'] + p.data) + CRLF) == PartText(p) by {
      assert CRLF == ['\r'] + ['\n'];
    }
  }

  function SizeAfter(n: int, ps: seq<Part>): int {
    if ps == [] then n else |ps[|ps| - 1].data|
  }

  // Chunk after chunk, the body grows by their data.
  lemma {:induction false} PartsAreRead(lib: Lib, core: Core, tok: Text, ps: seq<Part>)
    requires core.state == Chunk(SizeBefore) && core.request.Some? && forall p :: p in ps ==> GoodPart(p)
    ensures Leads(Parsing(lib), core, tok, PartsText(ps),
              Grown(core, AllData(ps)).(chunkSize := SizeAfter(core.chunkSize, ps)), if ps == [] then tok else CRLF)
    decreases |ps|
  {
    if ps != [] {
      var p, later := ps[0], ps[1..];
      assert GoodPart(p);
      var next := Grown(core, p.data).(chunkSize := |p.data|);
      PartIsRead(lib, core, tok, p);
      PartsAreRead(lib, next, CRLF, later);
      var end := Grown(next, AllData(later)).(chunkSize := SizeAfter(|p.data|, later));
      GrownTwice(core, p.data, AllData(later), |p.data|);
      LeadsOn(Parsing(lib), core, tok, PartText(p), next, CRLF, PartsText(later), end, CRLF);
    }
  }

  lemma GrownTwice(core: Core, a: Text, b: Text, n: int)
    requires core.request.Some? && a != ""
    ensures Grown(Grown(core, a).(chunkSize := n), b) == Grown(core, a + b).(chunkSize := n)
  {
    var held := if core.request.value.body.Some? then core.request.value.body.value else [];
    assert (held + a) + b == held + (a + b);
    assert b == [] ==> a + b == a;
  }

  // ------------------------------------------------------------ the trailer

  function AfterTrailerName(lib: Lib, core: Core, f: Field): Core {
    To(core, Trailer(TValueBefore)).(key := lib.canonical(f.name))
  }

  lemma JunkIsHeld(lib: Lib, core: Core, tok: Text, junk: Text)
    requires core.state == Trailer(TKeyBefore) && core.request.Some? && Junk(junk)
    ensures Leads(Parsing(lib), core, tok, junk, core, tok + junk)
  {
    forall c | c in junk
      ensures Stays(Parsing(lib), core, c)
    {
      StaysIf(lib, core, c);
    }
    Run(Parsing(lib), core, tok, junk);
  }

  lemma TrailerNameIsRead(lib: Lib, core: Core, tok: Text, f: Field)
    requires core.state == Trailer(TKeyBefore) && core.request.Some? && core.key == "" && GoodTrailerField(lib, f)
    ensures Leads(Parsing(lib), core, tok, f.pre + ((f.name + f.tail) + ":"), AfterTrailerName(lib, core, f), [])
  {
    var p, mid, end := Parsing(lib), To(core, Trailer(TKey)), AfterTrailerName(lib, core, f);
    JunkIsHeld(lib, core, tok, f.pre);
    WholeName(lib, core, tok + f.pre, f, mid);
    LeadsOn(p, core, tok, f.pre, core, tok + f.pre, (f.name + f.tail) + ":", end, []);
  }

  lemma FirstWordSplits(value: Text)
    ensures FirstWord(value) <= value && ' ' !in FirstWord(value)
    ensures FirstWord(value) != value ==> value[|FirstWord(value)|] == ' '
    ensures value != "" && value[0] != ' ' ==> FirstWord(value) != ""
  {
  }

  lemma {:induction false} FirstWordIsAll(value: Text)
    ensures FirstWord(value) == value <==> ' ' !in value
    decreases |value|
  {
    if value != [] {
      assert value == [value[0]] + value[1..];
      if value[0] != ' ' {
        FirstWordIsAll(value[1..]);
        assert FirstWord(value)[1..] == FirstWord(value[1..]);
      }
    }
  }

  // Behind the first word, a blank fixes it as the value, and the rest is passed over.
  lemma RestOfValue(lib: Lib, core: Core, word: Text, rest: Text, end: Core)
    requires core.state == Trailer(TValue) && core.request.Some? && core.value == "" && core.trailer != {}
    requires word != "" && '\r' !in rest && (rest != "" ==> rest[0] == ' ')
    requires end == To(OnTrailer(lib, core.(trailer := core.trailer - {core.key}), word), Trailer(TValueLF))
    ensures Leads(Parsing(lib), core, word, rest + ['\r'], end, [])
  {
    var p := Parsing(lib);
    if rest == "" {
      StepIs(lib, core, word, '\r', end, After);
      OneByte(p, core, word, '\r', end, After);
      assert rest + ['\r'] == ['\r'];
    } else {
      var known, tok := core.(value := word), word + [' '] + rest[1..];
      forall c | c in rest[1..]
        ensures Stays(p, known, c)
      {
        assert c in rest;
        StaysIf(lib, known, c);
      }
      StepIs(lib, core, word, ' ', known, Same);
      OneByte(p, core, word, ' ', known, Same);
      Run(p, known, word + [' '], rest[1..]);
      StepIs(lib, known, tok, '\r', end, After);
      OneByte(p, known, tok, '\r', end, After);
      LeadsOn(p, known, word + [' '], rest[1..], known, tok, ['\r'], end, []);
      LeadsOn(p, core, word, [' '], known, word + [' '], rest[1..] + ['\r'], end, []);
      assert [' '] + (rest[1..] + ['\r']) == rest + ['\r'];
    }
  }

  lemma FirstWordIsRead(lib: Lib, core: Core, tok: Text, word: Text)
    requires core.state == Trailer(TValueBefore) && core.request.Some? && core.value == ""
    requires word != "" && ' ' !in word && '\r' !in word
    ensures Leads(Parsing(lib), core, tok, word, To(core, Trailer(TValue)), word)
  {
    var mid := To(core, Trailer(TValue));
    forall c | c in word
      ensures Stays(Parsing(lib), mid, c)
    {
      StaysIf(lib, mid, c);
    }
    StepIs(lib, core, tok, word[0], mid, Here);
    WordStart(Parsing(lib), core, tok, word, mid);
  }

  function ValueTaken(lib: Lib, core: Core, f: Field): Core
    requires core.request.Some?
  {
    To(OnTrailer(lib, if f.value == "" then core else core.(trailer := core.trailer - {core.key}), TrailerGiven(f)),
       Trailer(TValueLF))
  }

  lemma TrailerWordIsRead(lib: Lib, core: Core, f: Field)
    requires core.state == Trailer(TValueBefore) && core.request.Some? && core.value == "" && core.trailer != {}
    requires GoodTrailerField(lib, f) && f.value != ""
    ensures Leads(Parsing(lib), core, f.gap, f.value + "\r", ValueTaken(lib, core, f), [])
  {
    var p, mid, end := Parsing(lib), To(core, Trailer(TValue)), ValueTaken(lib, core, f);
    var word := FirstWord(f.value);
    FirstWordSplits(f.value);
    var rest := f.value[|word|..];
    assert f.value == word + rest;
    FirstWordIsRead(lib, core, f.gap, word);
    RestOfValue(lib, mid, word, rest, end);
    LeadsOn(p, core, f.gap, word, mid, word, rest + ['\r'], end, []);
    Associate(word, rest, ['\r']);
  }

  lemma TrailerValueIsRead(lib: Lib, core: Core, f: Field)
    requires core.state == Trailer(TValueBefore) && core.request.Some? && core.value == ""
    requires GoodTrailerField(lib, f) && (f.value != "" ==> core.trailer != {})
    ensures Leads(Parsing(lib), core, [], f.gap + (f.value + "\r"), ValueTaken(lib, core, f), [])
  {
    var p, end := Parsing(lib), ValueTaken(lib, core, f);
    GapIsHeld(lib, core, f.gap);
    if f.value == "" {
      StepIs(lib, core, f.gap, '\r', end, After);
      OneByte(p, core, f.gap, '\r', end, After);
      assert f.value + "\r" == "\r";
    } else {
      TrailerWordIsRead(lib, core, f);
    }
    LeadsOn(p, core, [], f.gap, core, f.gap, f.value + "\r", end, []);
  }

  function AfterTrailerField(lib: Lib, core: Core, f: Field): Core
    requires core.request.Some?
  {
    To(OnTrailer(lib, core.(trailer := Still(lib, core.trailer, f), key := lib.canonical(f.name)), TrailerGiven(f)),
       Trailer(TKeyBefore))
  }

  lemma TrailerLineEnds(lib: Lib, core: Core, end: Core)
    requires core.state == Trailer(TValueLF) && Ready(core) && end == To(core, Trailer(TKeyBefore))
    ensures Leads(Parsing(lib), core, [], "\n", end, ['\n'])
  {
    StepIs(lib, core, [], '\n', end, Here);
    OneByte(Parsing(lib), core, [], '\n', end, Here);
  }

  lemma TrailerFieldIsRead(lib: Lib, core: Core, tok: Text, f: Field)
    requires core.state == Trailer(TKeyBefore) && core.request.Some? && core.key == "" && core.value == ""
    requires GoodTrailerField(lib, f) && (f.value != "" ==> core.trailer != {})
    ensures Leads(Parsing(lib), core, tok, FieldLine(f), AfterTrailerField(lib, core, f), ['\n'])
  {
    var p, named, end := Parsing(lib), AfterTrailerName(lib, core, f), AfterTrailerField(lib, core, f);
    var lf := To(end, Trailer(TValueLF));
    TrailerNameIsRead(lib, core, tok, f);
    TrailerValueIsRead(lib, named, f);
    TrailerLineEnds(lib, lf, end);
    LeadsOn(p, named, [], f.gap + (f.value + "\r"), lf, [], "\n", end, ['\n']);
    LeadsOn(p, core, tok, f.pre + ((f.name + f.tail) + ":"), named, [], (f.gap + (f.value + "\r")) + "\n", end, ['\n']);
  }

  // A trailer field gives the request exactly its value if and only if that has no blank in it.
  lemma TrailerValueExactly(lib: Lib, core: Core, tok: Text, f: Field)
    requires core.state == Trailer(TKeyBefore) && core.request.Some? && core.key == "" && core.value == ""
    requires GoodTrailerField(lib, f) && core.trailer != {} && f.value != ""
    ensures var p := Feed(Parsing(lib), core, tok, FieldLine(f));
            && p.At? && p.out == [] && p.core.request.Some?
            && var name := lib.canonical(lib.canonical(f.name));
               p.core.request.value.trailer == Add(core.request.value.trailer, name, f.value) <==> ' ' !in f.value
  {
    TrailerFieldIsRead(lib, core, tok, f);
    FirstWordIsAll(f.value);
    AddTells(core.request.value.trailer, lib.canonical(lib.canonical(f.name)), FirstWord(f.value), f.value);
  }

  lemma AddTells(h: Header, key: Text, a: Text, b: Text)
    ensures Add(h, key, a) == Add(h, key, b) <==> a == b
  {
    if a != b {
      assert Add(h, key, a)[key][|Values(h, key)|] == a && Add(h, key, b)[key][|Values(h, key)|] == b;
    }
  }

  function AfterTrailers(lib: Lib, core: Core, fs: seq<Field>): Core
    requires core.request.Some?
  {
    var r := core.request.value;
    core.(request := Some(r.(trailer := TrailerFrom(lib, r.trailer, fs))), trailer := StillAll(lib, core.trailer, fs))
  }

  // Field after field, the request gets its trailer.
  lemma {:induction false} TrailersAreRead(lib: Lib, core: Core, tok: Text, fs: seq<Field>)
    requires core.state == Trailer(TKeyBefore) && core.request.Some? && core.key == "" && core.value == ""
    requires (forall f :: f in fs ==> GoodTrailerField(lib, f)) && WhileAwaited(lib, core.trailer, fs)
    ensures Leads(Parsing(lib), core, tok, FieldLines(fs), AfterTrailers(lib, core, fs), if fs == [] then tok
            else ['\n'])
    decreases |fs|
  {
    if fs != [] {
      var f, next := fs[0], AfterTrailerField(lib, core, fs[0]);
      assert GoodTrailerField(lib, f);
      TrailerFieldIsRead(lib, core, tok, f);
      TrailersAreRead(lib, next, ['\n'], fs[1..]);
      assert AfterTrailers(lib, next, fs[1..]) == AfterTrailers(lib, core, fs);
      LeadsOn(Parsing(lib), core, tok, FieldLine(f), next, ['\n'], FieldLines(fs[1..]),
        AfterTrailers(lib, core, fs), ['\n']);
    }
  }

  // The last size line without a trailer leads to the empty line.
  lemma TailStart(lib: Lib, core: Core)
    requires core.state == Chunk(SizeLF) && core.request.Some? && core.chunkSize == 0 && core.trailer == {}
    ensures Leads(Parsing(lib), core, [], ['\n'] + ['\r'], To(core, Trailer(TailLF)), ['\r'])
  {
    var p, cr, lf := Parsing(lib), To(core, Trailer(TailCR)), To(core, Trailer(TailLF));
    StepIs(lib, core, [], '\n', cr, After);
    OneByte(p, core, [], '\n', cr, After);
    StepIs(lib, cr, [], '\r', lf, Same);
    OneByte(p, cr, [], '\r', lf, Same);
    assert [] + ['\r'] == ['\r'];
    LeadsOn(p, core, [], ['\n'], cr, [], ['\r'], lf, ['\r']);
  }

  lemma TrailBegins(lib: Lib, core: Core)
    requires core.state == Chunk(SizeLF) && core.request.Some? && core.chunkSize == 0 && core.trailer != {}
    ensures Leads(Parsing(lib), core, [], ['\n'], To(core, Trailer(TKeyBefore)), [])
  {
    StepIs(lib, core, [], '\n', To(core, Trailer(TKeyBefore)), After);
    OneByte(Parsing(lib), core, [], '\n', To(core, Trailer(TKeyBefore)), After);
  }

  lemma TrailEnds(lib: Lib, core: Core, tok: Text, close: Text)
    requires core.state == Trailer(TKeyBefore) && core.request.Some? && core.trailer == {} && Junk(close)
    ensures Leads(Parsing(lib), core, tok, close + ['\r'], To(core, Trailer(TailLF)), [])
  {
    var p, lf := Parsing(lib), To(core, Trailer(TailLF));
    JunkIsHeld(lib, core, tok, close);
    StepIs(lib, core, tok + close, '\r', lf, After);
    OneByte(p, core, tok + close, '\r', lf, After);
    LeadsOn(p, core, tok, close, core, tok + close, ['\r'], lf, []);
  }

  // With a trailer, its fields come first.
  lemma TrailStart(lib: Lib, core: Core, fs: seq<Field>, close: Text)
    requires core.state == Chunk(SizeLF) && core.request.Some? && core.chunkSize == 0 && core.key == "" &&
             core.value == ""
    requires core.trailer != {} && GoodTrailer(lib, core.trailer, fs, close)
    ensures Leads(Parsing(lib), core, [], ['\n'] + ((FieldLines(fs) + close) + ['\r']),
            To(AfterTrailers(lib, core, fs), Trailer(TailLF)), [])
  {
    var p, first := Parsing(lib), To(core, Trailer(TKeyBefore));
    var last, lf := AfterTrailers(lib, first, fs), To(AfterTrailers(lib, core, fs), Trailer(TailLF));
    var tok := if fs == [] then [] else ['\n'];
    TrailBegins(lib, core);
    TrailersAreRead(lib, first, [], fs);
    TrailEnds(lib, last, tok, close);
    LeadsOn(p, first, [], FieldLines(fs), last, tok, close + ['\r'], lf, []);
    Associate(FieldLines(fs), close, ['\r']);
    LeadsOn(p, core, [], ['\n'], first, [], (FieldLines(fs) + close) + ['\r'], lf, []);
  }

  lemma TailEnd(lib: Lib, core: Core, tok: Text)
    requires core.state == Trailer(TailLF) && core.request.Some?
    ensures Feed(Parsing(lib), core, tok, ['\n'])
         == At(core.(request := None, header := map[], state := Line(MethodBefore)), [], [core.request.value])
  {
    var core' := core.(request := None, header := map[], state := Line(MethodBefore));
    assert Step(lib, core, tok, '\n') == Go(core', After, [core.request.value]);
    assert Parsing(lib).step(core, tok, '\n') == Step(lib, core, tok, '\n');
    Serves(Parsing(lib), core, tok, '\n', core', core.request.value);
  }

  // From the last size line to the last carriage return.
  lemma TrailIsRead(lib: Lib, core: Core, fs: seq<Field>, close: Text) returns (tok: Text)
    requires core.state == Chunk(SizeLF) && core.request.Some? && core.chunkSize == 0 && core.key == "" &&
             core.value == ""
    requires GoodTrailer(lib, core.trailer, fs, close)
    ensures Leads(Parsing(lib), core, [], ['\n'] + ((FieldLines(fs) + close) + ['\r']),
            To(AfterTrailers(lib, core, fs), Trailer(TailLF)), tok)
  {
    if core.trailer == {} {
      TailStart(lib, core);
      tok := ['\r'];
      assert AfterTrailers(lib, core, fs) == core;
      assert (FieldLines(fs) + close) + ['\r'] == ['\r'];
    } else {
      TrailStart(lib, core, fs, close);
      tok := [];
    }
  }

  // The chunk of size nought, the trailer and the empty line behind it end the message.
  lemma LastIsRead(lib: Lib, core: Core, tok: Text, last: Part, fs: seq<Field>, close: Text)
    requires core.state == Chunk(SizeBefore) && core.request.Some? && core.key == "" && core.value == ""
    requires GoodTrailer(lib, core.trailer, fs, close)
    requires GoodSize(last.size, 0) && GoodExt(last.ext)
    ensures var end := AfterTrailers(lib, core, fs);
            var core' := end.(request := None, header := map[], state := Line(MethodBefore), chunkSize := 0);
            Feed(Parsing(lib), core, tok, SizeLine(last) + ((FieldLines(fs) + close) + CRLF))
              == At(core', [], [end.request.value])
  {
    var p, sized := Parsing(lib), Sized(core, 0);
    var lf := To(AfterTrailers(lib, sized, fs), Trailer(TailLF));
    var line, tail := (last.size + last.ext) + ['\r'], ['\n'] + ((FieldLines(fs) + close) + ['\r']);
    SizeIsRead(lib, core, tok, last, 0);
    var t := TrailIsRead(lib, sized, fs, close);
    LeadsOn(p, core, tok, line, sized, [], tail, lf, t);
    TailEnd(lib, lf, t);
    EndsServing(p, core, tok, line + tail, lf, t, ['\n']);
    LineText(last.size + last.ext, FieldLines(fs) + close);
  }

  lemma LineText(s: Text, lines: Text)
    ensures ((s + ['\r']) + (['\n'] + (lines + ['\r']))) + ['\n'] == (s + CRLF) + (lines + CRLF)
  {
    assert CRLF == ['\r'] + ['\n'];
  }

  // Where the first chunk begins, and where the last one does.
  function Begun(lib: Lib, core: Core, m: Message): Core {
    Headed(lib, core, m).(state := Chunk(SizeBefore), headerExists := false)
  }

  function Ended(lib: Lib, core: Core, m: Message): Core
    requires m.payload.Chunks?
  {
    var begin := Begun(lib, core, m);
    Grown(begin, AllData(m.payload.parts)).(chunkSize := SizeAfter(begin.chunkSize, m.payload.parts))
  }

  lemma ChunksAreRead(lib: Lib, core: Core, m: Message) returns (tok: Text)
    requires Idle(core) && ChunkedFor(lib, core.chunked, m)
    ensures Leads(Parsing(lib), Headed(lib, core, m), [], ['\n'] + PartsText(m.payload.parts), Ended(lib, core, m), tok)
  {
    var p, c, begin := Parsing(lib), Headed(lib, core, m), Begun(lib, core, m);
    tok := if m.payload.parts == [] then [] else CRLF;
    StepIs(lib, c, [], '\n', begin, After);
    OneByte(p, c, [], '\n', begin, After);
    PartsAreRead(lib, begin, [], m.payload.parts);
    LeadsOn(p, c, [], ['\n'], begin, [], PartsText(m.payload.parts), Ended(lib, core, m), tok);
  }

  lemma EndedIsExpected(lib: Lib, core: Core, m: Message)
    requires Idle(core) && ChunkedFor(lib, core.chunked, m)
    ensures var end := AfterTrailers(lib, Ended(lib, core, m), m.payload.trailer);
            && end.request == Some(Expected(lib, m))
            && end.(request := None, header := map[], state := Line(MethodBefore), chunkSize := 0) == Marked(core, m)
  {
    assert [] + AllData(m.payload.parts) == AllData(m.payload.parts);
  }

  lemma ChunkedText(lib: Lib, core: Core, m: Message)
    requires Idle(core) && ChunkedFor(lib, core.chunked, m)
    ensures Feed(Parsing(lib), Headed(lib, core, m), [], ['\n'] + PayloadText(m.payload))
         == At(Marked(core, m), [], [Expected(lib, m)])
  {
    var p, c, end := Parsing(lib), Headed(lib, core, m), Ended(lib, core, m);
    var first := ['\n'] + PartsText(m.payload.parts);
    var later := SizeLine(m.payload.last) + ((FieldLines(m.payload.trailer) + m.payload.close) + CRLF);
    var tok := ChunksAreRead(lib, core, m);
    EndedIsExpected(lib, core, m);
    LastIsRead(lib, end, tok, m.payload.last, m.payload.trailer, m.payload.close);
    EndsServing(p, c, [], first, end, tok, later);
    Associate(['\n'], PartsText(m.payload.parts), later);
  }

  // ------------------------------------------------------------ one message

  // A well-formed message is served as it was printed, and the parser is idle again.
  lemma MessageIsServed(lib: Lib, core: Core, m: Message)
    requires Idle(core) && GoodFor(lib, core.chunked, m)
    ensures Feed(Parsing(lib), core, [], Printed(m)) == At(Marked(core, m), [], [Expected(lib, m)])
    ensures Idle(Marked(core, m))
  {
    HeaderEnds(lib, core, m);
    var first := HeadText(m) + ['\r'];
    var later := ['\n'] + PayloadText(m.payload);
    FeedSplit(Parsing(lib), core, [], first, later);
    HeadSplits(m, PayloadText(m.payload));
    if m.payload.Plain? { PlainText(lib, core, m); } else { ChunkedText(lib, core, m); }
    assert [] + [Expected(lib, m)] == [Expected(lib, m)];
  }

  // Where a plain message without a length leaves a parser that has seen a chunked one.
  function Stuck(lib: Lib, core: Core, m: Message): Core {
    var c := HeadRead(lib, core, m);
    c.(state := Chunk(SizeBefore), request := Some(c.request.value.(contentLength := -1)),
       header := c.header - {TR}, trailer := EndOfHeader(lib, c).core.trailer, headerExists := false)
  }

  lemma EmptyLineMarked(lib: Lib, core: Core, m: Message)
    requires Idle(core) && GoodPlain(lib, m) && core.chunked
    ensures var c := HeadRead(lib, core, m);
            var a := EndOfHeader(lib, c);
            if Sizes(lib, m) then a == Fail(ErrUnexpectedContentLength, c)
            else if a.Fail? then a.err == ErrBadTrailerKey
            else a == Go(Stuck(lib, core, m).(state := Head(OverLF), headerExists := c.headerExists), After, [])
  {
  }

  lemma MarkedSteps(lib: Lib, core: Core, m: Message) returns (a: Act)
    requires Idle(core) && GoodPlain(lib, m) && core.chunked
    ensures var c := HeadRead(lib, core, m);
            && Parsing(lib).step(c, m.gaps.close, '\r') == a
            && (if Sizes(lib, m) then a == Fail(ErrUnexpectedContentLength, c)
                else if a.Fail? then a.err == ErrBadTrailerKey
                else a.keep == After && a.out == [] &&
                     Parsing(lib).step(a.core, [], '\n') == Go(Stuck(lib, core, m), After, []))
  {
    var c := HeadRead(lib, core, m);
    a := EndOfHeader(lib, c);
    EmptyLineMarked(lib, core, m);
    assert Step(lib, c, m.gaps.close, '\r') == a;
    if a.Go? { StepIs(lib, a.core, [], '\n', Stuck(lib, core, m), After); }
  }

  // A plain message after a chunked one: its length is refused, or chunks are expected.
  lemma PlainAfterChunked(lib: Lib, core: Core, m: Message)
    requires Idle(core) && GoodPlain(lib, m) && core.chunked
    ensures var p := Feed(Parsing(lib), core, [], HeadOf(m));
            if Sizes(lib, m) then p == Failed(ErrUnexpectedContentLength, HeadRead(lib, core, m), [])
            else if p.Failed? then p.err == ErrBadTrailerKey && p.out == []
            else p == At(Stuck(lib, core, m), [], [])
  {
    HeadIsRead(lib, core, m);
    EndsServing(Parsing(lib), core, [], HeadText(m), HeadRead(lib, core, m), m.gaps.close, CRLF);
    Associate(RequestLine(m), FieldLines(m.fields) + m.gaps.close, CRLF);
    var a := MarkedSteps(lib, core, m);
    TwoBytes(Parsing(lib), HeadRead(lib, core, m), m.gaps.close, a, Stuck(lib, core, m));
  }

  lemma TwoBytes(m: Machine, c: Core, tok: Text, a: Act, end: Core)
    requires m.step(c, tok, '\r') == a && (a.Go? ==> a.keep == After && a.out == [])
    requires a.Go? ==> m.step(a.core, [], '\n') == Go(end, After, [])
    ensures Feed(m, c, tok, CRLF) == if a.Fail? then Failed(a.err, a.core, []) else At(end, [], [])
  {
    assert CRLF == ['\r'] + ['\n'];
    if a.Go? {
      OneByte(m, c, tok, '\r', a.core, After);
      OneByte(m, a.core, [], '\n', end, After);
      LeadsOn(m, c, tok, ['\r'], a.core, [], ['\n'], end, []);
    } else {
      FeedSplit(m, c, tok, ['\r'], ['\n']);
    }
  }

  // So a well-formed message is served, as soon as it is complete, exactly if it is chunked
  // itself or no message on the connection was chunked before it.
  lemma ServedExactlyUnlessMarked(lib: Lib, core: Core, m: Message)
    requires Idle(core) && Good(lib, m)
    ensures Feed(Parsing(lib), core, [], Printed(m)).out == [Expected(lib, m)] <==> m.payload.Chunks? || !core.chunked
  {
    if m.payload.Chunks? || !core.chunked {
      MessageIsServed(lib, core, m);
    } else {
      PlainAfterChunked(lib, core, m);
      FeedSplit(Parsing(lib), core, [], HeadOf(m), m.payload.text);
      assert m.payload.text == "" ==> Feed(Parsing(lib), Stuck(lib, core, m), [], m.payload.text).out == [];
    }
  }

  // ------------------------------------------------------------ pipelines

  function AllPrinted(ms: seq<Message>): Text {
    if ms == [] then "" else Printed(ms[0]) + AllPrinted(ms[1..])
  }

  function AllExpected(lib: Lib, ms: seq<Message>): seq<Request> {
    if ms == [] then [] else [Expected(lib, ms[0])] + AllExpected(lib, ms[1..])
  }

  // Messages that are well formed for a parser that is marked as soon as one of them is chunked.
  predicate GoodRun(lib: Lib, marked: bool, ms: seq<Message>)
    decreases |ms|
  {
    ms == [] || (GoodFor(lib, marked, ms[0]) && GoodRun(lib, marked || ms[0].payload.Chunks?, ms[1..]))
  }

  lemma {:induction false} PipelineIsServed(lib: Lib, core: Core, ms: seq<Message>)
    requires Idle(core) && GoodRun(lib, core.chunked, ms)
    ensures var p := Feed(Parsing(lib), core, [], AllPrinted(ms));
            p.At? && Idle(p.core) && p.tok == [] && p.out == AllExpected(lib, ms)
    decreases |ms|
  {
    if ms != [] {
      var m, later := ms[0], ms[1..];
      MessageIsServed(lib, core, m);
      PipelineIsServed(lib, Marked(core, m), later);
      FeedSplit(Parsing(lib), core, [], Printed(m), AllPrinted(later));
    }
  }

  // A parser that waits for a message, its cache given up: however the network cuts a
  // pipeline of messages, if no read is refused as too long, as none is when all of it fits the
  // limit, reading the pieces serves those messages and leaves such a parser.
  lemma PipelineOnUsedParser(lib: Lib, limit: nat, p: ParserState, ms: seq<Message>, chunks: seq<Text>)
    requires Idle(p.core) && p.cache == None
    requires GoodRun(lib, p.core.chunked, ms)
    requires Concat(chunks) == AllPrinted(ms)
    requires |AllPrinted(ms)| <= limit || ReadAll(Parsing(lib), limit, p, chunks).err != Some(ErrTooLong)
    ensures var r := ReadAll(Parsing(lib), limit, p, chunks);
            r.err == None && r.out == AllExpected(lib, ms) && Idle(r.parser.core) && r.parser.cache == None
  {
    PipelineIsServed(lib, p.core, ms);
    ParsingIsSound(lib);
    if |AllPrinted(ms)| <= limit { SmallIsNotRefused(Parsing(lib), limit, p, chunks); }
    ChunksDoNotMatter(Parsing(lib), limit, p, chunks);
  }
}
