// Printed requests come out of the parser as they went in: pipelined with plain bodies,
// and one at a time with chunked ones.

module HttpRoundTrip {
  import opened Basics
  import opened HttpModel
  import opened HttpParser

  // ------------------------------------------------------------ printing

  // A field of the header: what stands in front of its name and behind it, and the blanks in
  // front of its value.
  datatype Field = Field(pre: Text, name: Text, tail: Text, gap: Text, value: Text)

  // A chunk: its size in hexadecimal, an extension, and the data.
  datatype Part = Part(size: Text, ext: Text, data: Text)

  // The trailer may have something in front of its empty line.
  datatype Payload =
    | Plain(text: Text)
    | Chunks(parts: seq<Part>, last: Part, trailer: seq<Field>, close: Text)

  // More blanks than there have to be: before the URI, before the version, and before the empty
  // line; and what stands behind the version.
  datatype Gaps = Gaps(uri: Text, proto: Text, end: Text, close: Text)

  datatype Message = Message(verb: Text, uri: Text, proto: Text, gaps: Gaps, fields: seq<Field>, payload: Payload)

  const CRLF := "\r\n"

  function RequestLine(m: Message): Text {
    (m.verb + " ") + ((m.gaps.uri + (m.uri + " ")) + (m.gaps.proto + ((m.proto + m.gaps.end) + CRLF)))
  }

  function FieldLine(f: Field): Text {
    (f.pre + ((f.name + f.tail) + ":")) + ((f.gap + (f.value + "\r")) + "\n")
  }

  function FieldLines(fs: seq<Field>): Text {
    if fs == [] then "" else FieldLine(fs[0]) + FieldLines(fs[1..])
  }

  function HeadOf(m: Message): Text {
    RequestLine(m) + ((FieldLines(m.fields) + m.gaps.close) + CRLF)
  }

  function SizeLine(p: Part): Text {
    (p.size + p.ext) + CRLF
  }

  function PartText(p: Part): Text {
    SizeLine(p) + (p.data + CRLF)
  }

  function PartsText(ps: seq<Part>): Text {
    if ps == [] then "" else PartText(ps[0]) + PartsText(ps[1..])
  }

  function PayloadText(p: Payload): Text {
    match p
    case Plain(text) => text
    case Chunks(parts, last, trailer, close) =>
      PartsText(parts) + (SizeLine(last) + ((FieldLines(trailer) + close) + CRLF))
  }

  function Printed(m: Message): Text {
    HeadOf(m) + PayloadText(m.payload)
  }

  // ------------------------------------------------------------ what is well formed

  predicate Blanks(s: Text) { forall c :: c in s ==> c == ' ' }

  // The value that the request gets: the blanks, if there is nothing behind them.
  function Given(f: Field): Text { if f.value == "" then f.gap else f.value }

  // Behind a name and a blank only blanks and characters of names.
  predicate GoodTail(lib: Lib, f: Field) {
    f.tail == "" ||
      (f.tail[0] == ' ' && (forall c :: c in f.tail ==> c == ' ' || IsToken(c)) && lib.canonical(f.name) != "")
  }

  predicate GoodName(lib: Lib, f: Field) {
    f.name != "" && IsAlpha(f.name[0]) && (forall c :: c in f.name ==> IsToken(c)) && GoodTail(lib, f)
  }

  predicate GoodField(lib: Lib, f: Field) {
    && Blanks(f.pre) && GoodName(lib, f)
    && Blanks(f.gap) && '\r' !in f.value && '\n' !in f.value && (f.value != "" ==> f.value[0] != ' ')
  }

  // The first field begins its line, and there are no blanks before the empty line without one.
  predicate GoodFields(lib: Lib, fs: seq<Field>, close: Text) {
    && (forall f :: f in fs ==> GoodField(lib, f)) && Blanks(close)
    && if fs == [] then close == "" else fs[0].pre == ""
  }

  // What follows a version is passed over from a blank on.
  predicate GoodEnd(end: Text) { end != "" ==> end[0] == ' ' && '\r' !in end }

  predicate GoodLine(lib: Lib, m: Message) {
    && ValidMethod(Upper(m.verb))
    && m.uri != "" && (m.uri[0] == '/' || m.uri[0] == '*') && ' ' !in m.uri && lib.uriOk(m.uri)
    && Blanks(m.gaps.uri) && Blanks(m.gaps.proto) && GoodEnd(m.gaps.end)
    && m.proto != "" && ' ' !in m.proto && '\r' !in m.proto[1..] && lib.versionOk(m.proto)
  }

  predicate GoodHead(lib: Lib, m: Message) { GoodLine(lib, m) && GoodFields(lib, m.fields, m.gaps.close) }

  // The header of the request, and the three fields the parser keeps for itself.
  function HeaderFrom(lib: Lib, h: Header, fs: seq<Field>): Header
    decreases |fs|
  {
    if fs == [] then h else HeaderFrom(lib, Add(h, lib.canonical(fs[0].name), Given(fs[0])), fs[1..])
  }

  function KeptFrom(lib: Lib, h: Header, fs: seq<Field>): Header
    decreases |fs|
  {
    if fs == [] then h
    else
      var key := lib.canonical(fs[0].name);
      KeptFrom(lib, if key == TE || key == TR || key == CL then Add(h, key, Given(fs[0])) else h, fs[1..])
  }

  // ------------------------------------------------------------ steps

  // The bytes `data` take the parser from one state to another, and nothing is handed over.
  ghost predicate Leads(m: Machine, core: Core, tok: Text, data: Text, core': Core, tok': Text) {
    Feed(m, core, tok, data) == At(core', tok', [])
  }

  lemma LeadsOn(m: Machine, c0: Core, t0: Text, a: Text, c1: Core, t1: Text, b: Text, c2: Core, t2: Text)
    requires Leads(m, c0, t0, a, c1, t1) && Leads(m, c1, t1, b, c2, t2)
    ensures Leads(m, c0, t0, a + b, c2, t2)
  {
    FeedSplit(m, c0, t0, a, b);
  }

  lemma OneByte(m: Machine, core: Core, tok: Text, c: char, core': Core, keep: Keep)
    requires m.step(core, tok, c) == Go(core', keep, [])
    ensures Leads(m, core, tok, [c], core', Kept(keep, tok, c))
  {
    assert [c][1..] == [];
    assert Feed(m, core', Kept(keep, tok, c), []) == At(core', Kept(keep, tok, c), []);
  }

  // In this state the byte is only added to what is held.
  ghost predicate Stays(m: Machine, core: Core, c: char) {
    forall tok :: m.step(core, tok, c) == Stay(core)
  }

  lemma {:induction false} Run(m: Machine, core: Core, tok: Text, data: Text)
    requires forall c :: c in data ==> Stays(m, core, c)
    ensures Leads(m, core, tok, data, core, tok + data)
    decreases |data|
  {
    if data == [] {
      assert tok + data == tok;
    } else {
      assert data[0] in data && m.step(core, tok, data[0]) == Stay(core);
      Run(m, core, tok + [data[0]], data[1..]);
      assert tok + [data[0]] + data[1..] == tok + data;
    }
  }

  // The start of a word moves on to `mid`, and the rest of it is held there.
  lemma WordStart(m: Machine, core: Core, tok: Text, word: Text, mid: Core)
    requires word != "" && m.step(core, tok, word[0]) == Go(mid, Here, [])
    requires forall c :: c in word[1..] ==> Stays(m, mid, c)
    ensures Leads(m, core, tok, word, mid, word)
  {
    OneByte(m, core, tok, word[0], mid, Here);
    Run(m, mid, [word[0]], word[1..]);
    assert [word[0]] + word[1..] == word;
    LeadsOn(m, core, tok, [word[0]], mid, [word[0]], word[1..], mid, word);
  }

  // A word and the byte that ends it.
  lemma Word(m: Machine, core: Core, tok: Text, word: Text, mid: Core, last: char, core': Core, keep: Keep)
    requires word != "" && m.step(core, tok, word[0]) == Go(mid, Here, [])
    requires forall c :: c in word[1..] ==> Stays(m, mid, c)
    requires m.step(mid, word, last) == Go(core', keep, [])
    ensures Leads(m, core, tok, word + [last], core', Kept(keep, word, last))
  {
    WordStart(m, core, tok, word, mid);
    OneByte(m, mid, word, last, core', keep);
    LeadsOn(m, core, tok, word, mid, word, [last], core', Kept(keep, word, last));
  }

  lemma StaysIf(lib: Lib, core: Core, c: char)
    requires Ready(core) && forall tok :: Step(lib, core, tok, c) == Stay(core)
    ensures Stays(Parsing(lib), core, c)
  {
    forall tok
      ensures Parsing(lib).step(core, tok, c) == Stay(core)
    {
      assert Step(lib, core, tok, c) == Stay(core);
    }
  }

  // What one byte does, as the parser's own step.
  lemma StepIs(lib: Lib, core: Core, tok: Text, c: char, core': Core, keep: Keep)
    requires Ready(core) && Step(lib, core, tok, c) == Go(core', keep, [])
    ensures Parsing(lib).step(core, tok, c) == Go(core', keep, [])
  {
  }

  predicate BeforeWord(s: State) {
    s == Line(PathBefore) || s == Line(ProtoBefore) || s == Head(ValueBefore) || s == Trailer(TValueBefore)
  }

  // Where blanks may stand.
  predicate Between(core: Core) {
    BeforeWord(core.state) || (core.state == Head(KeyBefore) && core.headerExists)
  }

  // The blanks in front of a word are held until it begins.
  lemma GapIsHeld(lib: Lib, core: Core, gap: Text)
    requires Ready(core) && Blanks(gap) && Between(core)
    ensures Leads(Parsing(lib), core, [], gap, core, gap)
  {
    forall c | c in gap
      ensures Stays(Parsing(lib), core, c)
    {
      StaysIf(lib, core, c);
    }
    Run(Parsing(lib), core, [], gap);
    assert [] + gap == gap;
  }

  // ------------------------------------------------------------ the request line

  // Between two messages.
  predicate Idle(core: Core) {
    && core.state == Line(MethodBefore) && core.request == None && core.proto == "" && core.key == ""
    && core.value == "" && core.header == map[] && core.trailer == {} && !core.headerExists
  }

  lemma MethodLetters(s: Text)
    requires ValidMethod(Upper(s))
    ensures s != "" && IsMethodChar(s[0]) && forall c :: c in s ==> IsAlpha(c)
  {
    forall c | c in s
      ensures IsAlpha(c)
    {
      var i :| 0 <= i < |s| && s[i] == c;
      assert Upper(s)[i] == ToUpper(c);
    }
    assert Upper(s)[0] == ToUpper(s[0]);
  }

  function AfterMethod(core: Core, verb: Text): Core {
    To(OnMethod(core, Upper(verb)), Line(PathBefore))
  }

  lemma MethodWord(lib: Lib, core: Core, tok: Text, m: Message)
    requires Idle(core) && GoodLine(lib, m)
    ensures Leads(Parsing(lib), core, tok, m.verb + " ", AfterMethod(core, m.verb), [])
  {
    MethodLetters(m.verb);
    forall c | c in m.verb
      ensures Stays(Parsing(lib), To(core, Line(Method)), c)
    {
      StaysIf(lib, To(core, Line(Method)), c);
    }
    StepIs(lib, core, tok, m.verb[0], To(core, Line(Method)), Here);
    StepIs(lib, To(core, Line(Method)), m.verb, ' ', AfterMethod(core, m.verb), After);
    Word(Parsing(lib), core, tok, m.verb, To(core, Line(Method)), ' ', AfterMethod(core, m.verb), After);
  }

  function AfterUri(core: Core, uri: Text): Core
    requires core.request.Some?
  {
    To(core.(request := Some(core.request.value.(uri := uri))), Line(ProtoBefore))
  }

  lemma UriWord(lib: Lib, core: Core, m: Message)
    requires core.state == Line(PathBefore) && core.request.Some? && GoodLine(lib, m)
    ensures Leads(Parsing(lib), core, [], m.gaps.uri + (m.uri + " "), AfterUri(core, m.uri), [])
  {
    var gap := m.gaps.uri;
    forall c | c in m.uri
      ensures Stays(Parsing(lib), To(core, Line(Path)), c)
    {
      StaysIf(lib, To(core, Line(Path)), c);
    }
    GapIsHeld(lib, core, gap);
    StepIs(lib, core, gap, m.uri[0], To(core, Line(Path)), Here);
    StepIs(lib, To(core, Line(Path)), m.uri, ' ', AfterUri(core, m.uri), After);
    Word(Parsing(lib), core, gap, m.uri, To(core, Line(Path)), ' ', AfterUri(core, m.uri), After);
    LeadsOn(Parsing(lib), core, [], gap, core, gap, m.uri + " ", AfterUri(core, m.uri), []);
  }

  function AfterProto(core: Core, proto: Text): Core
    requires core.request.Some?
  {
    To(core.(request := Some(core.request.value.(proto := proto)), proto := ""), Head(KeyBefore))
  }

  lemma FirstBlank(lib: Lib, core: Core, proto: Text)
    requires core.state == Line(Proto) && core.request.Some? && core.proto == ""
    ensures Leads(Parsing(lib), core, proto, [' '], core.(proto := proto), proto + [' '])
  {
    StepIs(lib, core, proto, ' ', core.(proto := proto), Same);
    OneByte(Parsing(lib), core, proto, ' ', core.(proto := proto), Same);
  }

  lemma PassedOver(lib: Lib, core: Core, tok: Text, junk: Text)
    requires core.state == Line(Proto) && core.request.Some? && core.proto != "" && '\r' !in junk
    ensures Leads(Parsing(lib), core, tok, junk, core, tok + junk)
  {
    forall c | c in junk
      ensures Stays(Parsing(lib), core, c)
    {
      StaysIf(lib, core, c);
    }
    Run(Parsing(lib), core, tok, junk);
  }

  // Behind the version: the first blank fixes it, and the rest is passed over.
  lemma EndBehind(lib: Lib, core: Core, proto: Text, end: Text)
    requires core.state == Line(Proto) && core.request.Some? && core.proto == "" && proto != "" && GoodEnd(end) &&
             end != ""
    ensures Leads(Parsing(lib), core, proto, end, core.(proto := proto), proto + end)
  {
    var fixed := core.(proto := proto);
    assert end == [' '] + end[1..] && forall c :: c in end[1..] ==> c in end;
    Associate(proto, [' '], end[1..]);
    FirstBlank(lib, core, proto);
    PassedOver(lib, fixed, proto + [' '], end[1..]);
    LeadsOn(Parsing(lib), core, proto, [' '], fixed, proto + [' '], end[1..], fixed, proto + end);
  }

  lemma LineEnds(lib: Lib, core: Core, m: Message, tok: Text)
    requires core.state == Line(Proto) && core.request.Some? && GoodLine(lib, m)
    requires if core.proto == "" then tok == m.proto else core.proto == m.proto
    ensures Leads(Parsing(lib), core, tok, CRLF, AfterProto(core, m.proto), [])
  {
    var p, lf := Parsing(lib), To(AfterProto(core, m.proto), Line(ProtoLF));
    StepIs(lib, core, tok, '\r', lf, Same);
    OneByte(p, core, tok, '\r', lf, Same);
    StepIs(lib, lf, tok + ['\r'], '\n', AfterProto(core, m.proto), After);
    OneByte(p, lf, tok + ['\r'], '\n', AfterProto(core, m.proto), After);
    LeadsOn(p, core, tok, ['\r'], lf, tok + ['\r'], ['\n'], AfterProto(core, m.proto), []);
    assert CRLF == ['\r'] + ['\n'];
  }

  // The end of the line.
  lemma ProtoEnds(lib: Lib, core: Core, m: Message)
    requires core.state == Line(Proto) && core.request.Some? && core.proto == "" && GoodLine(lib, m)
    ensures Leads(Parsing(lib), core, m.proto, m.gaps.end + CRLF, AfterProto(core, m.proto), [])
  {
    var end, fixed := m.gaps.end, core.(proto := m.proto);
    if end == "" {
      LineEnds(lib, core, m, m.proto);
      assert end + CRLF == CRLF;
    } else {
      EndBehind(lib, core, m.proto, end);
      LineEnds(lib, fixed, m, m.proto + end);
      assert AfterProto(fixed, m.proto) == AfterProto(core, m.proto);
      LeadsOn(Parsing(lib), core, m.proto, end, fixed, m.proto + end, CRLF, AfterProto(core, m.proto), []);
    }
  }

  lemma ProtoWord(lib: Lib, core: Core, m: Message)
    requires core.state == Line(ProtoBefore) && core.request.Some? && core.proto == "" && GoodLine(lib, m)
    ensures Leads(Parsing(lib), core, [], m.gaps.proto + ((m.proto + m.gaps.end) + CRLF), AfterProto(core, m.proto), [])
  {
    var p, gap, mid := Parsing(lib), m.gaps.proto, To(core, Line(Proto));
    forall c | c in m.proto[1..]
      ensures Stays(p, mid, c)
    {
      assert c in m.proto;
      StaysIf(lib, mid, c);
    }
    GapIsHeld(lib, core, gap);
    StepIs(lib, core, gap, m.proto[0], mid, Here);
    WordStart(p, core, gap, m.proto, mid);
    ProtoEnds(lib, mid, m);
    assert AfterProto(mid, m.proto) == AfterProto(core, m.proto);
    LeadsOn(p, core, gap, m.proto, mid, m.proto, m.gaps.end + CRLF, AfterProto(core, m.proto), []);
    Associate(m.proto, m.gaps.end, CRLF);
    LeadsOn(p, core, [], gap, core, gap, (m.proto + m.gaps.end) + CRLF, AfterProto(core, m.proto), []);
  }

  function Started(lib: Lib, core: Core, m: Message): Core {
    core.(state := Head(KeyBefore),
          request := Some(Request(Upper(m.verb), m.uri, m.proto, map[], 0, None, map[])))
  }

  lemma LineIsRead(lib: Lib, core: Core, m: Message)
    requires Idle(core) && GoodLine(lib, m)
    ensures Leads(Parsing(lib), core, [], RequestLine(m), Started(lib, core, m), [])
  {
    var c1 := AfterMethod(core, m.verb);
    var c2 := AfterUri(c1, m.uri);
    var c3 := AfterProto(c2, m.proto);
    assert c3 == Started(lib, core, m);
    MethodWord(lib, core, [], m);
    UriWord(lib, c1, m);
    ProtoWord(lib, c2, m);
    var uri, proto := m.gaps.uri + (m.uri + " "), m.gaps.proto + ((m.proto + m.gaps.end) + CRLF);
    LeadsOn(Parsing(lib), c1, [], uri, c2, [], proto, c3, []);
    LeadsOn(Parsing(lib), core, [], m.verb + " ", c1, [], uri + proto, c3, []);
  }

  // ------------------------------------------------------------ the header

  // Where names of fields are read, in a header and in a trailer.
  predicate InName(s: State) { s == Head(Key) || s == Trailer(TKey) }

  // The name without a tail, or with its key known.
  lemma NameRuns(lib: Lib, core: Core, tok: Text, word: Text)
    requires InName(core.state) && Ready(core) && (forall c :: c in word ==> IsToken(c) || (c == ' ' && core.key != ""))
    ensures Leads(Parsing(lib), core, tok, word, core, tok + word)
  {
    forall c | c in word
      ensures Stays(Parsing(lib), core, c)
    {
      StaysIf(lib, core, c);
    }
    Run(Parsing(lib), core, tok, word);
  }

  function Named(lib: Lib, core: Core, f: Field): Core { core.(key := lib.canonical(f.name)) }

  // The key once the tail is read: known if there is a tail.
  function Tailed(lib: Lib, core: Core, f: Field): Core { if f.tail == "" then core else Named(lib, core, f) }

  // Behind the name a blank fixes it, and the rest is passed over.
  lemma TailIsRead(lib: Lib, core: Core, f: Field)
    requires InName(core.state) && Ready(core) && core.key == "" && GoodName(lib, f)
    ensures Leads(Parsing(lib), core, f.name, f.tail, Tailed(lib, core, f), f.name + f.tail)
  {
    if f.tail == "" {
      NameRuns(lib, core, f.name, f.tail);
    } else {
      var known := Named(lib, core, f);
      assert f.tail == [' '] + f.tail[1..] && forall c :: c in f.tail[1..] ==> c in f.tail;
      StepIs(lib, core, f.name, ' ', known, Same);
      OneByte(Parsing(lib), core, f.name, ' ', known, Same);
      NameRuns(lib, known, f.name + [' '], f.tail[1..]);
      Associate(f.name, [' '], f.tail[1..]);
      LeadsOn(Parsing(lib), core, f.name, [' '], known, f.name + [' '], f.tail[1..], known, f.name + f.tail);
    }
  }

  // The state in which values are read.
  function ValueNext(s: State): State { if s.Head? then Head(ValueBefore) else Trailer(TValueBefore) }

  lemma ColonIsRead(lib: Lib, core: Core, f: Field)
    requires InName(core.state) && Ready(core) && core.key == "" && GoodName(lib, f)
    ensures Leads(Parsing(lib), core, f.name, f.tail + ":", To(Named(lib, core, f), ValueNext(core.state)), [])
  {
    var mid, end := Tailed(lib, core, f), To(Named(lib, core, f), ValueNext(core.state));
    TailIsRead(lib, core, f);
    assert f.tail == "" ==> f.name + f.tail == f.name;
    StepIs(lib, mid, f.name + f.tail, ':', end, After);
    OneByte(Parsing(lib), mid, f.name + f.tail, ':', end, After);
    LeadsOn(Parsing(lib), core, f.name, f.tail, mid, f.name + f.tail, ":", end, []);
  }

  // From the first letter of a name to the colon.
  lemma WholeName(lib: Lib, core: Core, tok: Text, f: Field, mid: Core)
    requires GoodName(lib, f) && Ready(core) && Step(lib, core, tok, f.name[0]) == Go(mid, Here, [])
    requires InName(mid.state) && mid.key == ""
    ensures Leads(Parsing(lib), core, tok, (f.name + f.tail) + ":", To(Named(lib, mid, f), ValueNext(mid.state)), [])
  {
    var p, end := Parsing(lib), To(Named(lib, mid, f), ValueNext(mid.state));
    StepIs(lib, core, tok, f.name[0], mid, Here);
    OneByte(p, core, tok, f.name[0], mid, Here);
    NameRuns(lib, mid, [f.name[0]], f.name[1..]);
    assert [f.name[0]] + f.name[1..] == f.name;
    LeadsOn(p, core, tok, [f.name[0]], mid, [f.name[0]], f.name[1..], mid, f.name);
    ColonIsRead(lib, mid, f);
    LeadsOn(p, core, tok, f.name, mid, f.name, f.tail + ":", end, []);
    Associate(f.name, f.tail, ":");
  }

  function AfterName(lib: Lib, core: Core, f: Field): Core {
    To(core, Head(ValueBefore)).(headerExists := true, key := lib.canonical(f.name))
  }

  lemma NameIsRead(lib: Lib, core: Core, f: Field)
    requires core.state == Head(KeyBefore) && core.request.Some? && core.key == "" && GoodField(lib, f)
    requires f.pre != "" ==> core.headerExists
    ensures Leads(Parsing(lib), core, [], f.pre + ((f.name + f.tail) + ":"), AfterName(lib, core, f), [])
  {
    var p, mid, end := Parsing(lib), To(core, Head(Key)).(headerExists := true), AfterName(lib, core, f);
    if f.pre != "" {
      GapIsHeld(lib, core, f.pre);
    } else {
      Run(p, core, [], f.pre);
    }
    WholeName(lib, core, f.pre, f, mid);
    LeadsOn(p, core, [], f.pre, core, f.pre, (f.name + f.tail) + ":", end, []);
  }

  lemma ValueWord(lib: Lib, core: Core, f: Field)
    requires core.state == Head(ValueBefore) && core.request.Some? && core.value == "" && GoodField(lib, f) &&
             f.value != ""
    ensures Leads(Parsing(lib), core, f.gap, f.value + "\r", To(OnHeader(core, f.value), Head(ValueLF)), [])
  {
    var mid, lf := To(core, Head(Value)), To(OnHeader(core, f.value), Head(ValueLF));
    forall c | c in f.value
      ensures Stays(Parsing(lib), mid, c)
    {
      StaysIf(lib, mid, c);
    }
    StepIs(lib, core, f.gap, f.value[0], mid, Here);
    StepIs(lib, mid, f.value, '\r', lf, After);
    Word(Parsing(lib), core, f.gap, f.value, mid, '\r', lf, After);
  }

  lemma NoValue(lib: Lib, core: Core, f: Field)
    requires core.state == Head(ValueBefore) && core.request.Some? && core.value == "" && GoodField(lib, f) &&
             f.value == ""
    ensures Leads(Parsing(lib), core, f.gap, f.value + "\r", To(OnHeader(core, f.gap), Head(ValueLF)), [])
  {
    var lf := To(OnHeader(core, f.gap), Head(ValueLF));
    StepIs(lib, core, f.gap, '\r', lf, After);
    OneByte(Parsing(lib), core, f.gap, '\r', lf, After);
    assert f.value + "\r" == "\r";
  }

  lemma ValueIsRead(lib: Lib, core: Core, f: Field)
    requires core.state == Head(ValueBefore) && core.request.Some? && core.value == "" && GoodField(lib, f)
    ensures Leads(Parsing(lib), core, [], (f.gap + (f.value + "\r")) + "\n",
            To(OnHeader(core, Given(f)), Head(KeyBefore)), [])
  {
    var lf := To(OnHeader(core, Given(f)), Head(ValueLF));
    var end := To(OnHeader(core, Given(f)), Head(KeyBefore));
    GapIsHeld(lib, core, f.gap);
    if f.value == "" { NoValue(lib, core, f); } else { ValueWord(lib, core, f); }
    StepIs(lib, lf, [], '\n', end, After);
    OneByte(Parsing(lib), lf, [], '\n', end, After);
    LeadsOn(Parsing(lib), core, [], f.gap, core, f.gap, f.value + "\r", lf, []);
    LeadsOn(Parsing(lib), core, [], f.gap + (f.value + "\r"), lf, [], "\n", end, []);
  }

  function AfterFields(lib: Lib, core: Core, fs: seq<Field>): Core
    requires core.request.Some?
  {
    var r := core.request.value;
    core.(request := Some(r.(header := HeaderFrom(lib, r.header, fs))),
          header := KeptFrom(lib, core.header, fs), headerExists := core.headerExists || fs != [])
  }

  // The blanks in front of names, from some field on.
  predicate MayFollow(core: Core, fs: seq<Field>) { fs != [] && fs[0].pre != "" ==> core.headerExists }

  lemma {:induction false} FieldsAreRead(lib: Lib, core: Core, fs: seq<Field>)
    requires core.state == Head(KeyBefore) && core.request.Some? && core.key == "" && core.value == ""
    requires (forall f :: f in fs ==> GoodField(lib, f)) && MayFollow(core, fs)
    ensures Leads(Parsing(lib), core, [], FieldLines(fs), AfterFields(lib, core, fs), [])
    decreases |fs|
  {
    if fs != [] {
      var f := fs[0];
      assert GoodField(lib, f);
      var named := AfterName(lib, core, f);
      var next := To(OnHeader(named, Given(f)), Head(KeyBefore));
      NameIsRead(lib, core, f);
      ValueIsRead(lib, named, f);
      LeadsOn(Parsing(lib), core, [], f.pre + ((f.name + f.tail) + ":"), named, [],
        (f.gap + (f.value + "\r")) + "\n", next, []);
      FieldsAreRead(lib, next, fs[1..]);
      assert AfterFields(lib, next, fs[1..]) == AfterFields(lib, core, fs);
      LeadsOn(Parsing(lib), core, [], FieldLine(f), next, [], FieldLines(fs[1..]), AfterFields(lib, core, fs), []);
    }
  }

  // The request once its line and its fields are read.
  function HeadRead(lib: Lib, core: Core, m: Message): Core {
    AfterFields(lib, Started(lib, core, m), m.fields)
  }

  lemma HeadIsRead(lib: Lib, core: Core, m: Message)
    requires Idle(core) && GoodHead(lib, m)
    ensures Leads(Parsing(lib), core, [], RequestLine(m) + (FieldLines(m.fields) + m.gaps.close),
            HeadRead(lib, core, m),
              m.gaps.close)
  {
    var p, start, end := Parsing(lib), Started(lib, core, m), HeadRead(lib, core, m);
    LineIsRead(lib, core, m);
    FieldsAreRead(lib, start, m.fields);
    if m.fields == [] {
      Run(p, end, [], m.gaps.close);
    } else {
      GapIsHeld(lib, end, m.gaps.close);
    }
    LeadsOn(p, start, [], FieldLines(m.fields), end, [], m.gaps.close, end, m.gaps.close);
    LeadsOn(p, core, [], RequestLine(m), start, [], FieldLines(m.fields) + m.gaps.close, end, m.gaps.close);
  }
}
