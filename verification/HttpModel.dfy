// The HTTP/1.1 request parser of httpd/parser.go, one byte at a time. A byte is a char.

module HttpModel {
  import opened Basics

  type Text = seq<char>

  // Library functions the parser calls; nothing is assumed of them.
  datatype Lib = Lib(
    uriOk: Text -> bool,        // url.ParseRequestURI succeeds
    versionOk: Text -> bool,    // http.ParseHTTPVersion succeeds
    canonical: Text -> Text)    // http.CanonicalHeaderKey

  // ------------------------------------------------------------ characters

  predicate IsNum(c: char) { '0' <= c <= '9' }

  predicate IsAlpha(c: char) { 'A' <= c <= 'Z' || 'a' <= c <= 'z' }

  predicate IsHex(c: char) { IsNum(c) || 'A' <= c <= 'F' || 'a' <= c <= 'f' }

  predicate IsToken(c: char) {
    IsNum(c) || IsAlpha(c) ||
    c in ['!', '#', '$', '%', '&', '\'', '*', '+', '-', '.', '^', '_', '`', '|', '~']
  }

  function ToUpper(c: char): char { if 'a' <= c <= 'z' then c - 32 as char else c }

  function ToLower(c: char): char { if 'A' <= c <= 'Z' then c + 32 as char else c }

  function Upper(s: Text): Text { seq(|s|, i requires 0 <= i < |s| => ToUpper(s[i])) }

  function Lower(s: Text): Text { seq(|s|, i requires 0 <= i < |s| => ToLower(s[i])) }

  const METHODS := {"OPTIONS", "GET", "HEAD", "POST", "PUT", "DELETE", "TRACE", "CONNECT", "PRI"}

  predicate ValidMethod(m: Text) { m in METHODS }

  // A letter of one of the methods, in either case.
  predicate IsMethodChar(c: char) {
    ToUpper(c) in ['A', 'C', 'D', 'E', 'G', 'H', 'I', 'L', 'N', 'O', 'P', 'R', 'S', 'T', 'U']
  }

  predicate IsSpace(c: char) { c == ' ' || c == '\t' || c == '\r' || c == '\n' }

  function Trim(s: Text): Text {
    if s == [] then []
    else if IsSpace(s[0]) then Trim(s[1..])
    else if IsSpace(s[|s| - 1]) then Trim(s[..|s| - 1])
    else s
  }

  // ------------------------------------------------------------ numbers

  const MAX63 := 0x4000_0000_0000_0000  // ParseInt with 63 bits

  function Digit(c: char): int {
    if IsNum(c) then c as int - '0' as int
    else if 'a' <= c <= 'f' then c as int - 'a' as int + 10
    else if 'A' <= c <= 'F' then c as int - 'A' as int + 10
    else 99
  }

  function Digits(s: Text, base: int): Option<int>
    decreases |s|
  {
    if s == [] then Some(0)
    else
      var above := Digits(s[..|s| - 1], base);
      var d := Digit(s[|s| - 1]);
      if above == None || d >= base then None else Some(above.value * base + d)
  }

  // strconv.ParseInt(s, base, 63)
  function ParseInt(s: Text, base: int): Option<int> {
    var signed := s != [] && (s[0] == '+' || s[0] == '-');
    var digits := if signed then s[1..] else s;
    var n := Digits(digits, base);
    if digits == [] || n == None then None
    else if signed && s[0] == '-' then (if n.value <= MAX63 then Some(-n.value) else None)
    else if n.value < MAX63 then Some(n.value)
    else None
  }

  // ------------------------------------------------------------ parser state

  type Header = map<Text, seq<Text>>

  datatype Request = Request(
    verb: Text, uri: Text, proto: Text, header: Header,
    contentLength: int, body: Option<Text>, trailer: Header)

  datatype LineState = MethodBefore | Method | PathBefore | Path | ProtoBefore | Proto | ProtoLF

  datatype HeadState = KeyBefore | Key | ValueBefore | Value | ValueLF | OverLF

  datatype ChunkState = SizeBefore | Size | SizeLF | DataCR | DataLF

  datatype TrailerState = TKeyBefore | TKey | TValueBefore | TValue | TValueLF | TailCR | TailLF

  datatype State =
    | Close
    | Line(line: LineState)
    | Head(head: HeadState)
    | Body
    | Chunk(chunk: ChunkState)
    | ChunkData
    | Trailer(trailer: TrailerState)

  datatype Core = Core(
    state: State, request: Option<Request>, proto: Text, key: Text, value: Text,
    header: Header, trailer: set<Text>, chunkSize: int, chunked: bool, headerExists: bool)

  datatype Error =
    | ErrClosed | ErrTooLong
    | ErrInvalidMethod | ErrInvalidRequestURI | ErrURI | ErrVersion | ErrLFExpected | ErrCRExpected
    | ErrInvalidCharInHeader | ErrTransferEncodings | ErrTransferEncoding
    | ErrUnexpectedContentLength | ErrBadContentLength | ErrNegativeContentLength
    | ErrBadTrailerKey | ErrInvalidChunkSize | ErrChunkSize | ErrTrailerExpected | ErrInvalidTrailer

  // What stays of the bytes since `start`: all of them and this one, this one, or nothing.
  datatype Keep = Same | Here | After

  datatype Act =
    | Fail(err: Error, core: Core)
    | Go(core: Core, keep: Keep, out: seq<Request>)

  // A byte never closes the parser, and only a whole read is too long.
  predicate Open(a: Act) {
    a.core.state != Close && (a.Fail? ==> a.err != ErrTooLong)
  }

  function To(core: Core, s: State): Core { core.(state := s) }

  function Stay(core: Core): Act { Go(core, Same, []) }

  // From statePathBefore until the message is complete there is a request to fill in.
  predicate NeedsRequest(s: State) {
    !s.Close? && s != Line(MethodBefore) && s != Line(Method)
  }

  // How many body bytes the state waits for, or 0 outside bodies.
  function Wanted(core: Core): int {
    if core.state == Body && core.request.Some? then core.request.value.contentLength
    else if core.state == ChunkData then core.chunkSize
    else 0
  }

  predicate Ready(core: Core) {
    && (NeedsRequest(core.state) ==> core.request.Some?)
    && (core.state == Body || core.state == ChunkData ==> Wanted(core) > 0)
  }

  // ------------------------------------------------------------ callbacks

  function Values(h: Header, key: Text): seq<Text> { if key in h then h[key] else [] }

  function Add(h: Header, key: Text, value: Text): Header { h[key := Values(h, key) + [value]] }

  function OnMethod(core: Core, m: Text): Core {
    core.(request := Some(
      if core.request.Some? then core.request.value.(verb := m)
      else Request(m, "", "", map[], 0, None, map[])))
  }

  function OnBody(r: Request, data: Text): Request {
    if data == [] then r else r.(body := Some((if r.body.Some? then r.body.value else []) + data))
  }

  const TE := "Transfer-Encoding"
  const TR := "Trailer"
  const CL := "Content-Length"

  // The end of a header line.
  function OnHeader(core: Core, value: Text): Core
    requires core.request.Some?
  {
    var r := core.request.value;
    var kept := core.key == TE || core.key == TR || core.key == CL;
    core.(request := Some(r.(header := Add(r.header, core.key, value))),
          header := if kept then Add(core.header, core.key, value) else core.header,
          key := "", value := "")
  }

  // oneMessage
  function OneMessage(core: Core, keep: Keep): Act
    requires core.request.Some?
  {
    Go(core.(request := None, header := map[], state := Line(MethodBefore)), keep, [core.request.value])
  }

  // ------------------------------------------------------------ the end of the header

  function ParseTransferEncoding(core: Core): (Option<Error>, Core) {
    if TE !in core.header then (None, core)
    else
      var raw := core.header[TE];
      var core' := core.(header := core.header - {TE});
      if |raw| != 1 then (Some(ErrTransferEncodings), core')
      else if Lower(Trim(raw[0])) != "chunked" then (Some(ErrTransferEncoding), core')
      else (None, core'.(header := core'.header - {CL}, chunked := true))
  }

  // Trailing blanks are cut; a text of nothing but blanks fails to parse either way.
  function CutBlanks(s: Text): Text {
    if s == [] || s[|s| - 1] != ' ' then s else CutBlanks(s[..|s| - 1])
  }

  function ContentLength(header: Header, chunked: bool): (Option<Error>, int) {
    var cl := if CL in header && header[CL] != [] then header[CL][0] else "";
    if cl == "" then (None, -1)
    else if chunked then (Some(ErrUnexpectedContentLength), 0)
    else
      var l := ParseInt(CutBlanks(cl), 10);
      if l == None then (Some(ErrBadContentLength), 0)
      else if l.value < 0 then (Some(ErrNegativeContentLength), 0)
      else (None, l.value)
  }

  // The keys of one Trailer value, separated by commas; None if one is not allowed.
  function TrailerKeys(lib: Lib, value: Text, part: Text): Option<set<Text>>
    decreases |value|
  {
    var key := Trim(part);
    var mine := if key == "" then {} else {lib.canonical(key)};
    if value == [] then (if mine * {TE, TR, CL} == {} then Some(mine) else None)
    else if value[0] != ',' then TrailerKeys(lib, value[1..], part + [value[0]])
    else
      var rest := TrailerKeys(lib, value[1..], []);
      if rest == None || mine * {TE, TR, CL} != {} then None else Some(mine + rest.value)
  }

  function AllTrailerKeys(lib: Lib, values: seq<Text>): Option<set<Text>> {
    if values == [] then Some({})
    else
      var a, b := TrailerKeys(lib, values[0], []), AllTrailerKeys(lib, values[1..]);
      if a == None || b == None then None else Some(a.value + b.value)
  }

  function ParseTrailer(lib: Lib, core: Core): (Option<Error>, Core) {
    if !core.chunked || TR !in core.header then (None, core)
    else
      var keys := AllTrailerKeys(lib, core.header[TR]);
      var core' := core.(header := core.header - {TR});
      if keys == None then (Some(ErrBadTrailerKey), core')
      else if keys.value == {} then (None, core')
      else (None, core'.(trailer := keys.value))
  }

  // The carriage return of the empty line.
  function EndOfHeader(lib: Lib, core: Core): (a: Act)
    requires core.request.Some? && core.state == Head(KeyBefore)
    ensures Ready(a.core) && Open(a)
  {
    var (e1, c1) := ParseTransferEncoding(core);
    if e1.Some? then Fail(e1.value, c1)
    else
      var (e2, l) := ContentLength(c1.header, c1.chunked);
      if e2.Some? then Fail(e2.value, c1)
      else
        var c2 := c1.(request := Some(core.request.value.(contentLength := l)));
        var (e3, c3) := ParseTrailer(lib, c2);
        if e3.Some? then Fail(e3.value, c3) else Go(To(c3, Head(OverLF)), After, [])
  }

  // ------------------------------------------------------------ one byte

  // `tok` is what the parser holds since `start`; c is the next byte.
  function StepLine(lib: Lib, core: Core, s: LineState, tok: Text, c: char): (a: Act)
    requires core.state == Line(s) && Ready(core)
    ensures Ready(a.core) && Open(a)
  {
    match s
    case MethodBefore =>
      if IsMethodChar(c) then Go(To(core, Line(Method)), Here, []) else Fail(ErrInvalidMethod, core)
    case Method =>
      if c == ' ' then
        if ValidMethod(Upper(tok)) then Go(To(OnMethod(core, Upper(tok)), Line(PathBefore)), After, [])
        else Fail(ErrInvalidMethod, core)
      else if IsAlpha(c) then Stay(core)
      else Fail(ErrInvalidMethod, core)
    case PathBefore =>
      if c == '/' || c == '*' then Go(To(core, Line(Path)), Here, [])
      else if c == ' ' then Stay(core)
      else Fail(ErrInvalidRequestURI, core)
    case Path =>
      if c != ' ' then Stay(core)
      else if lib.uriOk(tok) then
        Go(To(core.(request := Some(core.request.value.(uri := tok))), Line(ProtoBefore)), After, [])
      else Fail(ErrURI, core)
    case ProtoBefore =>
      if c != ' ' then Go(To(core, Line(Proto)), Here, []) else Stay(core)
    case Proto =>
      if c == ' ' then Stay(if core.proto == "" then core.(proto := tok) else core)
      else if c == '\r' then
        var proto := if core.proto == "" then tok else core.proto;
        if lib.versionOk(proto) then
          Go(To(core.(request := Some(core.request.value.(proto := proto)), proto := ""), Line(ProtoLF)), Same, [])
        else Fail(ErrVersion, core.(proto := ""))
      else Stay(core)
    case ProtoLF =>
      if c == '\n' then Go(To(core, Head(KeyBefore)), After, []) else Fail(ErrLFExpected, core)
  }

  function StepHead(lib: Lib, core: Core, s: HeadState, tok: Text, c: char): (a: Act)
    requires core.state == Head(s) && Ready(core)
    ensures Ready(a.core) && Open(a)
  {
    match s
    case KeyBefore =>
      if c == ' ' then (if core.headerExists then Stay(core) else Fail(ErrInvalidCharInHeader, core))
      else if c == '\r' then EndOfHeader(lib, core)
      else if IsAlpha(c) then Go(To(core, Head(Key)).(headerExists := true), Here, [])
      else Fail(ErrInvalidCharInHeader, core)
    case Key =>
      if c == ' ' then Stay(if core.key == "" then core.(key := lib.canonical(tok)) else core)
      else if c == ':' then
        Go(To(if core.key == "" then core.(key := lib.canonical(tok)) else core, Head(ValueBefore)), After, [])
      else if IsToken(c) then Stay(core)
      else Fail(ErrInvalidCharInHeader, core)
    case ValueBefore =>
      if c == ' ' then Stay(core)
      else if c == '\r' then
        Go(To(OnHeader(core, if core.value == "" then tok else core.value), Head(ValueLF)), After, [])
      else if c == '\n' then Fail(ErrInvalidCharInHeader, core)
      else Go(To(core, Head(Value)), Here, [])
    case Value =>
      if c == '\r' then
        Go(To(OnHeader(core, if core.value == "" then tok else core.value), Head(ValueLF)), After, [])
      else if c == '\n' then Fail(ErrInvalidCharInHeader, core)
      else Stay(core)
    case ValueLF =>
      if c == '\n' then Go(To(core, Head(KeyBefore)), After, []) else Fail(ErrLFExpected, core)
    case OverLF =>
      if c != '\n' then Fail(ErrLFExpected, core)
      else
        var core' := core.(headerExists := false);
        if core.chunked then Go(To(core', Chunk(SizeBefore)), After, [])
        else if core.request.value.contentLength > 0 then Go(To(core', Body), After, [])
        else OneMessage(core', After)
  }

  // A chunk size that has not been parsed yet is parsed now.
  function SizeOnce(core: Core, tok: Text): (Option<Error>, Core) {
    if core.chunkSize >= 0 then (None, core)
    else
      var n := ParseInt(tok, 16);
      if n == None || n.value < 0 then (Some(ErrChunkSize), core) else (None, core.(chunkSize := n.value))
  }

  function StepChunk(core: Core, s: ChunkState, tok: Text, c: char): (a: Act)
    requires core.state == Chunk(s) && Ready(core)
    ensures Ready(a.core) && Open(a)
  {
    match s
    case SizeBefore =>
      if IsHex(c) then Go(To(core, Chunk(Size)).(chunkSize := -1), Here, []) else Fail(ErrInvalidChunkSize, core)
    case Size =>
      if IsHex(c) then Stay(core)
      else
        var (e, core') := SizeOnce(core, tok);
        if e.Some? then Fail(e.value, core')
        else if c == '\r' then Go(To(core', Chunk(SizeLF)), After, [])
        else Stay(core')
    case SizeLF =>
      if c != '\n' then Fail(ErrLFExpected, core)
      else if core.chunkSize > 0 then Go(To(core, ChunkData), After, [])
      else if core.trailer != {} then Go(To(core, Trailer(TKeyBefore)), After, [])
      else Go(To(core, Trailer(TailCR)), After, [])
    case DataCR =>
      if c == '\r' then Go(To(core, Chunk(DataLF)), Same, []) else Fail(ErrCRExpected, core)
    case DataLF =>
      if c == '\n' then Go(To(core, Chunk(SizeBefore)), Same, []) else Fail(ErrLFExpected, core)
  }

  function OnTrailer(lib: Lib, core: Core, value: Text): Core
    requires core.request.Some?
  {
    var r := core.request.value;
    core.(request := Some(r.(trailer := Add(r.trailer, lib.canonical(core.key), value))), key := "", value := "")
  }

  function StepTrailer(lib: Lib, core: Core, s: TrailerState, tok: Text, c: char): (a: Act)
    requires core.state == Trailer(s) && Ready(core)
    ensures Ready(a.core) && Open(a)
  {
    match s
    case TKeyBefore =>
      if IsAlpha(c) then Go(To(core, Trailer(TKey)), Here, [])
      else if c == '\r' then
        (if core.trailer != {} then Fail(ErrTrailerExpected, core) else Go(To(core, Trailer(TailLF)), After, []))
      else Stay(core)
    case TKey =>
      if c == ' ' then Stay(if core.key == "" then core.(key := lib.canonical(tok)) else core)
      else if c == ':' then
        Go(To(if core.key == "" then core.(key := lib.canonical(tok)) else core, Trailer(TValueBefore)), After, [])
      else if IsToken(c) then Stay(core)
      else Fail(ErrInvalidCharInHeader, core)
    case TValueBefore =>
      if c == ' ' then Stay(core)
      else if c == '\r' then
        Go(To(OnTrailer(lib, core, if core.value == "" then tok else core.value), Trailer(TValueLF)), After, [])
      else Go(To(core, Trailer(TValue)), Here, [])
    case TValue =>
      var value := if core.value == "" then tok else core.value;
      if c == ' ' then Stay(core.(value := value))
      else if c == '\r' then
        if core.trailer == {} then Fail(ErrInvalidTrailer, core.(value := value))
        else
          Go(To(OnTrailer(lib, core.(trailer := core.trailer - {core.key}), value), Trailer(TValueLF)), After, [])
      else Stay(core)
    case TValueLF =>
      if c == '\n' then Go(To(core, Trailer(TKeyBefore)), Here, []) else Fail(ErrLFExpected, core)
    case TailCR =>
      if c == '\r' then Go(To(core, Trailer(TailLF)), Same, []) else Fail(ErrCRExpected, core)
    case TailLF =>
      if c == '\n' then OneMessage(core, After) else Fail(ErrLFExpected, core)
  }

  // A body, or a chunk, is complete.
  function Deliver(core: Core, data: Text): (a: Act)
    requires core.request.Some? && Ready(core) && (core.state == Body || core.state == ChunkData)
    ensures Ready(a.core) && Open(a)
  {
    var core' := core.(request := Some(OnBody(core.request.value, data)));
    if core.state == Body then OneMessage(core', After) else Go(To(core', Chunk(DataCR)), After, [])
  }

  function Step(lib: Lib, core: Core, tok: Text, c: char): (a: Act)
    requires Ready(core)
    ensures Ready(a.core) && (core.state != Close ==> Open(a))
  {
    match core.state
    case Close => Fail(ErrClosed, core)
    case Line(s) => StepLine(lib, core, s, tok, c)
    case Head(s) => StepHead(lib, core, s, tok, c)
    case Chunk(s) => StepChunk(core, s, tok, c)
    case Trailer(s) => StepTrailer(lib, core, s, tok, c)
    case _ => if |tok| + 1 < Wanted(core) then Stay(core) else Deliver(core, tok + [c])
  }

  // ------------------------------------------------------------ many bytes

  predicate InBody(core: Core) { core.state == Body || core.state == ChunkData }

  // What is known between two bytes: what is held of a body is less than what it takes.
  predicate Waiting(core: Core, tok: Text) {
    Ready(core) && (InBody(core) ==> |tok| < Wanted(core))
  }

  function Kept(keep: Keep, tok: Text, c: char): Text {
    match keep
    case Same => tok + [c]
    case Here => [c]
    case After => []
  }

  // The parser as a machine that takes one byte at a time.
  datatype Machine = Machine(step: (Core, Text, char) -> Act)

  function Parsing(lib: Lib): Machine {
    Machine((core, tok, c) => if Ready(core) then Step(lib, core, tok, c) else Fail(ErrClosed, core))
  }

  // What every byte keeps, and how bodies are taken.
  predicate Keeps(core: Core, tok: Text, c: char, a: Act) {
    && (a.Go? ==> Waiting(a.core, Kept(a.keep, tok, c)))
    && Ready(a.core) && (core.state != Close ==> Open(a))
    && (Ready(core) && InBody(core) ==> a == if |tok| + 1 < Wanted(core) then Stay(core) else Deliver(core, tok + [c]))
  }

  ghost predicate Sound(m: Machine) {
    forall core, tok, c :: Waiting(core, tok) ==> Keeps(core, tok, c, m.step(core, tok, c))
  }

  lemma ParsingIsSound(lib: Lib)
    ensures Sound(Parsing(lib))
  {
    forall core, tok, c | Waiting(core, tok)
      ensures Keeps(core, tok, c, Parsing(lib).step(core, tok, c))
    {
      StepKeeps(lib, core, tok, c);
    }
  }

  lemma StepKeeps(lib: Lib, core: Core, tok: Text, c: char)
    requires Waiting(core, tok)
    ensures Keeps(core, tok, c, Step(lib, core, tok, c))
  {
  }

  datatype Progress =
    | Failed(err: Error, core: Core, out: seq<Request>)
    | At(core: Core, tok: Text, out: seq<Request>)

  function Before(out: seq<Request>, p: Progress): Progress { p.(out := out + p.out) }

  // Where the parser gets on these bytes, what it holds there, and the requests it hands over.
  function Feed(m: Machine, core: Core, tok: Text, data: Text): Progress
    decreases |data|
  {
    if data == [] then At(core, tok, [])
    else
      match m.step(core, tok, data[0])
      case Fail(err, core') => Failed(err, core', [])
      case Go(core', keep, out) => Before(out, Feed(m, core', Kept(keep, tok, data[0]), data[1..]))
  }
}
