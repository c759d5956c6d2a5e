// What the parser serves was printed: from the first request that is handed over, back to the
// bytes it was in.

module HttpOnly {
  import opened Basics
  import opened HttpModel
  import opened HttpParser
  import opened HttpRoundTrip
  import opened HttpMessages

  // ------------------------------------------------------------ steps

  // Some request is handed over on these bytes.
  predicate Hands(lib: Lib, core: Core, tok: Text, data: Text) { Feed(Parsing(lib), core, tok, data).out != [] }

  // Then there is a first byte, and it is taken.
  lemma MustGo(lib: Lib, core: Core, tok: Text, data: Text) returns (a: Act)
    requires Ready(core) && Hands(lib, core, tok, data)
    ensures data != [] && a == Step(lib, core, tok, data[0]) && a.Go?
    ensures a.out == [] ==> Hands(lib, a.core, Kept(a.keep, tok, data[0]), data[1..])
  {
    a := Step(lib, core, tok, data[0]);
    assert Parsing(lib).step(core, tok, data[0]) == a;
    if a.Go? && a.out == [] {
      var p := Feed(Parsing(lib), a.core, Kept(a.keep, tok, data[0]), data[1..]);
      assert [] + p.out == p.out;
    }
  }

  // The bytes up to the first that is not of some kind, all of which are only held.
  lemma {:induction false} Span(lib: Lib, core: Core, tok: Text, data: Text, kind: char -> bool)
    returns (word: Text, rest: Text)
    requires Ready(core) && Hands(lib, core, tok, data)
    requires forall c :: kind(c) ==> Stays(Parsing(lib), core, c)
    ensures data == word + rest && (forall c :: c in word ==> kind(c)) && rest != [] && !kind(rest[0])
    ensures Hands(lib, core, tok + word, rest)
    decreases |data|
  {
    var a := MustGo(lib, core, tok, data);
    if kind(data[0]) {
      assert Parsing(lib).step(core, tok, data[0]) == Stay(core);
      word, rest := Span(lib, core, tok + [data[0]], data[1..], kind);
      assert tok + [data[0]] + word == tok + ([data[0]] + word);
      word := [data[0]] + word;
    } else {
      word, rest := [], data;
      assert tok + word == tok;
    }
  }

  lemma HeadAndTail(data: Text)
    requires data != []
    ensures data == [data[0]] + data[1..]
  {
  }

  // A word from its first byte on.
  lemma WordOnly(lib: Lib, core: Core, first: char, data: Text, kind: char -> bool) returns (word: Text, rest: Text)
    requires Ready(core) && Hands(lib, core, [first], data)
    requires forall c :: kind(c) ==> Stays(Parsing(lib), core, c)
    ensures [first] + data == word + rest && word != [] && word[0] == first && (forall c :: c in word[1..] ==> kind(c))
    ensures rest != [] && !kind(rest[0]) && Hands(lib, core, word, rest)
  {
    var more;
    more, rest := Span(lib, core, [first], data, kind);
    word := [first] + more;
    assert word[1..] == more;
    Associate([first], more, rest);
  }

  // ------------------------------------------------------------ the request line

  lemma VerbBegins(lib: Lib, core: Core, data: Text)
    requires core.state == Line(MethodBefore) && Hands(lib, core, [], data)
    ensures data != [] && Hands(lib, To(core, Line(Method)), [data[0]], data[1..])
  {
    var a := MustGo(lib, core, [], data);
  }

  lemma VerbEnds(lib: Lib, core: Core, verb: Text, data: Text)
    requires core.state == Line(Method) && data != [] && !IsAlpha(data[0]) && Hands(lib, core, verb, data)
    ensures data[0] == ' ' && ValidMethod(Upper(verb)) && Hands(lib, AfterMethod(core, verb), [], data[1..])
  {
    var a := MustGo(lib, core, verb, data);
  }

  lemma LettersStay(lib: Lib, core: Core, kind: char -> bool)
    requires core.state == Line(Method) && forall c :: kind(c) ==> IsAlpha(c)
    ensures forall c :: kind(c) ==> Stays(Parsing(lib), core, c)
  {
    forall c | kind(c)
      ensures Stays(Parsing(lib), core, c)
    {
      StaysIf(lib, core, c);
    }
  }

  lemma VerbOnly(lib: Lib, core: Core, data: Text) returns (verb: Text, rest: Text)
    requires Idle(core) && Hands(lib, core, [], data)
    ensures data == (verb + " ") + rest && ValidMethod(Upper(verb))
    ensures Hands(lib, AfterMethod(core, verb), [], rest)
  {
    var mid := To(core, Line(Method));
    VerbBegins(lib, core, data);
    LettersStay(lib, mid, c => IsAlpha(c));
    var behind;
    verb, behind := WordOnly(lib, mid, data[0], data[1..], c => IsAlpha(c));
    VerbEnds(lib, mid, verb, behind);
    rest := behind[1..];
    HeadAndTail(data);
    HeadAndTail(behind);
    Associate(verb, " ", rest);
  }

  // Blanks in front of a word.
  lemma GapOnly(lib: Lib, core: Core, data: Text) returns (gap: Text, rest: Text)
    requires Ready(core) && Between(core) && Hands(lib, core, [], data)
    ensures data == gap + rest && Blanks(gap) && rest != [] && rest[0] != ' ' && Hands(lib, core, gap, rest)
  {
    forall c | c == ' '
      ensures Stays(Parsing(lib), core, c)
    {
      StaysIf(lib, core, c);
    }
    gap, rest := Span(lib, core, [], data, c => c == ' ');
    assert [] + gap == gap;
  }

  lemma UriBegins(lib: Lib, core: Core, gap: Text, data: Text)
    requires core.state == Line(PathBefore) && core.request.Some? && data != [] && data[0] != ' '
    requires Hands(lib, core, gap, data)
    ensures (data[0] == '/' || data[0] == '*') && Hands(lib, To(core, Line(Path)), [data[0]], data[1..])
  {
    var a := MustGo(lib, core, gap, data);
  }

  lemma UriEnds(lib: Lib, core: Core, uri: Text, data: Text)
    requires core.state == Line(Path) && core.request.Some? && data != [] && data[0] == ' ' &&
             Hands(lib, core, uri, data)
    ensures lib.uriOk(uri) && Hands(lib, AfterUri(core, uri), [], data[1..])
  {
    var a := MustGo(lib, core, uri, data);
  }

  lemma UriStays(lib: Lib, core: Core, kind: char -> bool)
    requires core.state == Line(Path) && core.request.Some? && forall c :: kind(c) ==> c != ' '
    ensures forall c :: kind(c) ==> Stays(Parsing(lib), core, c)
  {
    forall c | kind(c)
      ensures Stays(Parsing(lib), core, c)
    {
      StaysIf(lib, core, c);
    }
  }

  lemma UriOnly(lib: Lib, core: Core, data: Text) returns (gap: Text, uri: Text, rest: Text)
    requires core.state == Line(PathBefore) && core.request.Some? && Hands(lib, core, [], data)
    ensures data == (gap + (uri + " ")) + rest && Blanks(gap)
    ensures uri != "" && (uri[0] == '/' || uri[0] == '*') && ' ' !in uri && lib.uriOk(uri)
    ensures Hands(lib, AfterUri(core, uri), [], rest)
  {
    var mid, behind, last := To(core, Line(Path)), [], [];
    gap, behind := GapOnly(lib, core, data);
    UriBegins(lib, core, gap, behind);
    UriStays(lib, mid, c => c != ' ');
    uri, last := WordOnly(lib, mid, behind[0], behind[1..], c => c != ' ');
    UriEnds(lib, mid, uri, last);
    rest := last[1..];
    HeadAndTail(behind);
    HeadAndTail(last);
    HeadAndTail(uri);
    Associate(uri, " ", rest);
    Associate(gap, uri + " ", rest);
  }

  // The first blank behind a version, and the first byte of a version.
  lemma VersionFixed(lib: Lib, core: Core, proto: Text, data: Text)
    requires core.state == Line(Proto) && core.request.Some? && core.proto == "" && data != [] && data[0] == ' '
    requires Hands(lib, core, proto, data)
    ensures Hands(lib, core.(proto := proto), proto + [' '], data[1..])
  {
    var a := MustGo(lib, core, proto, data);
  }

  lemma VersionBegins(lib: Lib, core: Core, gap: Text, data: Text)
    requires core.state == Line(ProtoBefore) && core.request.Some? && data != [] && data[0] != ' '
    requires Hands(lib, core, gap, data)
    ensures Hands(lib, To(core, Line(Proto)), [data[0]], data[1..])
  {
    var a := MustGo(lib, core, gap, data);
  }

  lemma VersionStays(lib: Lib, core: Core, kind: char -> bool)
    requires core.state == Line(Proto) && core.request.Some?
    requires forall c :: kind(c) ==> c != '\r' && (c == ' ' ==> core.proto != "")
    ensures forall c :: kind(c) ==> Stays(Parsing(lib), core, c)
  {
    forall c | kind(c)
      ensures Stays(Parsing(lib), core, c)
    {
      StaysIf(lib, core, c);
    }
  }

  lemma EndText(proto: Text, junk: Text, data: Text, rest: Text)
    requires data != [] && data[0] == ' ' && data[1..] == junk + rest
    ensures data == ([' '] + junk) + rest && (proto + [' ']) + junk == proto + ([' '] + junk)
  {
    HeadAndTail(data);
  }

  // What follows a version, up to the carriage return.
  lemma EndOnly(lib: Lib, core: Core, proto: Text, data: Text) returns (end: Text, rest: Text)
    requires core.state == Line(Proto) && core.request.Some? && core.proto == "" && proto != ""
    requires data != [] && (data[0] == ' ' || data[0] == '\r') && Hands(lib, core, proto, data)
    ensures data == end + rest && GoodEnd(end) && rest != [] && rest[0] == '\r'
    ensures Hands(lib, if end == "" then core else core.(proto := proto), proto + end, rest)
  {
    end, rest := "", data;
    assert proto + end == proto;
    if data[0] == ' ' {
      var fixed, junk := core.(proto := proto), [];
      VersionFixed(lib, core, proto, data);
      VersionStays(lib, fixed, c => c != '\r');
      junk, rest := Span(lib, fixed, proto + [' '], data[1..], c => c != '\r');
      end := [' '] + junk;
      EndText(proto, junk, data, rest);
    }
  }

  lemma CarriageReturn(lib: Lib, core: Core, tok: Text, proto: Text, data: Text)
    requires core.state == Line(Proto) && core.request.Some? && data != [] && data[0] == '\r'
    requires if core.proto == "" then tok == proto else core.proto == proto
    requires Hands(lib, core, tok, data)
    ensures lib.versionOk(proto) && Hands(lib, To(AfterProto(core, proto), Line(ProtoLF)), tok + ['\r'], data[1..])
  {
    var a := MustGo(lib, core, tok, data);
  }

  lemma LineFeed(lib: Lib, core: Core, tok: Text, data: Text)
    requires core.state == Line(ProtoLF) && core.request.Some? && Hands(lib, core, tok, data)
    ensures data != [] && data[0] == '\n' && Hands(lib, To(core, Head(KeyBefore)), [], data[1..])
  {
    var a := MustGo(lib, core, tok, data);
  }

  lemma LineEndOnly(lib: Lib, core: Core, tok: Text, proto: Text, data: Text) returns (rest: Text)
    requires core.state == Line(Proto) && core.request.Some? && data != [] && data[0] == '\r'
    requires if core.proto == "" then tok == proto else core.proto == proto
    requires Hands(lib, core, tok, data)
    ensures data == CRLF + rest && lib.versionOk(proto) && Hands(lib, AfterProto(core, proto), [], rest)
  {
    CarriageReturn(lib, core, tok, proto, data);
    LineFeed(lib, To(AfterProto(core, proto), Line(ProtoLF)), tok + ['\r'], data[1..]);
    rest := data[1..][1..];
    BothText(data);
  }

  lemma BothText(data: Text)
    requires |data| >= 2 && data[0] == '\r' && data[1] == '\n'
    ensures data == CRLF + data[1..][1..]
  {
  }

  lemma ProtoOnly(lib: Lib, core: Core, data: Text) returns (gap: Text, proto: Text, end: Text, rest: Text)
    requires core.state == Line(ProtoBefore) && core.request.Some? && core.proto == "" && Hands(lib, core, [], data)
    ensures data == (gap + ((proto + end) + CRLF)) + rest && Blanks(gap) && GoodEnd(end)
    ensures proto != "" && ' ' !in proto && '\r' !in proto[1..] && lib.versionOk(proto)
    ensures Hands(lib, AfterProto(core, proto), [], rest)
  {
    var mid, behind, last, crlf := To(core, Line(Proto)), [], [], [];
    gap, behind := GapOnly(lib, core, data);
    VersionBegins(lib, core, gap, behind);
    VersionStays(lib, mid, c => c != ' ' && c != '\r');
    proto, last := WordOnly(lib, mid, behind[0], behind[1..], c => c != ' ' && c != '\r');
    HeadAndTail(behind);
    HeadAndTail(proto);
    end, crlf := EndOnly(lib, mid, proto, last);
    var fixed := if end == "" then mid else mid.(proto := proto);
    rest := LineEndOnly(lib, fixed, proto + end, proto, crlf);
    assert AfterProto(fixed, proto) == AfterProto(core, proto);
    Associate(proto, end, CRLF + rest);
    Associate(proto + end, CRLF, rest);
    Associate(gap, (proto + end) + CRLF, rest);
  }

  // The request line of the message that is to be found.
  lemma LineOnly(lib: Lib, core: Core, data: Text) returns (m: Message, rest: Text)
    requires Idle(core) && Hands(lib, core, [], data)
    ensures data == RequestLine(m) + rest && GoodLine(lib, m) && Hands(lib, Started(lib, core, m), [], rest)
  {
    var verb, behind := VerbOnly(lib, core, data);
    var c1 := AfterMethod(core, verb);
    var gap1, uri, last := UriOnly(lib, c1, behind);
    var c2 := AfterUri(c1, uri);
    var gap2, proto, end;
    gap2, proto, end, rest := ProtoOnly(lib, c2, last);
    m := Message(verb, uri, proto, Gaps(gap1, gap2, end, ""), [], Plain(""));
    assert AfterProto(c2, proto) == Started(lib, core, m);
    var a, b, c := verb + " ", gap1 + (uri + " "), gap2 + ((proto + end) + CRLF);
    Associate(b, c, rest);
    Associate(a, b + c, rest);
  }

  // ------------------------------------------------------------ the header

  // No name of a field has an empty key.
  ghost predicate HasKeys(lib: Lib) { forall s :: s != "" ==> lib.canonical(s) != "" }

  // Which bytes are passed over in a name.
  predicate OfName(core: Core, c: char) { IsToken(c) || (c == ' ' && core.key != "") }

  lemma OfNameStays(lib: Lib, core: Core, c: char)
    requires InName(core.state) && Ready(core) && OfName(core, c)
    ensures Stays(Parsing(lib), core, c)
  {
    StaysIf(lib, core, c);
  }

  lemma NameStays(lib: Lib, core: Core, kind: char -> bool)
    requires InName(core.state) && Ready(core) && forall c :: kind(c) ==> OfName(core, c)
    ensures forall c :: kind(c) ==> Stays(Parsing(lib), core, c)
  {
    forall c | kind(c)
      ensures Stays(Parsing(lib), core, c)
    {
      OfNameStays(lib, core, c);
    }
  }

  lemma NameEnds(lib: Lib, core: Core, f: Field, data: Text)
    requires InName(core.state) && Ready(core) && core.key == "" && data != [] && !IsToken(data[0])
    requires Hands(lib, core, f.name, data)
    ensures if data[0] == ' ' then Hands(lib, Named(lib, core, f), f.name + [' '], data[1..])
            else data[0] == ':' && Hands(lib, To(Named(lib, core, f), ValueNext(core.state)), [], data[1..])
  {
    var a := MustGo(lib, core, f.name, data);
  }

  lemma TailEnds(lib: Lib, core: Core, tok: Text, data: Text)
    requires InName(core.state) && Ready(core) && core.key != "" && data != [] && !IsToken(data[0]) && data[0] != ' '
    requires Hands(lib, core, tok, data)
    ensures data[0] == ':' && Hands(lib, To(core, ValueNext(core.state)), [], data[1..])
  {
    var a := MustGo(lib, core, tok, data);
  }

  // What stands behind the name of a field that has a blank there.
  lemma TailOnly(lib: Lib, core: Core, f: Field, data: Text) returns (tail: Text, rest: Text)
    requires InName(core.state) && Ready(core) && core.key == lib.canonical(f.name) != ""
    requires Hands(lib, core, f.name + [' '], data)
    ensures [' '] + data == (tail + ":") + rest && tail != "" && GoodTail(lib, f.(tail := tail))
    ensures Hands(lib, To(core, ValueNext(core.state)), [], rest)
  {
    var more, behind;
    NameStays(lib, core, c => IsToken(c) || c == ' ');
    more, behind := Span(lib, core, f.name + [' '], data, c => IsToken(c) || c == ' ');
    tail, rest := [' '] + more, behind[1..];
    TailEnds(lib, core, (f.name + [' ']) + more, behind);
    HeadAndTail(behind);
    Associate([' '], more, behind);
    Associate(tail, ":", rest);
  }

  // A name and what stands behind it, up to the colon.
  lemma NameOnly(lib: Lib, core: Core, first: char, data: Text) returns (f: Field, rest: Text)
    requires HasKeys(lib) && InName(core.state) && Ready(core) && core.key == "" && IsAlpha(first)
    requires Hands(lib, core, [first], data)
    ensures [first] + data == ((f.name + f.tail) + ":") + rest && GoodName(lib, f)
    ensures Hands(lib, To(Named(lib, core, f), ValueNext(core.state)), [], rest)
  {
    NameStays(lib, core, c => IsToken(c));
    var name, behind := WordOnly(lib, core, first, data, c => IsToken(c));
    f := Field("", name, "", "", "");
    HeadAndTail(name);
    HeadAndTail(behind);
    NameEnds(lib, core, f, behind);
    rest := behind[1..];
    if behind[0] == ' ' {
      var tail;
      tail, rest := TailOnly(lib, Named(lib, core, f), f, rest);
      f := f.(tail := tail);
    }
    NameText(f, rest);
  }

  lemma NameText(f: Field, rest: Text)
    ensures f.name + ((f.tail + ":") + rest) == ((f.name + f.tail) + ":") + rest
    ensures "" + ":" == ":"
  {
  }

  lemma ValueBegins(lib: Lib, core: Core, gap: Text, data: Text)
    requires core.state == Head(ValueBefore) && core.request.Some? && core.value == "" && data != [] && data[0] != ' '
    requires Hands(lib, core, gap, data)
    ensures data[0] != '\n'
    ensures if data[0] == '\r' then Hands(lib, To(OnHeader(core, gap), Head(ValueLF)), [], data[1..])
            else Hands(lib, To(core, Head(Value)), [data[0]], data[1..])
  {
    var a := MustGo(lib, core, gap, data);
  }

  lemma ValueEnds(lib: Lib, core: Core, value: Text, data: Text)
    requires core.state == Head(Value) && core.request.Some? && core.value == "" && data != []
    requires (data[0] == '\r' || data[0] == '\n') && Hands(lib, core, value, data)
    ensures data[0] == '\r' && Hands(lib, To(OnHeader(core, value), Head(ValueLF)), [], data[1..])
  {
    var a := MustGo(lib, core, value, data);
  }

  lemma ValueStays(lib: Lib, core: Core, kind: char -> bool)
    requires core.state == Head(Value) && core.request.Some? && forall c :: kind(c) ==> c != '\r' && c != '\n'
    ensures forall c :: kind(c) ==> Stays(Parsing(lib), core, c)
  {
    forall c | kind(c)
      ensures Stays(Parsing(lib), core, c)
    {
      StaysIf(lib, core, c);
    }
  }

  lemma ValueLineEnds(lib: Lib, core: Core, data: Text)
    requires core.state == Head(ValueLF) && core.request.Some? && Hands(lib, core, [], data)
    ensures data != [] && data[0] == '\n' && Hands(lib, To(core, Head(KeyBefore)), [], data[1..])
  {
    var a := MustGo(lib, core, [], data);
  }

  predicate GoodValue(f: Field) {
    Blanks(f.gap) && '\r' !in f.value && '\n' !in f.value && (f.value != "" ==> f.value[0] != ' ')
  }

  // The value itself, and the carriage return behind it.
  lemma WholeValue(lib: Lib, core: Core, gap: Text, data: Text) returns (value: Text, rest: Text)
    requires core.state == Head(ValueBefore) && core.request.Some? && core.value == "" && data != [] && data[0] != ' '
    requires Hands(lib, core, gap, data)
    ensures data == (value + "\r") + rest && (value != "" ==> value[0] != ' ') && '\r' !in value && '\n' !in value
    ensures Hands(lib, To(OnHeader(core, if value == "" then gap else value), Head(ValueLF)), [], rest)
  {
    var mid := To(core, Head(Value));
    ValueBegins(lib, core, gap, data);
    value, rest := "", data[1..];
    HeadAndTail(data);
    if data[0] != '\r' {
      var behind;
      ValueStays(lib, mid, c => c != '\r' && c != '\n');
      value, behind := WordOnly(lib, mid, data[0], data[1..], c => c != '\r' && c != '\n');
      ValueEnds(lib, mid, value, behind);
      HeadAndTail(value);
      HeadAndTail(behind);
      rest := behind[1..];
    }
    Associate(value, "\r", rest);
  }

  lemma ValueOnly(lib: Lib, core: Core, f: Field, data: Text) returns (g: Field, rest: Text)
    requires core.state == Head(ValueBefore) && core.request.Some? && core.value == "" && Hands(lib, core, [], data)
    ensures data == ((g.gap + (g.value + "\r")) + "\n") + rest && GoodValue(g)
    ensures g == f.(gap := g.gap, value := g.value)
    ensures Hands(lib, To(OnHeader(core, Given(g)), Head(KeyBefore)), [], rest)
  {
    var gap, behind := GapOnly(lib, core, data);
    var value, last := WholeValue(lib, core, gap, behind);
    g := f.(gap := gap, value := value);
    ValueLineEnds(lib, To(OnHeader(core, Given(g)), Head(ValueLF)), last);
    HeadAndTail(last);
    rest := last[1..];
    Associate(gap, value + "\r", last);
    Associate(gap + (value + "\r"), "\n", rest);
  }

  // What may stand in front of a name, or before the empty line.
  lemma PreOnly(lib: Lib, core: Core, data: Text) returns (pre: Text, rest: Text)
    requires core.state == Head(KeyBefore) && core.request.Some? && Hands(lib, core, [], data)
    ensures data == pre + rest && Blanks(pre) && rest != [] && Hands(lib, core, pre, rest)
    ensures (pre != "" ==> core.headerExists) && (core.headerExists ==> rest[0] != ' ')
  {
    if core.headerExists {
      pre, rest := GapOnly(lib, core, data);
    } else {
      pre, rest := "", data;
      var a := MustGo(lib, core, [], data);
    }
  }

  lemma FieldBegins(lib: Lib, core: Core, pre: Text, data: Text)
    requires core.state == Head(KeyBefore) && core.request.Some? && data != [] && Hands(lib, core, pre, data)
    requires core.headerExists ==> data[0] != ' '
    ensures if data[0] == '\r' then
              var a := EndOfHeader(lib, core);
              a.Go? && Hands(lib, a.core, [], data[1..])
            else IsAlpha(data[0]) && Hands(lib, To(core, Head(Key)).(headerExists := true), [data[0]], data[1..])
  {
    var a := MustGo(lib, core, pre, data);
  }

  // One field of the header.
  lemma FieldOnly(lib: Lib, core: Core, pre: Text, data: Text) returns (f: Field, rest: Text)
    requires HasKeys(lib) && core.state == Head(KeyBefore) && core.request.Some? && core.key == "" && core.value == ""
    requires data != [] && data[0] != '\r' && Hands(lib, core, pre, data) && Blanks(pre)
    requires core.headerExists ==> data[0] != ' '
    ensures f.pre == pre && GoodField(lib, f) && pre + data == FieldLine(f) + rest
    ensures Hands(lib, To(OnHeader(AfterName(lib, core, f), Given(f)), Head(KeyBefore)), [], rest)
  {
    var mid := To(core, Head(Key)).(headerExists := true);
    FieldBegins(lib, core, pre, data);
    HeadAndTail(data);
    var named, behind := NameOnly(lib, mid, data[0], data[1..]);
    assert To(Named(lib, mid, named), ValueNext(mid.state)) == AfterName(lib, core, named);
    f, rest := ValueOnly(lib, AfterName(lib, core, named), named.(pre := pre), behind);
    var name, value := (f.name + f.tail) + ":", (f.gap + (f.value + "\r")) + "\n";
    Associate(pre, name, value + rest);
    Associate(pre + name, value, rest);
  }

  // All fields, and the carriage return of the empty line.
  lemma {:induction false} FieldsOnly(lib: Lib, core: Core, data: Text)
    returns (fs: seq<Field>, close: Text, rest: Text)
    requires HasKeys(lib) && core.state == Head(KeyBefore) && core.request.Some? && core.key == "" && core.value == ""
    requires Hands(lib, core, [], data)
    ensures data == (FieldLines(fs) + close) + (['\r'] + rest)
    ensures (forall f :: f in fs ==> GoodField(lib, f)) && MayFollow(core, fs) && Blanks(close)
    ensures close != "" && fs == [] ==> core.headerExists
    ensures var a := EndOfHeader(lib, AfterFields(lib, core, fs)); a.Go? && Hands(lib, a.core, [], rest)
    decreases |data|
  {
    var pre, behind := PreOnly(lib, core, data);
    FieldBegins(lib, core, pre, behind);
    HeadAndTail(behind);
    if behind[0] == '\r' {
      fs, close, rest := [], pre, behind[1..];
      assert AfterFields(lib, core, []) == core && "" + pre == pre;
    } else {
      var f, last := FieldOnly(lib, core, pre, behind);
      var next := To(OnHeader(AfterName(lib, core, f), Given(f)), Head(KeyBefore));
      var more;
      more, close, rest := FieldsOnly(lib, next, last);
      fs := [f] + more;
      FirstField(lib, core, f, more, next);
      Associate(FieldLine(f), FieldLines(more) + close, ['\r'] + rest);
      Associate(FieldLine(f), FieldLines(more), close);
    }
  }

  lemma FirstField(lib: Lib, core: Core, f: Field, more: seq<Field>, next: Core)
    requires core.state == Head(KeyBefore) && core.request.Some? && core.key == "" && core.value == ""
    requires next == To(OnHeader(AfterName(lib, core, f), Given(f)), Head(KeyBefore))
    ensures ([f] + more)[1..] == more && FieldLines([f] + more) == FieldLine(f) + FieldLines(more)
    ensures AfterFields(lib, core, [f] + more) == AfterFields(lib, next, more)
  {
    assert ([f] + more)[1..] == more;
  }

  // ------------------------------------------------------------ bodies

  // The line feed of the empty line, and the state behind it.
  lemma EmptyLineOnly(lib: Lib, core: Core, data: Text)
    requires core.state == Head(OverLF) && core.request.Some? && Hands(lib, core, [], data)
    ensures data != [] && data[0] == '\n'
    ensures core.chunked ==> Hands(lib, core.(state := Chunk(SizeBefore), headerExists := false), [], data[1..])
    ensures !core.chunked && core.request.value.contentLength > 0 ==>
            Hands(lib, core.(state := Body, headerExists := false), [], data[1..])
  {
    var a := MustGo(lib, core, [], data);
  }

  // A body or a chunk is there in full.
  lemma BodyOnly(lib: Lib, core: Core, data: Text)
    requires Ready(core) && InBody(core) && Hands(lib, core, [], data)
    ensures |data| >= Wanted(core)
  {
    ParsingIsSound(lib);
    if |data| < Wanted(core) { BodyGrows(Parsing(lib), core, [], data); }
  }

  lemma ChunkOnly(lib: Lib, core: Core, data: Text)
    requires core.state == ChunkData && core.request.Some? && 0 < core.chunkSize <= |data| && Hands(lib, core, [], data)
    ensures Hands(lib, To(Grown(core, data[..core.chunkSize]), Chunk(DataCR)), [], data[core.chunkSize..])
  {
    var text := data[..core.chunkSize];
    ParsingIsSound(lib);
    BodyEnds(Parsing(lib), core, [], data);
    assert [] + text == text;
    assert Deliver(core, text) == Go(To(Grown(core, text), Chunk(DataCR)), After, []);
    NothingBefore(Feed(Parsing(lib), To(Grown(core, text), Chunk(DataCR)), [], data[core.chunkSize..]));
  }

  lemma NothingBefore(p: Progress)
    ensures Before([], p) == p
  {
    assert [] + p.out == p.out;
  }

  // ------------------------------------------------------------ chunks

  lemma SizeBegins(lib: Lib, core: Core, tok: Text, data: Text)
    requires core.state == Chunk(SizeBefore) && core.request.Some? && Hands(lib, core, tok, data)
    ensures data != [] && IsHex(data[0])
    ensures Hands(lib, To(core, Chunk(Size)).(chunkSize := -1), [data[0]], data[1..])
  {
    var a := MustGo(lib, core, tok, data);
  }

  lemma SizeStays(lib: Lib, core: Core, kind: char -> bool)
    requires core.state == Chunk(Size) && core.request.Some?
    requires forall c :: kind(c) ==> IsHex(c) || (c != '\r' && core.chunkSize >= 0)
    ensures forall c :: kind(c) ==> Stays(Parsing(lib), core, c)
  {
    forall c | kind(c)
      ensures Stays(Parsing(lib), core, c)
    {
      StaysIf(lib, core, c);
    }
  }

  // The first byte behind the size.
  lemma SizeEnds(lib: Lib, core: Core, size: Text, data: Text) returns (n: int)
    requires core.state == Chunk(Size) && core.request.Some? && core.chunkSize == -1
    requires data != [] && !IsHex(data[0]) && Hands(lib, core, size, data)
    ensures n >= 0 && ParseInt(size, 16) == Some(n)
    ensures if data[0] == '\r' then Hands(lib, Sized(core, n), [], data[1..])
            else Hands(lib, core.(chunkSize := n), size + [data[0]], data[1..])
  {
    var a := MustGo(lib, core, size, data);
    n := a.core.chunkSize;
  }

  lemma ExtEnds(lib: Lib, core: Core, tok: Text, data: Text)
    requires core.state == Chunk(Size) && core.request.Some? && core.chunkSize >= 0
    requires data != [] && data[0] == '\r' && Hands(lib, core, tok, data)
    ensures Hands(lib, To(core, Chunk(SizeLF)), [], data[1..])
  {
    var a := MustGo(lib, core, tok, data);
  }

  // What stands behind a size, and the carriage return.
  lemma ExtOnly(lib: Lib, core: Core, size: Text, data: Text) returns (ext: Text, n: int, rest: Text)
    requires core.state == Chunk(Size) && core.request.Some? && core.chunkSize == -1
    requires data != [] && !IsHex(data[0]) && Hands(lib, core, size, data)
    ensures data == ext + (['\r'] + rest) && GoodExt(ext) && n >= 0 && ParseInt(size, 16) == Some(n)
    ensures Hands(lib, Sized(core, n), [], rest)
  {
    n := SizeEnds(lib, core, size, data);
    ext, rest := "", data[1..];
    HeadAndTail(data);
    if data[0] != '\r' {
      var known, more, behind := core.(chunkSize := n), [], [];
      SizeStays(lib, known, c => c != '\r');
      more, behind := Span(lib, known, size + [data[0]], data[1..], c => c != '\r');
      ExtEnds(lib, known, size + [data[0]] + more, behind);
      HeadAndTail(behind);
      ext, rest := [data[0]] + more, behind[1..];
      Associate([data[0]], more, behind);
    }
  }

  // The state behind a size line.
  function SizedNext(core: Core, n: int): State {
    if n > 0 then ChunkData else if core.trailer != {} then Trailer(TKeyBefore) else Trailer(TailCR)
  }

  lemma SizeLineEnds(lib: Lib, core: Core, n: int, data: Text)
    requires core.state == Chunk(SizeLF) && core.request.Some? && core.chunkSize == n >= 0 && Hands(lib, core, [], data)
    ensures data != [] && data[0] == '\n' && Hands(lib, To(core, SizedNext(core, n)), [], data[1..])
  {
    var a := MustGo(lib, core, [], data);
  }

  lemma HexOnly(lib: Lib, core: Core, tok: Text, data: Text) returns (size: Text, rest: Text)
    requires core.state == Chunk(SizeBefore) && core.request.Some? && Hands(lib, core, tok, data)
    ensures data == size + rest && size != "" && (forall c :: c in size ==> IsHex(c)) && rest != [] && !IsHex(rest[0])
    ensures Hands(lib, To(core, Chunk(Size)).(chunkSize := -1), size, rest)
  {
    var mid := To(core, Chunk(Size)).(chunkSize := -1);
    SizeBegins(lib, core, tok, data);
    SizeStays(lib, mid, c => IsHex(c));
    size, rest := WordOnly(lib, mid, data[0], data[1..], c => IsHex(c));
    HeadAndTail(data);
    HeadAndTail(size);
  }

  lemma SizeOnly(lib: Lib, core: Core, tok: Text, data: Text) returns (p: Part, n: int, rest: Text)
    requires core.state == Chunk(SizeBefore) && core.request.Some? && Hands(lib, core, tok, data)
    ensures data == SizeLine(p) + rest && GoodSize(p.size, n) && n >= 0 && GoodExt(p.ext)
    ensures Hands(lib, To(core, SizedNext(core, n)).(chunkSize := n), [], rest)
  {
    var mid, ext, last := To(core, Chunk(Size)).(chunkSize := -1), [], [];
    var size, behind := HexOnly(lib, core, tok, data);
    ext, n, last := ExtOnly(lib, mid, size, behind);
    SizeLineEnds(lib, Sized(mid, n), n, last);
    HeadAndTail(last);
    p, rest := Part(size, ext, ""), last[1..];
    SizeLineText(p, rest);
  }

  lemma SizeLineText(p: Part, rest: Text)
    ensures p.size + (p.ext + (['\r'] + (['\n'] + rest))) == SizeLine(p) + rest
  {
    assert ['\r'] + (['\n'] + rest) == CRLF + rest;
    Associate(p.size, p.ext, CRLF + rest);
    Associate(p.size + p.ext, CRLF, rest);
  }

  lemma DataReturn(lib: Lib, core: Core, data: Text)
    requires core.state == Chunk(DataCR) && core.request.Some? && Hands(lib, core, [], data)
    ensures data != [] && data[0] == '\r' && Hands(lib, To(core, Chunk(DataLF)), ['\r'], data[1..])
  {
    var a := MustGo(lib, core, [], data);
    assert [] + ['\r'] == ['\r'];
  }

  lemma DataFeed(lib: Lib, core: Core, data: Text)
    requires core.state == Chunk(DataLF) && core.request.Some? && Hands(lib, core, ['\r'], data)
    ensures data != [] && data[0] == '\n' && Hands(lib, To(core, Chunk(SizeBefore)), CRLF, data[1..])
  {
    var a := MustGo(lib, core, ['\r'], data);
    assert ['\r'] + ['\n'] == CRLF;
  }

  lemma DataEnds(lib: Lib, core: Core, data: Text) returns (rest: Text)
    requires core.state == Chunk(DataCR) && core.request.Some? && Hands(lib, core, [], data)
    ensures data == CRLF + rest && Hands(lib, To(core, Chunk(SizeBefore)), CRLF, rest)
  {
    DataReturn(lib, core, data);
    DataFeed(lib, To(core, Chunk(DataLF)), data[1..]);
    rest := data[1..][1..];
    BothText(data);
  }

  // One chunk behind its size.
  lemma DataOnly(lib: Lib, core: Core, data: Text) returns (text: Text, rest: Text)
    requires core.state == ChunkData && core.request.Some? && core.chunkSize > 0 && Hands(lib, core, [], data)
    ensures |text| == core.chunkSize && data == (text + CRLF) + rest
    ensures Hands(lib, To(Grown(core, text), Chunk(SizeBefore)), CRLF, rest)
  {
    BodyOnly(lib, core, data);
    ChunkOnly(lib, core, data);
    text := data[..core.chunkSize];
    rest := DataEnds(lib, To(Grown(core, text), Chunk(DataCR)), data[core.chunkSize..]);
    Associate(text, CRLF, rest);
  }

  // The parser behind the last size line.
  function Tail(core: Core, parts: seq<Part>): Core
    requires core.request.Some?
  {
    To(Grown(core, AllData(parts)), SizedNext(core, 0)).(chunkSize := 0)
  }

  lemma FirstPart(core: Core, p: Part, more: seq<Part>)
    requires core.request.Some? && p.data != ""
    ensures ([p] + more)[1..] == more && PartsText([p] + more) == PartText(p) + PartsText(more)
    ensures Tail(core, [p] + more) == Tail(To(Grown(core, p.data), Chunk(SizeBefore)).(chunkSize := |p.data|), more)
  {
    assert ([p] + more)[1..] == more;
    GrownTwice(core, p.data, AllData(more), |p.data|);
  }

  lemma NoParts(core: Core)
    requires core.request.Some?
    ensures Tail(core, []) == To(core, SizedNext(core, 0)).(chunkSize := 0) && PartsText([]) == ""
  {
  }

  // All chunks, and the last size line.
  lemma {:induction false} PartsOnly(lib: Lib, core: Core, tok: Text, data: Text)
    returns (ps: seq<Part>, last: Part, rest: Text)
    requires core.state == Chunk(SizeBefore) && core.request.Some? && Hands(lib, core, tok, data)
    ensures data == PartsText(ps) + (SizeLine(last) + rest) && forall p :: p in ps ==> GoodPart(p)
    ensures GoodSize(last.size, 0) && GoodExt(last.ext) && Hands(lib, Tail(core, ps), [], rest)
    decreases |data|
  {
    var p, n, behind := SizeOnly(lib, core, tok, data);
    if n == 0 {
      ps, last, rest := [], p, behind;
      NoParts(core);
      assert "" + data == data;
    } else {
      var sized, text, later := To(core, ChunkData).(chunkSize := n), [], [];
      text, later := DataOnly(lib, sized, behind);
      p := p.(data := text);
      var next, more := To(Grown(core, text), Chunk(SizeBefore)).(chunkSize := n), [];
      assert next == To(Grown(sized, text), Chunk(SizeBefore));
      more, last, rest := PartsOnly(lib, next, CRLF, later);
      ps := [p] + more;
      FirstPart(core, p, more);
      Associate(SizeLine(p), text + CRLF, later);
      Associate(PartText(p), PartsText(more), SizeLine(last) + rest);
    }
  }

  // ------------------------------------------------------------ trailers

  lemma TrailerStays(lib: Lib, core: Core, kind: char -> bool)
    requires core.state == Trailer(TKeyBefore) && core.request.Some?
    requires forall c :: kind(c) ==> !IsAlpha(c) && c != '\r'
    ensures forall c :: kind(c) ==> Stays(Parsing(lib), core, c)
  {
    forall c | kind(c)
      ensures Stays(Parsing(lib), core, c)
    {
      StaysIf(lib, core, c);
    }
  }

  // What is in front of a name or of the empty line, and what that begins with.
  lemma JunkOnly(lib: Lib, core: Core, tok: Text, data: Text) returns (junk: Text, rest: Text)
    requires core.state == Trailer(TKeyBefore) && core.request.Some? && Hands(lib, core, tok, data)
    ensures data == junk + rest && Junk(junk) && rest != []
    ensures if rest[0] == '\r' then core.trailer == {} && Hands(lib, To(core, Trailer(TailLF)), [], rest[1..])
            else IsAlpha(rest[0]) && Hands(lib, To(core, Trailer(TKey)), [rest[0]], rest[1..])
  {
    TrailerStays(lib, core, c => !IsAlpha(c) && c != '\r');
    junk, rest := Span(lib, core, tok, data, c => !IsAlpha(c) && c != '\r');
    var a := MustGo(lib, core, tok + junk, rest);
  }

  lemma TrailerValueBegins(lib: Lib, core: Core, f: Field, data: Text)
    requires core.state == Trailer(TValueBefore) && core.request.Some? && core.value == ""
    requires data != [] && data[0] != ' ' && f.value == "" && Hands(lib, core, f.gap, data)
    ensures if data[0] == '\r' then Hands(lib, ValueTaken(lib, core, f), [], data[1..])
            else Hands(lib, To(core, Trailer(TValue)), [data[0]], data[1..])
  {
    var a := MustGo(lib, core, f.gap, data);
  }

  lemma WordStays(lib: Lib, core: Core, kind: char -> bool)
    requires core.state == Trailer(TValue) && core.request.Some?
    requires forall c :: kind(c) ==> c != '\r' && (c == ' ' ==> core.value != "")
    ensures forall c :: kind(c) ==> Stays(Parsing(lib), core, c)
  {
    forall c | kind(c)
      ensures Stays(Parsing(lib), core, c)
    {
      StaysIf(lib, core, c);
    }
  }

  lemma WordFixed(lib: Lib, core: Core, word: Text, data: Text)
    requires core.state == Trailer(TValue) && core.request.Some? && core.value == "" && data != [] && data[0] == ' '
    requires Hands(lib, core, word, data)
    ensures Hands(lib, core.(value := word), word + [' '], data[1..])
  {
    var a := MustGo(lib, core, word, data);
  }

  lemma WordEnds(lib: Lib, core: Core, tok: Text, word: Text, data: Text)
    requires core.state == Trailer(TValue) && core.request.Some? && data != [] && data[0] == '\r'
    requires if core.value == "" then tok == word else core.value == word
    requires Hands(lib, core, tok, data)
    ensures core.trailer != {}
    ensures Hands(lib, To(OnTrailer(lib, core.(trailer := core.trailer - {core.key}), word), Trailer(TValueLF)), [],
            data[1..])
  {
    var a := MustGo(lib, core, tok, data);
  }

  lemma {:induction false} FirstWordIs(word: Text, rest: Text)
    requires ' ' !in word && (rest != "" ==> rest[0] == ' ')
    ensures FirstWord(word + rest) == word
    decreases |word|
  {
    if word != [] {
      HeadAndTail(word);
      Associate([word[0]], word[1..], rest);
      assert (word + rest)[1..] == word[1..] + rest;
      FirstWordIs(word[1..], rest);
    }
  }

  // The blank behind the first word of a value, what follows it, and the carriage return.
  lemma BlankOnly(lib: Lib, core: Core, word: Text, data: Text) returns (more: Text, rest: Text)
    requires core.state == Trailer(TValue) && core.request.Some? && core.value == word != ""
    requires Hands(lib, core, word + [' '], data)
    ensures [' '] + data == (more + "\r") + rest && '\r' !in more && more != "" && more[0] == ' ' && core.trailer != {}
    ensures Hands(lib, To(OnTrailer(lib, core.(trailer := core.trailer - {core.key}), word), Trailer(TValueLF)), [],
            rest)
  {
    var junk, behind;
    WordStays(lib, core, c => c != '\r');
    junk, behind := Span(lib, core, word + [' '], data, c => c != '\r');
    WordEnds(lib, core, (word + [' ']) + junk, word, behind);
    HeadAndTail(behind);
    more, rest := [' '] + junk, behind[1..];
    Associate([' '], junk, behind);
    Associate(more, "\r", rest);
  }

  // What follows the first word of a value, and the carriage return.
  lemma RestOnly(lib: Lib, core: Core, word: Text, data: Text) returns (more: Text, rest: Text)
    requires core.state == Trailer(TValue) && core.request.Some? && core.value == "" && word != ""
    requires data != [] && (data[0] == ' ' || data[0] == '\r') && Hands(lib, core, word, data)
    ensures data == (more + "\r") + rest && '\r' !in more && (more != "" ==> more[0] == ' ') && core.trailer != {}
    ensures Hands(lib, To(OnTrailer(lib, core.(trailer := core.trailer - {core.key}), word), Trailer(TValueLF)), [],
            rest)
  {
    HeadAndTail(data);
    if data[0] == ' ' {
      WordFixed(lib, core, word, data);
      more, rest := BlankOnly(lib, core.(value := word), word, data[1..]);
      SameEnd(lib, core, word);
    } else {
      WordEnds(lib, core, word, word, data);
      more, rest := "", data[1..];
      assert "" + "\r" == "\r";
    }
  }

  lemma SameEnd(lib: Lib, core: Core, word: Text)
    requires core.request.Some?
    ensures OnTrailer(lib, core.(value := word, trailer := core.trailer - {core.key}), word)
         == OnTrailer(lib, core.(trailer := core.trailer - {core.key}), word)
  {
  }

  // A value that is not empty, from its first byte on.
  lemma FullValueOnly(lib: Lib, core: Core, f: Field, first: char, data: Text) returns (g: Field, rest: Text)
    requires core.state == Trailer(TValueBefore) && core.request.Some? && core.value == ""
    requires first != ' ' && first != '\r' && Hands(lib, To(core, Trailer(TValue)), [first], data)
    ensures [first] + data == (g.value + "\r") + rest && g == f.(value := g.value) && core.trailer != {}
    ensures g.value != "" && g.value[0] != ' ' && '\r' !in g.value
    ensures Hands(lib, ValueTaken(lib, core, g), [], rest)
  {
    var mid, more := To(core, Trailer(TValue)), [];
    WordStays(lib, mid, c => c != ' ' && c != '\r');
    var word, last := WordOnly(lib, mid, first, data, c => c != ' ' && c != '\r');
    HeadAndTail(word);
    more, rest := RestOnly(lib, mid, word, last);
    FirstWordIs(word, more);
    g := f.(value := word + more);
    ValueText(word, more, rest);
  }

  lemma ValueText(word: Text, more: Text, rest: Text)
    ensures word + ((more + "\r") + rest) == ((word + more) + "\r") + rest
  {
  }

  // The value of a trailer field, and the carriage return.
  lemma TrailerValueOnly(lib: Lib, core: Core, f: Field, data: Text) returns (g: Field, rest: Text)
    requires core.state == Trailer(TValueBefore) && core.request.Some? && core.value == "" && Hands(lib, core, [], data)
    requires f.value == ""
    ensures data == (g.gap + (g.value + "\r")) + rest && g == f.(gap := g.gap, value := g.value) && Blanks(g.gap)
    ensures (g.value != "" ==> g.value[0] != ' ' && core.trailer != {}) && '\r' !in g.value
    ensures Hands(lib, ValueTaken(lib, core, g), [], rest)
  {
    var gap, behind := GapOnly(lib, core, data);
    g := f.(gap := gap);
    TrailerValueBegins(lib, core, g, behind);
    HeadAndTail(behind);
    rest := behind[1..];
    if behind[0] != '\r' {
      g, rest := FullValueOnly(lib, core, g, behind[0], rest);
    } else {
      assert "" + "\r" == "\r";
    }
    Associate(gap, g.value + "\r", rest);
  }

  lemma TrailerFieldEnds(lib: Lib, core: Core, data: Text)
    requires core.state == Trailer(TValueLF) && core.request.Some? && Hands(lib, core, [], data)
    ensures data != [] && data[0] == '\n' && Hands(lib, To(core, Trailer(TKeyBefore)), ['\n'], data[1..])
  {
    var a := MustGo(lib, core, [], data);
  }

  // One field of the trailer, from the first letter of its name.
  lemma TrailerFieldOnly(lib: Lib, core: Core, pre: Text, data: Text) returns (f: Field, rest: Text)
    requires HasKeys(lib) && core.state == Trailer(TKeyBefore) && core.request.Some? && core.key == "" &&
             core.value == ""
    requires Junk(pre) && data != [] && IsAlpha(data[0])
    requires Hands(lib, To(core, Trailer(TKey)), [data[0]], data[1..])
    ensures pre + data == FieldLine(f) + rest && GoodTrailerField(lib, f) && (f.value != "" ==> core.trailer != {})
    ensures Hands(lib, AfterTrailerField(lib, core, f), ['\n'], rest)
  {
    var mid := To(core, Trailer(TKey));
    HeadAndTail(data);
    var named, behind := NameOnly(lib, mid, data[0], data[1..]);
    var c := AfterTrailerName(lib, core, named);
    assert To(Named(lib, mid, named), ValueNext(mid.state)) == c;
    var last;
    f, last := TrailerValueOnly(lib, c, named.(pre := pre, value := ""), behind);
    TrailerFieldEnds(lib, ValueTaken(lib, c, f), last);
    HeadAndTail(last);
    rest := last[1..];
    var name, value := (f.name + f.tail) + ":", f.gap + (f.value + "\r");
    Associate(value, "\n", rest);
    Associate(pre, name, (value + "\n") + rest);
    Associate(pre + name, value + "\n", rest);
  }

  lemma LastLineFeed(lib: Lib, core: Core, tok: Text, data: Text)
    requires core.state == Trailer(TailLF) && core.request.Some? && Hands(lib, core, tok, data)
    ensures data != [] && data[0] == '\n'
  {
    var a := MustGo(lib, core, tok, data);
  }

  // All fields of the trailer, and the empty line.
  lemma {:induction false} TrailerOnly(lib: Lib, core: Core, tok: Text, data: Text)
    returns (fs: seq<Field>, close: Text, rest: Text)
    requires HasKeys(lib) && core.state == Trailer(TKeyBefore) && core.request.Some? && core.key == "" &&
             core.value == ""
    requires Hands(lib, core, tok, data)
    ensures data == (FieldLines(fs) + close) + (CRLF + rest) && Junk(close)
    ensures (forall f :: f in fs ==> GoodTrailerField(lib, f)) && WhileAwaited(lib, core.trailer, fs)
    ensures StillAll(lib, core.trailer, fs) == {}
    decreases |data|
  {
    var junk, behind := JunkOnly(lib, core, tok, data);
    HeadAndTail(behind);
    if behind[0] == '\r' {
      LastLineFeed(lib, To(core, Trailer(TailLF)), [], behind[1..]);
      HeadAndTail(behind[1..]);
      fs, close, rest := [], junk, behind[1..][1..];
      assert "" + junk == junk && ['\r'] + (['\n'] + rest) == CRLF + rest;
    } else {
      var f, last := TrailerFieldOnly(lib, core, junk, behind);
      var more;
      more, close, rest := TrailerOnly(lib, AfterTrailerField(lib, core, f), ['\n'], last);
      fs := [f] + more;
      assert fs[1..] == more;
      Associate(FieldLine(f), FieldLines(more) + close, CRLF + rest);
      Associate(FieldLine(f), FieldLines(more), close);
    }
  }

  // Without a trailer the empty line comes at once.
  lemma NoTrailerOnly(lib: Lib, core: Core, data: Text) returns (rest: Text)
    requires core.state == Trailer(TailCR) && core.request.Some? && Hands(lib, core, [], data)
    ensures data == CRLF + rest
  {
    var a := MustGo(lib, core, [], data);
    HeadAndTail(data);
    LastLineFeed(lib, To(core, Trailer(TailLF)), [] + ['\r'], data[1..]);
    HeadAndTail(data[1..]);
    rest := data[1..][1..];
  }
}
