// Which requests are served, and as what, in terms of what is written on the wire alone.

module HttpServed {
  import opened Basics
  import opened HttpModel
  import opened HttpParser
  import opened HttpRoundTrip
  import opened HttpMessages
  import opened HttpNumbers

  // ------------------------------------------------------------ headers

  // The values of the fields of this name, in order.
  function ValuesOf(lib: Lib, fs: seq<Field>, key: Text): seq<Text> {
    if fs == [] then []
    else (if lib.canonical(fs[0].name) == key then [Given(fs[0])] else []) + ValuesOf(lib, fs[1..], key)
  }

  // A header holds these values under a key, and the key only if there are any.
  predicate Holds(h: Header, key: Text, values: seq<Text>) {
    if values == [] then key !in h else key in h && h[key] == values
  }

  lemma AddHolds(h: Header, key: Text, values: seq<Text>, name: Text, value: Text)
    requires Holds(h, key, values)
    ensures Holds(Add(h, name, value), key, values + if name == key then [value] else [])
  {
    assert values + [] == values;
  }

  // The header of a request holds exactly the values of its fields, those of the same name in order.
  lemma {:induction false} HeaderHolds(lib: Lib, h: Header, fs: seq<Field>, key: Text, values: seq<Text>)
    requires Holds(h, key, values)
    ensures Holds(HeaderFrom(lib, h, fs), key, values + ValuesOf(lib, fs, key))
    decreases |fs|
  {
    if fs == [] {
      assert values + [] == values;
    } else {
      var name, value := lib.canonical(fs[0].name), Given(fs[0]);
      var first := if name == key then [value] else [];
      AddHolds(h, key, values, name, value);
      HeaderHolds(lib, Add(h, name, value), fs[1..], key, values + first);
      Associate(values, first, ValuesOf(lib, fs[1..], key));
    }
  }

  predicate IsKept(key: Text) { key == TE || key == TR || key == CL }

  lemma {:induction false} KeptHolds(lib: Lib, h: Header, fs: seq<Field>, key: Text, values: seq<Text>)
    requires Holds(h, key, values) && IsKept(key)
    ensures Holds(KeptFrom(lib, h, fs), key, values + ValuesOf(lib, fs, key))
    decreases |fs|
  {
    if fs == [] {
      assert values + [] == values;
    } else {
      var name, value := lib.canonical(fs[0].name), Given(fs[0]);
      var first := if name == key then [value] else [];
      AddHolds(h, key, values, name, value);
      assert values + [] == values;
      KeptHolds(lib, if IsKept(name) then Add(h, name, value) else h, fs[1..], key, values + first);
      Associate(values, first, ValuesOf(lib, fs[1..], key));
    }
  }

  lemma MessageHolds(lib: Lib, m: Message, key: Text)
    ensures Holds(HeaderFrom(lib, map[], m.fields), key, ValuesOf(lib, m.fields, key))
    ensures IsKept(key) ==> Holds(Kept3(lib, m), key, ValuesOf(lib, m.fields, key))
  {
    HeaderHolds(lib, map[], m.fields, key, []);
    if IsKept(key) { KeptHolds(lib, map[], m.fields, key, []); }
    assert [] + ValuesOf(lib, m.fields, key) == ValuesOf(lib, m.fields, key);
  }

  // ------------------------------------------------------------ lengths

  // There is a Content-Length.
  predicate HasLength(values: seq<Text>) { values != [] && values[0] != "" }

  // There is none exactly if the length is taken to be -1, without an error.
  lemma NoLengthExactly(header: Header, chunked: bool)
    ensures ContentLength(header, chunked) == (None, -1) <==> !(CL in header && HasLength(header[CL]))
  {
  }

  // The length that the fields give a body: none for an empty one, or the number of its bytes.
  predicate Measured(values: seq<Text>, text: Text, blanks: nat) {
    if HasLength(values) then |text| < MAX63 && values[0] == Numeral(|text|, 10) + seq(blanks, _ => ' ') else text == ""
  }

  lemma MeasuredIsRead(header: Header, values: seq<Text>, text: Text, blanks: nat)
    requires Holds(header, CL, values) && Measured(values, text, blanks)
    ensures ContentLength(header, false) == (None, if HasLength(values) then |text| else -1)
  {
    if HasLength(values) {
      var first := map[CL := [values[0]]];
      LengthIsRead(first, |text|, blanks);
      assert ContentLength(header, false) == ContentLength(first, false);
    }
  }

  // ------------------------------------------------------------ plain messages

  // A request without a transfer encoding whose body is measured is served as what was written.
  lemma PlainIsServed(lib: Lib, core: Core, m: Message, blanks: nat)
    requires Idle(core) && !core.chunked && GoodHead(lib, m) && m.payload.Plain?
    requires ValuesOf(lib, m.fields, TE) == [] && Measured(ValuesOf(lib, m.fields, CL), m.payload.text, blanks)
    ensures Good(lib, m)
    ensures var text := m.payload.text;
            var length := if HasLength(ValuesOf(lib, m.fields, CL)) then |text| else -1;
            Feed(Parsing(lib), core, [], Printed(m)) == At(core, [],
              [Request(Upper(m.verb), m.uri, m.proto, HeaderFrom(lib, map[], m.fields), length,
                       if text == "" then None else Some(text), map[])])
  {
    MessageHolds(lib, m, TE);
    MessageHolds(lib, m, CL);
    MeasuredIsRead(Kept3(lib, m), ValuesOf(lib, m.fields, CL), m.payload.text, blanks);
    MessageIsServed(lib, core, m);
  }

  // One of the smallest there are.
  function Bare(): Message {
    Message("GET", "/", "HTTP/1.1", Gaps("", "", "", ""), [Field("", "Host", "", "", "a")], Plain(""))
  }

  lemma BarePrinted()
    ensures Printed(Bare()) == "GET / HTTP/1.1\r\nHost:a\r\n\r\n"
  {
    var m := Bare();
    var host := m.fields[0];
    assert RequestLine(m) == "GET " + ("/ " + ("HTTP/1.1" + CRLF)) == "GET / HTTP/1.1\r\n";
    assert FieldLine(host) == "Host:" + ("a\r" + "\n") == "Host:a\r\n";
    assert m.fields[1..] == [] && FieldLines(m.fields) == FieldLine(host) + FieldLines([]) == FieldLine(host);
    assert HeadOf(m) == "GET / HTTP/1.1\r\n" + ("Host:a\r\n" + CRLF) == "GET / HTTP/1.1\r\nHost:a\r\n\r\n";
    assert Printed(m) == HeadOf(m) + "" == HeadOf(m);
  }

  lemma BareHeader(lib: Lib)
    requires lib.canonical("Host") == "Host"
    ensures HeaderFrom(lib, map[], Bare().fields) == map["Host" := ["a"]]
    ensures ValuesOf(lib, Bare().fields, TE) == [] && ValuesOf(lib, Bare().fields, CL) == []
  {
    var fs := Bare().fields;
    assert fs[1..] == [] && Values(map[], "Host") + ["a"] == ["a"];
    assert HeaderFrom(lib, map[], fs) == HeaderFrom(lib, Add(map[], "Host", "a"), []);
  }

  lemma BareIsGood(lib: Lib)
    requires lib.uriOk("/") && lib.versionOk("HTTP/1.1")
    ensures GoodHead(lib, Bare()) && Upper("GET") == "GET"
  {
    assert Upper("GET") == "GET";
  }

  lemma BareGetIsServed(lib: Lib, core: Core)
    requires Idle(core) && !core.chunked && lib.uriOk("/") && lib.versionOk("HTTP/1.1") &&
             lib.canonical("Host") == "Host"
    ensures Feed(Parsing(lib), core, [], "GET / HTTP/1.1\r\nHost:a\r\n\r\n")
            == At(core, [], [Request("GET", "/", "HTTP/1.1", map["Host" := ["a"]], -1, None, map[])])
  {
    BarePrinted();
    BareHeader(lib);
    BareIsGood(lib);
    PlainIsServed(lib, core, Bare(), 0);
  }

  // ------------------------------------------------------------ chunked messages

  // A word in small letters, or in capitals, or in both.
  predicate AnyCase(s: Text, word: Text) {
    |s| == |word| && forall i :: 0 <= i < |s| ==> s[i] == word[i] || s[i] as int + 32 == word[i] as int
  }

  lemma ChunkedInAnyCase(s: Text, pad: Pad)
    requires AnyCase(s, "chunked") && Blank(pad)
    ensures Lower(Trim(pad.before + (s + pad.after))) == "chunked"
  {
    forall i | 0 <= i < |s|
      ensures !IsSpace(s[i]) && ToLower(s[i]) == "chunked"[i]
    {
    }
    TrimBefore(pad.before, s + pad.after);
    TrimAfter(s, pad.after);
  }

  // What a chunked message has to have: that encoding, chunks with their sizes, and a trailer
  // that is announced by name.
  predicate Chunky(lib: Lib, m: Message, word: Text, pad: Pad, pads: seq<Pad>) {
    && m.payload.Chunks? && GoodHead(lib, m) && AnyCase(word, "chunked") && Blank(pad)
    && ValuesOf(lib, m.fields, TE) == [pad.before + (word + pad.after)]
    && (forall p :: p in m.payload.parts ==> GoodPart(p)) && GoodSize(m.payload.last.size, 0) &&
      GoodExt(m.payload.last.ext)
    && var fs := m.payload.trailer;
       && (forall f :: f in fs ==> GoodTrailerField(lib, f) && f.value != "") && DifferentNames(lib, fs)
       && Junk(m.payload.close) && (fs == [] ==> m.payload.close == "")
       && |pads| == |fs| && (forall p :: p in pads ==> Blank(p)) && TrailerSet(lib, fs) * {TE, TR, CL} == {}
       && ValuesOf(lib, m.fields, TR) == if fs == [] then [] else [Names(fs, pads)]
  }

  // It is served as what was written, whatever Content-Length it has.
  lemma ChunkedIsServed(lib: Lib, core: Core, m: Message, word: Text, pad: Pad, pads: seq<Pad>)
    requires Idle(core) && Chunky(lib, m, word, pad, pads)
    ensures Good(lib, m)
    ensures var text := AllData(m.payload.parts);
            Feed(Parsing(lib), core, [], Printed(m)) == At(core.(chunked := true, chunkSize := 0), [],
              [Request(Upper(m.verb), m.uri, m.proto, HeaderFrom(lib, map[], m.fields), -1,
                       if text == "" then None else Some(text), TrailerFrom(lib, map[], m.payload.trailer))])
  {
    var fs := m.payload.trailer;
    MessageHolds(lib, m, TE);
    MessageHolds(lib, m, TR);
    ChunkedInAnyCase(word, pad);
    if fs != [] { NamesAnnounce(lib, Kept3(lib, m), fs, pads); }
    DifferentBring(lib, fs);
    MessageIsServed(lib, core, m);
  }
}
