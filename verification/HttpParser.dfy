// The parser as an object: its cache, the loop of Read with its jumps over bodies, and why
// it does not matter where the network cuts the stream.

module HttpParser {
  import opened Basics
  import opened HttpModel

  function Held(cache: Option<Text>): Text { if cache.Some? then cache.value else [] }

  // ------------------------------------------------------------ feeding in pieces

  lemma {:induction false} FeedSplit(m: Machine, core: Core, tok: Text, a: Text, b: Text)
    ensures Feed(m, core, tok, a + b) ==
            match Feed(m, core, tok, a)
            case Failed(err, core', out) => Failed(err, core', out)
            case At(core', tok', out) => Before(out, Feed(m, core', tok', b))
    decreases |a|
  {
    if a == [] {
      assert a + b == b;
      var p := Feed(m, core, tok, b);
      assert [] + p.out == p.out;
    } else {
      assert (a + b)[1..] == a[1..] + b;
      match m.step(core, tok, a[0])
      case Fail(err, core') =>
      case Go(core', keep, out) =>
        FeedSplit(m, core', Kept(keep, tok, a[0]), a[1..], b);
        var p := Feed(m, core', Kept(keep, tok, a[0]), a[1..]);
        if p.At? {
          var q := Feed(m, p.core, p.tok, b);
          assert (out + p.out) + q.out == out + (p.out + q.out);
        }
    }
  }

  // Between bytes the parser waits as it should, and holds no more than it was given.
  lemma {:induction false} FeedWaits(m: Machine, core: Core, tok: Text, data: Text)
    requires Sound(m) && Waiting(core, tok)
    ensures var p := Feed(m, core, tok, data);
            && (p.At? ==> Waiting(p.core, p.tok) && |p.tok| <= |tok| + |data|)
            && (core.state != Close ==> p.core.state != Close && (p.Failed? ==> p.err != ErrTooLong))
    decreases |data|
  {
    if data != [] {
      var a := m.step(core, tok, data[0]);
      assert Keeps(core, tok, data[0], a);
      if a.Go? { FeedWaits(m, a.core, Kept(a.keep, tok, data[0]), data[1..]); }
    }
  }

  predicate EndsWith(s: Text, end: Text) { |end| <= |s| && s[|s| - |end|..] == end }

  // What it holds is the end of what it was given: the bytes that it has not consumed.
  lemma {:induction false} FeedHoldsEnd(m: Machine, core: Core, tok: Text, data: Text)
    ensures var p := Feed(m, core, tok, data); p.At? ==> EndsWith(tok + data, p.tok)
    decreases |data|
  {
    if data == [] {
      assert tok + data == tok;
    } else {
      var a := m.step(core, tok, data[0]);
      if a.Go? {
        var kept := Kept(a.keep, tok, data[0]);
        FeedHoldsEnd(m, a.core, kept, data[1..]);
        assert EndsWith(tok + [data[0]], kept);
        assert (tok + [data[0]]) + data[1..] == tok + data;
        var p := Feed(m, a.core, kept, data[1..]);
        if p.At? { EndOfEnd(tok + [data[0]], kept, data[1..], p.tok); }
      }
    }
  }

  lemma EndOfEnd(s: Text, end: Text, more: Text, last: Text)
    requires EndsWith(s, end) && EndsWith(end + more, last)
    ensures EndsWith(s + more, last)
  {
    assert s == s[..|s| - |end|] + end;
    assert s + more == s[..|s| - |end|] + (end + more);
  }

  // Too little of a body is only held.
  lemma {:induction false} BodyGrows(m: Machine, core: Core, tok: Text, data: Text)
    requires Sound(m) && Waiting(core, tok) && InBody(core) && |tok| + |data| < Wanted(core)
    ensures Feed(m, core, tok, data) == At(core, tok + data, [])
    decreases |data|
  {
    if data == [] {
      assert tok + data == tok;
    } else {
      assert Keeps(core, tok, data[0], m.step(core, tok, data[0]));
      BodyGrows(m, core, tok + [data[0]], data[1..]);
      assert tok + [data[0]] + data[1..] == tok + data;
    }
  }

  // Enough of it is delivered, and parsing goes on behind it.
  lemma {:induction false} BodyEnds(m: Machine, core: Core, tok: Text, data: Text)
    requires Sound(m) && Waiting(core, tok) && InBody(core) && |tok| + |data| >= Wanted(core)
    ensures var n := Wanted(core) - |tok|;
            var d := Deliver(core, tok + data[..n]);
            d.Go? && Feed(m, core, tok, data) == Before(d.out, Feed(m, d.core, [], data[n..]))
    decreases |data|
  {
    var n := Wanted(core) - |tok|;
    var d := BodyMissing(m, core, tok, data[..n]);
    assert data[..n] + data[n..] == data;
    FeedBehind(m, core, tok, data[..n], d, data[n..]);
  }

  lemma FeedBehind(m: Machine, core: Core, tok: Text, a: Text, d: Act, b: Text)
    requires d.Go? && Feed(m, core, tok, a) == At(d.core, [], d.out)
    ensures Feed(m, core, tok, a + b) == Before(d.out, Feed(m, d.core, [], b))
  {
    FeedSplit(m, core, tok, a, b);
  }

  lemma {:induction false} BodyMissing(m: Machine, core: Core, tok: Text, data: Text) returns (d: Act)
    requires Sound(m) && Waiting(core, tok) && InBody(core) && |tok| + |data| == Wanted(core)
    ensures d == Deliver(core, tok + data) && d.Go? && Feed(m, core, tok, data) == At(d.core, [], d.out)
    decreases |data|
  {
    assert Keeps(core, tok, data[0], m.step(core, tok, data[0]));
    if |data| == 1 {
      d := Deliver(core, tok + [data[0]]);
      assert tok + data == tok + [data[0]] && data[1..] == [] && d.out + [] == d.out;
    } else {
      d := BodyMissing(m, core, tok + [data[0]], data[1..]);
      assert tok + [data[0]] + data[1..] == tok + data && [] + d.out == d.out;
    }
  }

  // ------------------------------------------------------------ Read, on values

  datatype ParserState = ParserState(core: Core, cache: Option<Text>)

  datatype Result = Result(err: Option<Error>, parser: ParserState, out: seq<Request>)

  predicate ValidParser(p: ParserState) { Waiting(p.core, Held(p.cache)) }

  // What Read does. A cache that is there but empty is only replaced once something has
  // been consumed: until then the bytes are lost.
  function ReadResult(m: Machine, limit: nat, p: ParserState, data: Text): Result
  {
    var tok := Held(p.cache);
    if p.core.state == Close then Result(Some(ErrClosed), p, [])
    else if data == [] then Result(None, p, [])
    else if tok != [] && |tok| + |data| > limit then Result(Some(ErrTooLong), p, [])
    else
      match Feed(m, p.core, tok, data)
      case Failed(err, core, out) =>
        Result(Some(err), ParserState(core, if tok == [] then p.cache else Some(tok + data)), out)
      case At(core, tok', out) =>
        var cache :=
          if tok' == [] then None
          else if p.cache == Some([]) && |tok'| == |data| then p.cache
          else Some(tok');
        Result(None, ParserState(core, cache), out)
  }

  // After Read the parser is as before a call, and, but for a new one, its cache is the end of
  // the bytes it was given that it has not consumed.
  lemma ReadKeepsValid(m: Machine, limit: nat, p: ParserState, data: Text)
    requires Sound(m) && ValidParser(p)
    ensures var r := ReadResult(m, limit, p, data);
            && (r.err == None ==> ValidParser(r.parser))
            && (r.err == None && p.cache != Some([]) ==> r.parser.cache != Some([]))
            && (r.err == None ==> |Held(r.parser.cache)| <= |Held(p.cache)| + |data|)
    ensures var r := ReadResult(m, limit, p, data);
            r.err == None && p.cache != Some([]) && p.core.state != Close ==>
              && Feed(m, p.core, Held(p.cache), data) == At(r.parser.core, Held(r.parser.cache), r.out)
              && EndsWith(Held(p.cache) + data, Held(r.parser.cache))
  {
    FeedHoldsEnd(m, p.core, Held(p.cache), data);
    FeedWaits(m, p.core, Held(p.cache), data);
  }

  // Reading a and then b is reading a followed by b, unless a read is refused as too long.
  lemma SplitDoesNotMatter(m: Machine, limit: nat, p: ParserState, a: Text, b: Text)
    requires Sound(m) && ValidParser(p) && p.cache != Some([])
    requires ReadResult(m, limit, p, a).err == None
    ensures var first := ReadResult(m, limit, p, a);
            var second := ReadResult(m, limit, first.parser, b);
            var whole := ReadResult(m, limit, p, a + b);
            second.err != Some(ErrTooLong) && whole.err != Some(ErrTooLong) ==>
              && whole.err == second.err
              && whole.out == first.out + second.out
              && whole.parser.core == second.parser.core
              && (whole.err == None ==> whole.parser == second.parser)
  {
    var first := ReadResult(m, limit, p, a);
    ReadKeepsValid(m, limit, p, a);
    if a == [] {
      assert a + b == b;
    } else if b == [] {
      assert a + b == a && first.out + [] == first.out;
      FeedWaits(m, p.core, Held(p.cache), a);
    } else {
      FeedSplit(m, p.core, Held(p.cache), a, b);
      FeedWaits(m, p.core, Held(p.cache), a);
      var f := Feed(m, p.core, Held(p.cache), a);
      assert Held(first.parser.cache) == f.tok;
      assert f.out + Feed(m, f.core, f.tok, b).out == Feed(m, p.core, Held(p.cache), a + b).out;
    }
  }

  // Reading one chunk after another, until one fails.
  function ReadAll(m: Machine, limit: nat, p: ParserState, chunks: seq<Text>): Result
    decreases |chunks|
  {
    if chunks == [] then Result(None, p, [])
    else
      var first := ReadResult(m, limit, p, chunks[0]);
      if first.err != None then first
      else
        var later := ReadAll(m, limit, first.parser, chunks[1..]);
        later.(out := first.out + later.out)
  }

  // Any number of reads, none of them refused as too long: the requests, the error and the
  // final state are those of the whole stream, however it is cut.
  lemma {:induction false} ChunksDoNotMatter(m: Machine, limit: nat, p: ParserState, chunks: seq<Text>)
    requires Sound(m) && ValidParser(p) && p.cache != Some([]) && p.core.state != Close
    requires ReadAll(m, limit, p, chunks).err != Some(ErrTooLong)
    ensures var parts := ReadAll(m, limit, p, chunks);
            match Feed(m, p.core, Held(p.cache), Concat(chunks))
            case Failed(err, core, out) => parts.err == Some(err) && parts.parser.core == core && parts.out == out
            case At(core, tok, out) =>
              && parts.err == None && parts.parser.core == core && parts.out == out
              && parts.parser.cache == if tok == [] then None else Some(tok)
    decreases |chunks|
  {
    if chunks == [] {
      assert Concat(chunks) == [];
    } else {
      var a, b := chunks[0], Concat(chunks[1..]);
      var first := ReadResult(m, limit, p, a);
      ReadKeepsValid(m, limit, p, a);
      FeedWaits(m, p.core, Held(p.cache), a);
      FeedSplit(m, p.core, Held(p.cache), a, b);
      if first.err == None { ChunksDoNotMatter(m, limit, first.parser, chunks[1..]); }
    }
  }

  // So they are those of a single read, if that is not refused either.
  lemma OneReadIsEnough(m: Machine, limit: nat, p: ParserState, chunks: seq<Text>)
    requires Sound(m) && ValidParser(p) && p.cache != Some([]) && p.core.state != Close
    requires ReadAll(m, limit, p, chunks).err != Some(ErrTooLong)
    requires ReadResult(m, limit, p, Concat(chunks)).err != Some(ErrTooLong)
    ensures var parts := ReadAll(m, limit, p, chunks);
            var whole := ReadResult(m, limit, p, Concat(chunks));
            && parts.err == whole.err && parts.out == whole.out && parts.parser.core == whole.parser.core
            && (whole.err == None ==> parts.parser == whole.parser)
  {
    ChunksDoNotMatter(m, limit, p, chunks);
  }

  // No read of a stream that fits the limit as a whole is refused.
  lemma {:induction false} SmallIsNotRefused(m: Machine, limit: nat, p: ParserState, chunks: seq<Text>)
    requires Sound(m) && ValidParser(p) && p.cache != Some([]) && p.core.state != Close
    requires |Held(p.cache)| + |Concat(chunks)| <= limit
    ensures ReadAll(m, limit, p, chunks).err != Some(ErrTooLong)
    decreases |chunks|
  {
    if chunks != [] {
      var first := ReadResult(m, limit, p, chunks[0]);
      ReadKeepsValid(m, limit, p, chunks[0]);
      FeedWaits(m, p.core, Held(p.cache), chunks[0]);
      if first.err == None { SmallIsNotRefused(m, limit, first.parser, chunks[1..]); }
    }
  }

  // A read is refused as too long exactly if something is held and that and the chunk are more
  // than the limit: a first chunk may be of any size.
  lemma TooLongExactly(m: Machine, limit: nat, p: ParserState, data: Text)
    requires Sound(m) && ValidParser(p) && p.core.state != Close
    ensures ReadResult(m, limit, p, data).err == Some(ErrTooLong) <==>
              data != [] && Held(p.cache) != [] && |Held(p.cache)| + |data| > limit
  {
    FeedWaits(m, p.core, Held(p.cache), data);
  }

  // What the parser holds between reads is never more than the limit or a single chunk.
  lemma {:induction false} HeldIsBounded(m: Machine, limit: nat, p: ParserState, chunks: seq<Text>, most: nat)
    requires Sound(m) && ValidParser(p) && |Held(p.cache)| <= most && limit <= most
    requires (forall c :: c in chunks ==> |c| <= most) && ReadAll(m, limit, p, chunks).err == None
    ensures |Held(ReadAll(m, limit, p, chunks).parser.cache)| <= most
    decreases |chunks|
  {
    if chunks != [] {
      var first := ReadResult(m, limit, p, chunks[0]);
      ReadKeepsValid(m, limit, p, chunks[0]);
      assert chunks[0] in chunks;
      HeldIsBounded(m, limit, first.parser, chunks[1..], most);
    }
  }
}
