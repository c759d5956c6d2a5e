// Parser.Read as it runs: an index that walks the data and jumps over bodies, and a start
// that marks what has not been consumed.

module HttpRead {
  import opened Basics
  import opened HttpModel
  import opened HttpParser

  const DEFAULT_READ_LIMIT := 20 * 1024 * 1024

  const INITIAL := Core(Line(MethodBefore), None, "", "", "", map[], {}, 0, false, false)

  // Where the loop stands: this much has been handed over, and feeding goes on from here.
  ghost predicate Stands(m: Machine, goal: Progress, out: seq<Request>, core: Core, data: Text, start: nat, i: nat)
    requires start <= i <= |data|
  {
    Waiting(core, data[start..i]) && forall later :: later == data[i..] ==>
      goal == Before(out, Feed(m, core, data[start..i], later))
  }

  lemma Advance(m: Machine, goal: Progress, out: seq<Request>, core: Core, data: Text, start: nat, i: nat)
    requires start <= i < |data| && Sound(m) && Stands(m, goal, out, core, data, start, i)
    ensures var a := m.step(core, data[start..i], data[i]);
            match a
            case Fail(err, core') => goal == Failed(err, core', out)
            case Go(core', keep, more) =>
              var start' := match keep case Same => start case Here => i case After => i + 1;
              Stands(m, goal, out + more, core', data, start', i + 1)
  {
    var tok := data[start..i];
    var a := m.step(core, tok, data[i]);
    assert Keeps(core, tok, data[i], a);
    assert data[i..][1..] == data[i + 1..];
    assert goal == Before(out, Feed(m, core, tok, data[i..]));
    match a
    case Fail(err, core') => assert out + [] == out;
    case Go(core', keep, more) =>
      var start' := match keep case Same => start case Here => i case After => i + 1;
      assert data[start'..i + 1] == Kept(keep, tok, data[i]);
      var p := Feed(m, core', Kept(keep, tok, data[i]), data[i + 1..]);
      assert (out + more) + p.out == out + (more + p.out);
  }

  // A body that is there is delivered, and start and index both go behind it.
  lemma Jump(m: Machine, goal: Progress, out: seq<Request>, core: Core, data: Text, start: nat, i: nat, d: Act)
    requires start <= i < |data| && Sound(m) && Stands(m, goal, out, core, data, start, i)
    requires InBody(core) && |data| - start >= Wanted(core) && d == Deliver(core, data[start..start + Wanted(core)])
    ensures d.Go? && start + Wanted(core) > i
    ensures Stands(m, goal, out + d.out, d.core, data, start + Wanted(core), start + Wanted(core))
  {
    var tok, end := data[start..i], start + Wanted(core);
    assert goal == Before(out, Feed(m, core, tok, data[i..]));
    Behind(data, start, i, end);
    TakesAll(m, core, tok, data[i..], data[start..end], data[end..], d);
    Lands(m, goal, out, d, data, end);
  }

  // A body of which `tok` is held, and the rest of it at the start of the data.
  lemma TakesAll(m: Machine, core: Core, tok: Text, data: Text, body: Text, later: Text, d: Act)
    requires Sound(m) && Waiting(core, tok) && InBody(core) && |tok| + |data| >= Wanted(core) == |body|
    requires body == tok + data[..Wanted(core) - |tok|] && later == data[Wanted(core) - |tok|..] &&
             d == Deliver(core, body)
    ensures d.Go? && Waiting(d.core, []) && Feed(m, core, tok, data) == Before(d.out, Feed(m, d.core, [], later))
  {
    BodyEnds(m, core, tok, data);
    Fresh(core, body, d);
  }

  lemma Lands(m: Machine, goal: Progress, out: seq<Request>, d: Act, data: Text, end: nat)
    requires end <= |data| && d.Go? && Waiting(d.core, [])
    requires goal == Before(out, Before(d.out, Feed(m, d.core, [], data[end..])))
    ensures Stands(m, goal, out + d.out, d.core, data, end, end)
  {
    assert data[end..end] == [];
    var p := Feed(m, d.core, [], data[end..]);
    assert (out + d.out) + p.out == out + (d.out + p.out);
  }

  lemma Behind(data: Text, start: nat, i: nat, end: nat)
    requires start <= i <= end <= |data|
    ensures var n := end - start - |data[start..i]|;
            n == end - i && data[start..i] + data[i..][..n] == data[start..end] && data[i..][n..] == data[end..]
  {
  }

  lemma Fresh(core: Core, data: Text, d: Act)
    requires Ready(core) && InBody(core) && d == Deliver(core, data)
    ensures Waiting(d.core, [])
  {
  }

  // A body that is not all there is left for the next call.
  lemma Short(m: Machine, goal: Progress, out: seq<Request>, core: Core, data: Text, start: nat, i: nat)
    requires start <= i < |data| && Sound(m) && Stands(m, goal, out, core, data, start, i)
    requires InBody(core) && |data| - start < Wanted(core)
    ensures goal == At(core, data[start..], out)
  {
    BodyGrows(m, core, data[start..i], data[i..]);
    assert data[start..i] + data[i..] == data[start..] && out + [] == out;
  }

  lemma AtEnd(m: Machine, goal: Progress, out: seq<Request>, core: Core, data: Text, start: nat)
    requires start <= |data| && Stands(m, goal, out, core, data, start, |data|)
    ensures goal == At(core, data[start..], out)
  {
    assert goal == Before(out, Feed(m, core, data[start..|data|], data[|data|..]));
    assert data[start..|data|] == data[start..] && data[|data|..] == [] && out + [] == out;
  }

  class Parser {
    const m: Machine  // the parsing of one byte
    const readLimit: nat
    var core: Core
    var cache: Option<Text>
    var served: seq<Request>  // the requests handed to onRequest

    ghost function Snapshot(): ParserState
      reads this
    {
      ParserState(core, cache)
    }

    ghost predicate Valid()
      reads this
    {
      Sound(m) && ValidParser(Snapshot())
    }

    // NewParser: the cache is there, and empty
    constructor (lib: Lib, readLimit: int)
      ensures Valid() && Snapshot() == ParserState(INITIAL, Some([])) && served == [] && m == Parsing(lib)
      ensures this.readLimit == if readLimit <= 0 then DEFAULT_READ_LIMIT else readLimit
    {
      m := Parsing(lib);
      this.readLimit := if readLimit <= 0 then DEFAULT_READ_LIMIT else readLimit;
      core, cache, served := INITIAL, Some([]), [];
      ParsingIsSound(lib);
    }

    method Close()
      requires Valid()
      modifies this`core, this`cache
      ensures Valid() && core == old(core).(state := State.Close)
      ensures cache == if old(core.state) == State.Close then old(cache) else None
    {
      if core.state == State.Close {
        return;
      }
      core := core.(state := State.Close);
      cache := None;
    }

    // A whole body that starts at `start` is handed over.
    method TakeBody(data: Text, start: nat, i: nat, ghost goal: Progress, ghost out: seq<Request>)
      returns (start': nat, ghost more: seq<Request>)
      requires start <= i < |data| && Sound(m) && Stands(m, goal, out, core, data, start, i)
      requires InBody(core) && |data| - start >= Wanted(core)
      modifies this`core, this`served
      ensures i < start' <= |data| && served == old(served) + more
      ensures Stands(m, goal, out + more, core, data, start', start')
    {
      var cl := Wanted(core);
      var d := Deliver(core, data[start..start + cl]);
      Jump(m, goal, out, core, data, start, i, d);
      core, served, more := d.core, served + d.out, d.out;
      start' := start + cl;
    }

    // One byte outside a body.
    method TakeByte(data: Text, start: nat, i: nat, ghost goal: Progress, ghost out: seq<Request>)
      returns (err: Option<Error>, start': nat, ghost more: seq<Request>)
      requires start <= i < |data| && Sound(m) && Stands(m, goal, out, core, data, start, i)
      modifies this`core, this`served
      ensures served == old(served) + more && start' <= i + 1
      ensures if err.Some? then goal == Failed(err.value, core, out + more)
              else Stands(m, goal, out + more, core, data, start', i + 1)
    {
      Advance(m, goal, out, core, data, start, i);
      err, start', more := None, start, [];
      match m.step(core, data[start..i], data[i])
      case Fail(e, core') =>
        core, err := core', Some(e);
        assert out + more == out;
      case Go(core', keep, added) =>
        core, served, more := core', served + added, added;
        match keep {
          case Same =>
          case Here => start' := i;
          case After => start' := i + 1;
        }
    }

    // The loop of Read over data[offset..]; `rest` is where it has left start.
    method Scan(data: Text, offset: nat, ghost goal: Progress)
      returns (err: Option<Error>, rest: nat, ghost out: seq<Request>)
      requires Sound(m) && offset <= |data| && Stands(m, goal, [], core, data, 0, offset)
      modifies this`core, this`served
      ensures served == old(served) + out && rest <= |data|
      ensures goal == if err.Some? then Failed(err.value, core, out) else At(core, data[rest..], out)
    {
      var start: int, i: int := 0, offset;
      out := [];
      while i < |data|
        invariant 0 <= start <= i <= |data| && served == old(served) + out
        invariant Stands(m, goal, out, core, data, start, i)
        decreases |data| - i
      {
        ghost var more;
        if InBody(core) {
          if |data| - start < Wanted(core) {
            Short(m, goal, out, core, data, start, i);
            return None, start, out;
          }
          start, more := TakeBody(data, start, i, goal, out);
          i := start - 1;
        } else {
          err, start, more := TakeByte(data, start, i, goal, out);
          if err.Some? {
            return err, start, out + more;
          }
        }
        out := out + more;
        i := i + 1;
      }
      AtEnd(m, goal, out, core, data, start);
      return None, start, out;
    }

    method Read(chunk: Text) returns (err: Option<Error>, ghost out: seq<Request>)
      requires Valid()
      modifies this
      ensures ReadResult(m, readLimit, old(Snapshot()), chunk) == Result(err, Snapshot(), out)
      ensures served == old(served) + out
      ensures err == None ==> Valid()
    {
      out := [];
      ReadKeepsValid(m, readLimit, Snapshot(), chunk);
      if core.state == State.Close {
        return Some(ErrClosed), out;
      }
      if |chunk| == 0 {
        return None, out;
      }
      var data, offset := chunk, 0;
      if cache.Some? {
        offset := |cache.value|;
      }
      if offset > 0 {
        if offset + |data| > readLimit {
          return Some(ErrTooLong), out;
        }
        cache := Some(cache.value + data);
        data := cache.value;
      }
      ghost var tok := Held(old(cache));
      ghost var goal := Feed(m, core, tok, chunk);
      assert data[0..offset] == tok && data[offset..] == chunk;
      assert [] + goal.out == goal.out;
      var start;
      err, start, out := Scan(data, offset, goal);
      if err.Some? {
        return;
      }
      if |data| - start > 0 {
        if cache == None {
          cache := Some(data[start..]);
        } else if start > 0 {
          cache := Some(data[start..]);
        }
      } else if cache.Some? {
        cache := None;
      }
      assert start == 0 ==> data[start..] == data;
    }
  }
}
