// The writer that holds back the last four bytes of a deflated message
// (httpd/websocket/compression.go:85-116, section 7.2.1 of RFC 7692).

module TruncWriter {
  import opened Arith
  import opened Basics
  import opened Bytes

  const TAIL := 4

  // All but the last four bytes of a text, and those.
  function Passed(text: seq<byte>): seq<byte> { text[..|text| - Min(TAIL, |text|)] }

  function HeldBack(text: seq<byte>): seq<byte> { text[|text| - Min(TAIL, |text|)..] }

  class Writer {
    var sink: seq<byte>   // what the writer underneath has been given
    var n: nat
    var p: array<byte>
    ghost var text: seq<byte>  // all that has been written

    // The sink and what is held back are all that was written, and no more than four bytes
    // are held back.
    ghost predicate Valid()
      reads this, p
    {
      p.Length == TAIL && n <= TAIL && sink == Passed(text) && p[..n] == HeldBack(text)
    }

    constructor ()
      ensures Valid() && text == [] && sink == []
    {
      sink, n, text := [], 0, [];
      p := new byte[TAIL];
    }

    method Write(data: seq<byte>) returns (r: nat)
      requires Valid()
      modifies this, p
      ensures Valid() && text == old(text) + data && p == old(p)
      ensures sink + p[..n] == text  // nothing is lost
      ensures r == if old(n) + |data| <= TAIL then |data| else |data| - Min(TAIL, |data| - (TAIL - old(n)))
      ensures r == |data| <==> old(n) + |data| <= TAIL  // only then does it claim all it was given
    {
      var k, rest := 0, data;
      if n < TAIL {
        k := Min(TAIL - n, |data|);
        Copy(p, n, data[..k]);
        rest := rest[k..];
        n := n + k;
        text := text + data[..k];
        assert p[..n] == old(p[..n]) + data[..k];
        if |rest| == 0 {
          assert data[..k] == data;
          Cut(text, |text| - n);
          return k;
        }
      }
      assert old(text) + data == text + rest;
      Shift(rest);
      Cut(text, |text| - n);
      return k + |rest| - Min(TAIL, |rest|);
    }

    // Once four bytes are held back: as many of them as come go out, and the rest move up.
    method Shift(rest: seq<byte>)
      requires Valid() && n == TAIL
      modifies this`sink, this`text, p
      ensures Valid() && text == old(text) + rest
    {
      var m := Min(TAIL, |rest|);
      sink := sink + p[..m];
      HoldLast(rest[|rest| - m..]);
      sink := sink + rest[..|rest| - m];
      text := text + rest;
      Splits(old(text), rest, m);
    }

    // The last bytes come in at the end, and those held back move up.
    method HoldLast(last: seq<byte>)
      requires |last| <= TAIL && p.Length == TAIL
      modifies p
      ensures p[..TAIL] == old(p[..TAIL])[|last|..] + last
    {
      var m := |last|;
      Move(m);
      Copy(p, TAIL - m, last);
      assert p[..TAIL] == p[..TAIL - m] + p[TAIL - m..TAIL];
    }

    // copy(w.p[:], w.p[m:])
    method Move(m: nat)
      requires m <= TAIL && p.Length == TAIL
      modifies p
      ensures p[..TAIL - m] == old(p[..])[m..]
    {
      forall i | 0 <= i < TAIL - m {
        p[i] := p[i + m];
      }
    }
  }

  method Copy(b: array<byte>, at: nat, data: seq<byte>)
    requires at + |data| <= b.Length
    modifies b
    ensures b[..at] == old(b[..at]) && b[at..at + |data|] == data
  {
    forall i | 0 <= i < |data| {
      b[at + i] := data[i];
    }
  }

  lemma CutBefore(text: seq<byte>, a: seq<byte>, b: seq<byte>)
    requires text == a + b && |b| == Min(TAIL, |text|)
    ensures Passed(text) == a && HeldBack(text) == b
  {
  }

  lemma Splits(text: seq<byte>, rest: seq<byte>, m: nat)
    requires |HeldBack(text)| == TAIL && m == Min(TAIL, |rest|)
    ensures Passed(text + rest) == (Passed(text) + HeldBack(text)[..m]) + rest[..|rest| - m]
    ensures HeldBack(text + rest) == HeldBack(text)[m..] + rest[|rest| - m..]
  {
    var p, h := Passed(text), HeldBack(text);
    var out, held, more, last := p + h[..m], h[m..], rest[..|rest| - m], rest[|rest| - m..];
    Cut(text, |text| - TAIL);
    Cut(h, m);
    Cut(rest, |rest| - m);
    Associate(p, h[..m], held);
    if |rest| >= TAIL {
      assert held == [] && out + held == out && held + last == last;
      Associate(out, more, last);
    } else {
      assert more == [] && out + more == out && more + last == last;
      Associate(out, held, last);
    }
    CutBefore(text + rest, out + more, held + last);
  }

  lemma Cut(s: seq<byte>, k: nat)
    requires k <= |s|
    ensures s[..k] + s[k..] == s
  {
  }
}
