// What the coder writes, byte by byte (gate/pb/encoder.go), said without the encoding functions.

module PbWire {
  import opened Arith
  import opened Bytes
  import opened PbModel
  import opened PbProofs
  import opened PbMessages

  // ------------------------------------------------------------ scalars

  // Bytes, most significant first, that hold the number modulo their width.
  predicate Holds(s: seq<byte>, w: nat, n: int) { |s| == w && FromBE(s) == if n < 0 then n + Pow256(w) else n }

  // A payload behind the two bytes of its length.
  predicate Behind(s: seq<byte>, payload: seq<byte>) {
    |s| == 2 + |payload| && (s[0] as int) * 256 + s[1] == |payload| && s[2..] == payload
  }

  function Width(k: Kind): nat {
    match k
    case KSigned(w) => w
    case KFloat(w) => w
    case KUint16 => 2
    case _ => 1
  }

  // How a value that fits is written: a bool as 1 or 0, a number in the bytes of its width, a
  // text behind its length, and a pid behind a 1 as its id and its node, or as 0 if there is none.
  predicate Written(k: Kind, v: Value, s: seq<byte>) {
    match v
    case VBool(b) => s == [if b then 1 else 0]
    case VInt(n) => Holds(s, Width(Base(k)), n)
    case VFloat(bits) => Holds(s, Width(Base(k)), bits)
    case VText(t) => Behind(s, t)
    case VPid(id, node) => |s| >= 9 && s[0] == 1 && Holds(s[1..9], 8, id) && Behind(s[9..], node)
    case _ => s == [0]
  }

  lemma NumberIsHeld(w: nat, n: int)
    requires -Pow256(w) <= n < Pow256(w)
    ensures Holds(ToBE(w, n), w, n)
  {
    FromToBE(w, n);
    if n < 0 { DivMod(n, Pow256(w), -1, n + Pow256(w)); } else { DivMod(n, Pow256(w), 0, n); }
  }

  lemma TextIsBehind(t: seq<byte>)
    requires |t| < 65536
    ensures Behind(Prefixed(t), t)
  {
    TwoBytes(|t|);
  }

  lemma ScalarIsWritten(pos: Pos, k: Kind, v: Value)
    requires ScalarConforms(pos, k, v)
    ensures Written(k, v, EncScalar(k, v))
  {
    match v
    case VInt(n) =>
      assert Pow256(1) == 256 && Pow256(2) == 65536;
      NumberIsHeld(Width(Base(k)), n);
    case VFloat(bits) => NumberIsHeld(Width(Base(k)), bits);
    case VText(t) => TextIsBehind(t);
    case VPid(id, node) => PidIsWritten(k, id, node);
    case _ =>
  }

  lemma PidIsWritten(k: Kind, id: int, node: seq<byte>)
    requires InWidth(8, id) && |node| < 65536
    ensures Written(k, VPid(id, node), [1] + ToBE(8, id) + Prefixed(node))
  {
    var s := [1] + ToBE(8, id) + Prefixed(node);
    NumberIsHeld(8, id);
    TextIsBehind(node);
    assert s[1..9] == ToBE(8, id) && s[9..] == Prefixed(node);
  }

  lemma HeldOnce(s: seq<byte>, t: seq<byte>)
    requires |s| == |t| && FromBE(s) == FromBE(t)
    ensures s == t
  {
    ToFromBE(s);
    ToFromBE(t);
  }

  lemma BehindOnce(s: seq<byte>, payload: seq<byte>)
    requires |payload| < 65536
    ensures Behind(s, payload) <==> s == Prefixed(payload)
  {
    TextIsBehind(payload);
    if Behind(s, payload) {
      var t := Prefixed(payload);
      assert s[0] == t[0] && s[1] == t[1];
      assert s == [s[0], s[1]] + s[2..] && t == [t[0], t[1]] + t[2..];
    }
  }

  // And in no other way.
  lemma WrittenOnce(pos: Pos, k: Kind, v: Value, s: seq<byte>)
    requires ScalarConforms(pos, k, v)
    ensures Written(k, v, s) <==> s == EncScalar(k, v)
  {
    ScalarIsWritten(pos, k, v);
    if Written(k, v, s) {
      var t := EncScalar(k, v);
      match v
      case VInt(n) => HeldOnce(s, t);
      case VFloat(bits) => HeldOnce(s, t);
      case VText(text) => BehindOnce(s, text);
      case VPid(id, node) =>
        HeldOnce(s[1..9], t[1..9]);
        BehindOnce(s[9..], node);
        BehindOnce(t[9..], node);
        assert s == [1] + s[1..9] + s[9..] && t == [1] + t[1..9] + t[9..];
      case _ =>
    }
  }

  // ------------------------------------------------------------ values of any kind

  // Some bytes and then some others.
  ghost predicate InTwo(s: seq<byte>, first: seq<byte> -> bool, rest: seq<byte> -> bool) {
    exists i :: 0 <= i <= |s| && first(s[..i]) && rest(s[i..])
  }

  // How a value of any kind is written. What a slice or a map holds stands in a row behind its
  // length. A struct in a slice or map is its fields in a row, and nothing if it is nil; in a
  // field it stands behind a 1, and for a nil pointer, or a struct without fields, there is a 0.
  ghost predicate Spelt(sch: Schema, pos: Pos, k: Kind, v: Value, s: seq<byte>)
    decreases v, 0
  {
    match k
    case KSlice(e) => v.VSlice? && |s| >= 2 && Behind(s, s[2..]) && ElemsSpelt(sch, e, v.es, s[2..])
    case KMap(kk, kv) => v.VMap? && |s| >= 2 && Behind(s, s[2..]) && EntriesSpelt(sch, kk, kv, v.entries, s[2..])
    case KStruct(n) =>
      if v.VStruct? && n in sch then
        if pos == Elem then FieldsSpelt(sch, sch[n].fields, v.fields, s)
        else if sch[n].fields == [] then s == [0]
        else |s| > 1 && s[0] == 1 && FieldsSpelt(sch, sch[n].fields, v.fields, s[1..])
      else s == if pos == Elem then [] else [0]
    case _ => Written(k, v, s)
  }

  ghost predicate ElemsSpelt(sch: Schema, e: Kind, es: seq<Value>, s: seq<byte>)
    decreases es, 0
  {
    if es == [] then s == []
    else InTwo(s, t => Spelt(sch, Elem, e, es[0], t), t => ElemsSpelt(sch, e, es[1..], t))
  }

  ghost predicate FieldsSpelt(sch: Schema, ks: seq<Kind>, vs: seq<Value>, s: seq<byte>)
    decreases vs, 0
  {
    |ks| == |vs| &&
    if vs == [] then s == []
    else InTwo(s, t => Spelt(sch, Field, ks[0], vs[0], t), t => FieldsSpelt(sch, ks[1..], vs[1..], t))
  }

  ghost predicate EntriesSpelt(sch: Schema, kk: Kind, kv: Kind, es: seq<Entry>, s: seq<byte>)
    decreases es, 0
  {
    if es == [] then s == []
    else EntrySpelt(sch, kk, kv, es[0], s, t => EntriesSpelt(sch, kk, kv, es[1..], t))
  }

  // An entry in front of others: its key, its value, and then the rest.
  ghost predicate EntrySpelt(sch: Schema, kk: Kind, kv: Kind, e: Entry, s: seq<byte>, rest: seq<byte> -> bool)
    decreases e, 0
  {
    InTwo(s, t => Spelt(sch, Elem, kk, e.key, t), t => InTwo(t, u => Spelt(sch, Elem, kv, e.val, u), rest))
  }

  ghost predicate Only(what: seq<byte> -> bool, a: seq<byte>) { forall t :: what(t) <==> t == a }

  lemma InTwoExactly(s: seq<byte>, first: seq<byte> -> bool, rest: seq<byte> -> bool, a: seq<byte>, b: seq<byte>)
    requires Only(first, a) && Only(rest, b)
    ensures InTwo(s, first, rest) <==> s == a + b
  {
    if InTwo(s, first, rest) {
      var i :| 0 <= i <= |s| && first(s[..i]) && rest(s[i..]);
      assert s == s[..i] + s[i..];
    }
    if s == a + b { assert s[..|a|] == a && s[|a|..] == b; }
  }

  // The encoding of a value that fits is how it is written, and there is no other way.
  lemma {:induction false} SpeltExactly(sch: Schema, pos: Pos, k: Kind, v: Value, s: seq<byte>)
    requires Conforms(sch, pos, k, v)
    ensures Spelt(sch, pos, k, v, s) <==> s == Enc(sch, pos, k, v)
    decreases v, 0
  {
    match k
    case KSlice(e) =>
      var body := EncElems(sch, e, v.es);
      BehindOnce(s, body);
      if |s| >= 2 { ElemsSpeltExactly(sch, e, v.es, s[2..]); }
    case KMap(kk, kv) =>
      var body := EncEntries(sch, kk, kv, v.entries);
      BehindOnce(s, body);
      if |s| >= 2 { EntriesSpeltExactly(sch, kk, kv, v.entries, s[2..]); }
    case KStruct(n) =>
      if v.VStruct? { StructSpeltExactly(sch, pos, n, v.fields, s); }
    case _ => WrittenOnce(pos, k, v, s);
  }

  lemma {:induction false} StructSpeltExactly(sch: Schema, pos: Pos, n: nat, vs: seq<Value>, s: seq<byte>)
    requires n in sch && FieldsConform(sch, sch[n].fields, vs)
    ensures Spelt(sch, pos, KStruct(n), VStruct(vs), s) <==> s == Enc(sch, pos, KStruct(n), VStruct(vs))
    decreases vs, 1
  {
    var ks, body := sch[n].fields, EncFields(sch, sch[n].fields, vs);
    FieldsSpeltExactly(sch, ks, vs, s);
    if ks != [] {
      FieldTakesBytes(sch, ks[0], vs[0]);
      if |s| > 1 {
        FieldsSpeltExactly(sch, ks, vs, s[1..]);
        assert s == [s[0]] + s[1..];
      }
    }
  }

  lemma {:induction false} FieldsSpeltExactly(sch: Schema, ks: seq<Kind>, vs: seq<Value>, s: seq<byte>)
    requires FieldsConform(sch, ks, vs)
    ensures FieldsSpelt(sch, ks, vs, s) <==> s == EncFields(sch, ks, vs)
    decreases vs, 0
  {
    if vs != [] {
      var first, rest := t => Spelt(sch, Field, ks[0], vs[0], t), t => FieldsSpelt(sch, ks[1..], vs[1..], t);
      forall t
        ensures first(t) <==> t == Enc(sch, Field, ks[0], vs[0])
      {
        SpeltExactly(sch, Field, ks[0], vs[0], t);
      }
      forall t
        ensures rest(t) <==> t == EncFields(sch, ks[1..], vs[1..])
      {
        FieldsSpeltExactly(sch, ks[1..], vs[1..], t);
      }
      InTwoExactly(s, first, rest, Enc(sch, Field, ks[0], vs[0]), EncFields(sch, ks[1..], vs[1..]));
    }
  }

  lemma {:induction false} ElemSpeltExactly(sch: Schema, e: Kind, es: seq<Value>, s: seq<byte>)
    requires es != [] && AllConform(sch, e, es)
    ensures Spelt(sch, Elem, e, es[0], s) <==> s == Enc(sch, Elem, e, es[0])
    decreases es, 0
  {
    if !NilElem(sch, e, es[0]) { SpeltExactly(sch, Elem, e, es[0], s); }
  }

  lemma {:induction false} ElemsSpeltExactly(sch: Schema, e: Kind, es: seq<Value>, s: seq<byte>)
    requires AllConform(sch, e, es)
    ensures ElemsSpelt(sch, e, es, s) <==> s == EncElems(sch, e, es)
    decreases es, 1
  {
    if es != [] {
      var first, rest := t => Spelt(sch, Elem, e, es[0], t), t => ElemsSpelt(sch, e, es[1..], t);
      forall t
        ensures first(t) <==> t == Enc(sch, Elem, e, es[0])
      {
        ElemSpeltExactly(sch, e, es, t);
      }
      forall t
        ensures rest(t) <==> t == EncElems(sch, e, es[1..])
      {
        ElemsSpeltExactly(sch, e, es[1..], t);
      }
      InTwoExactly(s, first, rest, Enc(sch, Elem, e, es[0]), EncElems(sch, e, es[1..]));
    }
  }

  lemma JoinEntry(s: seq<byte>, key: seq<byte> -> bool, val: seq<byte> -> bool, rest: seq<byte> -> bool,
                  a: seq<byte>, b: seq<byte>, c: seq<byte>)
    requires Only(key, a) && Only(val, b) && Only(rest, c)
    ensures InTwo(s, key, t => InTwo(t, val, rest)) <==> s == (a + b) + c
  {
    var behind := t => InTwo(t, val, rest);
    forall t
      ensures behind(t) <==> t == b + c
    {
      InTwoExactly(t, val, rest, b, c);
    }
    InTwoExactly(s, key, behind, a, b + c);
    assert a + (b + c) == (a + b) + c;
  }

  lemma {:induction false} OnlyOne(sch: Schema, k: Kind, v: Value, way: seq<byte> -> bool)
    requires Conforms(sch, Elem, k, v) && way == (t => Spelt(sch, Elem, k, v, t))
    ensures Only(way, Enc(sch, Elem, k, v))
    decreases v, 1
  {
    forall t
      ensures way(t) <==> t == Enc(sch, Elem, k, v)
    {
      SpeltExactly(sch, Elem, k, v, t);
    }
  }

  lemma {:induction false} EntrySpeltExactly(sch: Schema, kk: Kind, kv: Kind, e: Entry, s: seq<byte>,
                                             rest: seq<byte> -> bool, c: seq<byte>)
    requires EntryConforms(sch, kk, kv, e) && Only(rest, c)
    ensures EntrySpelt(sch, kk, kv, e, s, rest) <==> s == EncEntry(sch, kk, kv, e) + c
    decreases e, 0
  {
    var key, val := t => Spelt(sch, Elem, kk, e.key, t), t => Spelt(sch, Elem, kv, e.val, t);
    OnlyOne(sch, kk, e.key, key);
    OnlyOne(sch, kv, e.val, val);
    JoinEntry(s, key, val, rest, Enc(sch, Elem, kk, e.key), Enc(sch, Elem, kv, e.val), c);
  }

  // What entries come to, stated so that the definitions are not unfolded.
  ghost predicate EntriesEncIs(sch: Schema, kk: Kind, kv: Kind, es: seq<Entry>, c: seq<byte>) {
    forall p :: p == es ==> EncEntries(sch, kk, kv, p) == c
  }

  ghost predicate FirstIs(sch: Schema, kk: Kind, kv: Kind, e: Entry, s: seq<byte>, rest: seq<byte> -> bool,
                          t: seq<byte>) {
    forall p :: p == e ==> (EntrySpelt(sch, kk, kv, p, s, rest) <==> s == t)
  }

  lemma JoinSpelt(sch: Schema, kk: Kind, kv: Kind, es: seq<Entry>, s: seq<byte>, rest: seq<byte> -> bool, t: seq<byte>)
    requires es != [] && rest == (t => EntriesSpelt(sch, kk, kv, es[1..], t))
    requires FirstIs(sch, kk, kv, es[0], s, rest, t)
    ensures EntriesSpelt(sch, kk, kv, es, s) <==> s == t
  {
  }

  lemma JoinEntriesEnc(sch: Schema, kk: Kind, kv: Kind, es: seq<Entry>, a: seq<byte>, c: seq<byte>)
    requires es != [] && EntryEncIs(sch, kk, kv, es[0], a) && EntriesEncIs(sch, kk, kv, es[1..], c)
    ensures EncEntries(sch, kk, kv, es) == a + c
  {
  }

  lemma {:induction false} EntryIs(sch: Schema, kk: Kind, kv: Kind, e: Entry, s: seq<byte>, rest: seq<byte> -> bool,
                                   c: seq<byte>) returns (a: seq<byte>)
    requires EntryConforms(sch, kk, kv, e) && Only(rest, c)
    ensures EntryEncIs(sch, kk, kv, e, a) && FirstIs(sch, kk, kv, e, s, rest, a + c)
    decreases e, 1
  {
    a := EncEntry(sch, kk, kv, e);
    EntrySpeltExactly(sch, kk, kv, e, s, rest, c);
  }

  lemma {:induction false} RestIs(sch: Schema, kk: Kind, kv: Kind, es: seq<Entry>, rest: seq<byte> -> bool)
    returns (c: seq<byte>)
    requires EntriesConform(sch, kk, kv, es) && rest == (t => EntriesSpelt(sch, kk, kv, es, t))
    ensures EntriesEncIs(sch, kk, kv, es, c) && Only(rest, c)
    decreases es, 1
  {
    c := EncEntries(sch, kk, kv, es);
    forall t
      ensures rest(t) <==> t == c
    {
      EntriesSpeltExactly(sch, kk, kv, es, t);
    }
  }

  lemma {:induction false} EntriesSpeltExactly(sch: Schema, kk: Kind, kv: Kind, es: seq<Entry>, s: seq<byte>)
    requires EntriesConform(sch, kk, kv, es)
    ensures EntriesSpelt(sch, kk, kv, es, s) <==> s == EncEntries(sch, kk, kv, es)
    decreases es, 0
  {
    if es != [] {
      var rest := t => EntriesSpelt(sch, kk, kv, es[1..], t);
      var c := RestIs(sch, kk, kv, es[1..], rest);
      var a := EntryIs(sch, kk, kv, es[0], s, rest, c);
      JoinSpelt(sch, kk, kv, es, s, rest, a + c);
      JoinEntriesEnc(sch, kk, kv, es, a, c);
    }
  }

  // ------------------------------------------------------------ whole protos

  // A proto is its id in two bytes and then its fields.
  lemma ProtoIsSpelt(c: Coder, p: Proto)
    requires Registered(c, p)
    ensures var body := Body(c, p);
            && |body| >= 2 && (body[0] as int) * 256 + body[1] == c.sch[p.name].id
            && FieldsSpelt(c.sch, c.sch[p.name].fields, p.fields, body[2..])
  {
    var id, rest := c.sch[p.name].id, EncFields(c.sch, c.sch[p.name].fields, p.fields);
    TwoBytes(id);
    FieldsSpeltExactly(c.sch, c.sch[p.name].fields, p.fields, rest);
    assert (ToBE(2, id) + rest)[2..] == rest;
  }
}
