// Decoding what was encoded: for every schema, every conforming value, any offset and any
// bytes around it.

module PbProofs {
  import opened Basics
  import opened Arith
  import opened Bytes
  import opened PbModel

  ghost predicate Has(buf: seq<byte>, index: nat, part: seq<byte>) {
    index + |part| <= |buf| && buf[index..index + |part|] == part
  }

  lemma HasBoth(buf: seq<byte>, index: nat, a: seq<byte>, b: seq<byte>)
    requires Has(buf, index, a + b)
    ensures Has(buf, index, a) && Has(buf, index + |a|, b)
  {
    assert (a + b)[..|a|] == a && (a + b)[|a|..] == b;
    assert buf[index..index + |a + b|][..|a|] == buf[index..index + |a|];
    assert buf[index..index + |a + b|][|a|..] == buf[index + |a|..index + |a| + |b|];
  }

  lemma HasAt(buf: seq<byte>, index: nat, part: seq<byte>, i: nat)
    requires Has(buf, index, part) && i < |part|
    ensures index + i < |buf| && buf[index + i] == part[i]
  {
    assert buf[index..index + |part|][i] == part[i];
  }

  // A struct without fields takes no bytes where there is no presence byte.
  predicate EmptyStruct(sch: Schema, k: Kind) {
    k.KStruct? && k.name in sch && sch[k.name].fields == []
  }

  // ------------------------------------------------------------ what decoding gives back

  function SeenScalar(pos: Pos, k: Kind, v: Value): Option<Value> {
    if k.KNamed? then None
    else if k == KUint16 && v.VInt? then Some(VInt(v.n / 256 * 257))
    else if k.KFloat? && pos == Elem then None
    else Some(v)
  }

  // The value a conforming value decodes to, or None if decoding it fails.
  function Seen(sch: Schema, pos: Pos, k: Kind, v: Value): Option<Value>
    decreases v, 0
  {
    match k
    case KSlice(e) =>
      if !v.VSlice? || EmptyStruct(sch, e) then Some(VSlice([]))
      else
        var r := SeenElems(sch, e, v.es);
        if r == None then None else Some(VSlice(r.value))
    case KMap(kk, kv) =>
      var r := if v.VMap? then SeenEntries(sch, kk, kv, v.entries, []) else None;
      if r == None then None else Some(VMap(r.value))
    case KStruct(n) =>
      if !v.VStruct? || n !in sch || (pos == Field && sch[n].fields == []) then Some(VNil)
      else
        var r := SeenFields(sch, sch[n].fields, v.fields);
        if !sch[n].open || r == None then None else Some(VStruct(r.value))
    case _ => SeenScalar(pos, k, v)
  }

  function SeenElems(sch: Schema, e: Kind, es: seq<Value>): Option<seq<Value>>
    decreases es, 0
  {
    if es == [] then Some([])
    else if NilElem(sch, e, es[0]) then SeenElems(sch, e, es[1..])
    else
      var v, rest := Seen(sch, Elem, e, es[0]), SeenElems(sch, e, es[1..]);
      if v == None || rest == None then None else Some([v.value] + rest.value)
  }

  function SeenEntry(sch: Schema, kk: Kind, kv: Kind, e: Entry): Option<Entry>
    decreases e, 0
  {
    var key, val := Seen(sch, Elem, kk, e.key), Seen(sch, Elem, kv, e.val);
    if key == None || val == None then None else Some(Entry(key.value, val.value))
  }

  function SeenEntries(sch: Schema, kk: Kind, kv: Kind, es: seq<Entry>, m: seq<Entry>): Option<seq<Entry>>
    decreases es, 0
  {
    if es == [] then Some(m)
    else
      var e := SeenEntry(sch, kk, kv, es[0]);
      if e == None then None else SeenEntries(sch, kk, kv, es[1..], SetEntry(m, e.value))
  }

  function SeenFields(sch: Schema, ks: seq<Kind>, vs: seq<Value>): Option<seq<Value>>
    decreases vs, 0
  {
    if ks == [] || vs == [] then Some([])
    else
      var v, rest := Seen(sch, Field, ks[0], vs[0]), SeenFields(sch, ks[1..], vs[1..]);
      if v == None || rest == None then None else Some([v.value] + rest.value)
  }

  // ------------------------------------------------------------ widths

  lemma FieldTakesBytes(sch: Schema, k: Kind, v: Value)
    requires Conforms(sch, Field, k, v)
    ensures |Enc(sch, Field, k, v)| >= 1
  {
  }

  lemma ElemTakesBytes(sch: Schema, k: Kind, v: Value)
    requires Conforms(sch, Elem, k, v)
    ensures EmptyStruct(sch, k) ==> Enc(sch, Elem, k, v) == []
    ensures !EmptyStruct(sch, k) ==> |Enc(sch, Elem, k, v)| >= 1
  {
    if k.KStruct? && !EmptyStruct(sch, k) {
      FieldTakesBytes(sch, sch[k.name].fields[0], v.fields[0]);
    }
  }

  lemma {:induction false} NoWidth(sch: Schema, e: Kind, es: seq<Value>)
    requires AllConform(sch, e, es) && EmptyStruct(sch, e)
    ensures EncElems(sch, e, es) == []
    decreases |es|
  {
    if es != [] {
      if !NilElem(sch, e, es[0]) { ElemTakesBytes(sch, e, es[0]); }
      NoWidth(sch, e, es[1..]);
    }
  }

  // ------------------------------------------------------------ scalars

  lemma SignedBack(w: nat, n: int)
    requires InWidth(w, n)
    ensures Signed(w, FromBE(ToBE(w, n))) == n
  {
    FromToBE(w, n);
    var p := Pow256(w);
    if n >= 0 { DivMod(n, p, 0, n); } else { DivMod(n, p, -1, n + p); }
  }

  lemma PayloadBack(buf: seq<byte>, index: nat, payload: seq<byte>)
    requires Has(buf, index, Prefixed(payload)) && |payload| < 65536
    ensures Payload(buf, index) == Some(index + 2 + |payload|)
    ensures Has(buf, index + 2, payload)
    ensures index + 2 + |payload| <= |buf| && buf[index + 2..index + 2 + |payload|] == payload
  {
    HasBoth(buf, index, ToBE(2, |payload|), payload);
    HasAt(buf, index, ToBE(2, |payload|), 0);
    HasAt(buf, index, ToBE(2, |payload|), 1);
    TwoBytes(|payload|);
  }

  lemma TextBack(buf: seq<byte>, index: nat, s: seq<byte>)
    requires Has(buf, index, Prefixed(s)) && |s| < 65536
    ensures DecText(buf, index) == Some(Got(VText(s), index + 2 + |s|))
  {
    PayloadBack(buf, index, s);
  }

  // ------------------------------------------------------------ the theorem

  function Outcome(r: Option<Value>, next: nat): Option<Got> {
    match r
    case None => None
    case Some(w) => Some(Got(w, next))
  }

  // Decoding the encoding of v that stands at `index` yields what Seen says, and stops behind it.
  ghost predicate Back(sch: Schema, pos: Pos, k: Kind, v: Value, buf: seq<byte>, index: nat) {
    Dec(sch, pos, k, buf, index) == Outcome(Seen(sch, pos, k, v), index + |Enc(sch, pos, k, v)|)
  }

  // Decoding an encoded value, wherever it stands, yields exactly what Seen says, and stops
  // exactly behind it.
  lemma {:induction false} DecodeOfEncode(sch: Schema, pos: Pos, k: Kind, v: Value, buf: seq<byte>, index: nat)
    requires Conforms(sch, pos, k, v) && Has(buf, index, Enc(sch, pos, k, v))
    ensures Back(sch, pos, k, v, buf, index)
    decreases v, 1
  {
    match k
    case KSlice(e) => SliceBack(sch, pos, e, v, buf, index);
    case KMap(kk, kv) => MapBack(sch, pos, kk, kv, v, buf, index);
    case KStruct(n) => StructBack(sch, pos, n, v, buf, index);
    case _ => OtherBack(sch, pos, k, v, buf, index);
  }

  lemma OtherBack(sch: Schema, pos: Pos, k: Kind, v: Value, buf: seq<byte>, index: nat)
    requires !k.KSlice? && !k.KMap? && !k.KStruct?
    requires Conforms(sch, pos, k, v) && Has(buf, index, Enc(sch, pos, k, v))
    ensures Back(sch, pos, k, v, buf, index)
  {
    assert ScalarConforms(pos, k, v) && Enc(sch, pos, k, v) == EncScalar(k, v);
    ScalarBack(pos, k, v, buf, index);
  }

  lemma ScalarBack(pos: Pos, k: Kind, v: Value, buf: seq<byte>, index: nat)
    requires ScalarConforms(pos, k, v) && Has(buf, index, EncScalar(k, v))
    ensures DecScalar(pos, k, buf, index) == Outcome(SeenScalar(pos, k, v), index + |EncScalar(k, v)|)
  {
    match k
    case KBool => BoolBack(pos, buf, index, v.b);
    case KUint8 => Uint8Back(pos, buf, index, v.n);
    case KString => TextBack(buf, index, v.s);
    case KBytes => TextBack(buf, index, v.s);
    case KSigned(w) => IntegerBack(pos, w, v.n, buf, index);
    case KUint16 => Uint16Back(pos, buf, index, v.n);
    case KFloat(w) => FloatBack(pos, w, v.bits, buf, index);
    case KPid => PidBack(v, buf, index);
    case KNamed(_) =>
  }

  lemma BoolBack(pos: Pos, buf: seq<byte>, index: nat, b: bool)
    requires Has(buf, index, [if b then 1 else 0])
    ensures DecScalar(pos, KBool, buf, index) == Some(Got(VBool(b), index + 1))
  {
    HasAt(buf, index, [if b then 1 else 0], 0);
  }

  lemma Uint8Back(pos: Pos, buf: seq<byte>, index: nat, n: nat)
    requires n < 256 && Has(buf, index, ToBE(1, n))
    ensures DecScalar(pos, KUint8, buf, index) == Some(Got(VInt(n), index + 1))
  {
    HasAt(buf, index, ToBE(1, n), 0);
    assert ToBE(1, n)[0] == n % 256;
  }

  lemma IntegerBack(pos: Pos, w: nat, n: int, buf: seq<byte>, index: nat)
    requires w > 0 && InWidth(w, n) && Has(buf, index, ToBE(w, n))
    ensures DecScalar(pos, KSigned(w), buf, index) == Some(Got(VInt(n), index + w))
  {
    SignedBack(w, n);
  }

  lemma FloatBack(pos: Pos, w: nat, bits: nat, buf: seq<byte>, index: nat)
    requires w > 0 && bits < Pow256(w) && Has(buf, index, ToBE(w, bits))
    ensures DecScalar(pos, KFloat(w), buf, index) == if pos == Field then Some(Got(VFloat(bits), index + w)) else None
  {
    NumberBack(w, bits, buf, index);
  }

  lemma NumberBack(w: nat, n: nat, buf: seq<byte>, index: nat)
    requires n < Pow256(w) && Has(buf, index, ToBE(w, n))
    ensures index + w <= |buf| && FromBE(buf[index..index + w]) == n
  {
    FitsBE(w, n);
  }

  lemma Uint16Back(pos: Pos, buf: seq<byte>, index: nat, n: nat)
    requires n < 65536 && Has(buf, index, ToBE(2, n))
    ensures DecScalar(pos, KUint16, buf, index) == Some(Got(VInt(n / 256 * 257), index + 2))
  {
    TwoBytes(n);
    HasAt(buf, index, ToBE(2, n), 0);
  }

  // A slice of elements without width comes back empty.
  lemma NoWidthBack(sch: Schema, pos: Pos, e: Kind, v: Value, buf: seq<byte>, index: nat)
    requires Conforms(sch, pos, KSlice(e), v) && Has(buf, index, Enc(sch, pos, KSlice(e), v)) && EmptyStruct(sch, e)
    ensures Back(sch, pos, KSlice(e), v, buf, index)
  {
    PayloadBack(buf, index, EncElems(sch, e, v.es));
    NoWidth(sch, e, v.es);
    assert DecSlice(sch, e, buf, index) == Some(Got(VSlice([]), index + 2));
  }

  lemma {:induction false} SliceBack(sch: Schema, pos: Pos, e: Kind, v: Value, buf: seq<byte>, index: nat)
    requires Conforms(sch, pos, KSlice(e), v) && Has(buf, index, Enc(sch, pos, KSlice(e), v))
    ensures Back(sch, pos, KSlice(e), v, buf, index)
    decreases v, 0
  {
    if EmptyStruct(sch, e) {
      NoWidthBack(sch, pos, e, v, buf, index);
    } else {
      PayloadBack(buf, index, EncElems(sch, e, v.es));
      ElemsBack(sch, e, v.es, buf, index + 2);
    }
  }

  lemma {:induction false} MapBack(sch: Schema, pos: Pos, kk: Kind, kv: Kind, v: Value, buf: seq<byte>, index: nat)
    requires Conforms(sch, pos, KMap(kk, kv), v) && Has(buf, index, Enc(sch, pos, KMap(kk, kv), v))
    ensures Back(sch, pos, KMap(kk, kv), v, buf, index)
    decreases v, 0
  {
    PayloadBack(buf, index, EncEntries(sch, kk, kv, v.entries));
    EntriesBack(sch, kk, kv, v.entries, buf, index + 2, []);
  }

  lemma {:induction false} StructBack(sch: Schema, pos: Pos, n: nat, v: Value, buf: seq<byte>, index: nat)
    requires Conforms(sch, pos, KStruct(n), v) && Has(buf, index, Enc(sch, pos, KStruct(n), v))
    ensures Back(sch, pos, KStruct(n), v, buf, index)
    decreases v, 0
  {
    if v == VNil {
      HasAt(buf, index, [0], 0);
    } else if pos == Elem {
      DecStructBack(sch, sch[n], v.fields, buf, index);
    } else {
      PointerBack(sch, sch[n], v.fields, buf, index);
    }
  }

  lemma {:induction false} PointerBack(sch: Schema, def: Def, vs: seq<Value>, buf: seq<byte>, index: nat)
    requires FieldsConform(sch, def.fields, vs) && Has(buf, index, Present(EncFields(sch, def.fields, vs)))
    ensures DecPointer(sch, def, buf, index) ==
            if def.fields == [] then Some(Got(VNil, index + 1))
            else
              var r := SeenFields(sch, def.fields, vs);
              if !def.open || r == None then None
              else Some(Got(VStruct(r.value), index + |Present(EncFields(sch, def.fields, vs))|))
    ensures def.fields != [] ==> |EncFields(sch, def.fields, vs)| > 0
    decreases vs, 4
  {
    var ks, body := def.fields, EncFields(sch, def.fields, vs);
    HasAt(buf, index, Present(body), 0);
    if ks != [] {
      FieldTakesBytes(sch, ks[0], vs[0]);
      assert body != [];
      HasBoth(buf, index, [1], body);
      DecStructBack(sch, def, vs, buf, index + 1);
    }
  }

  lemma PidBack(v: Value, buf: seq<byte>, index: nat)
    requires ScalarConforms(Field, KPid, v) && Has(buf, index, EncScalar(KPid, v))
    ensures DecPid(buf, index) == Some(Got(v, index + |EncScalar(KPid, v)|))
  {
    if v == VNil {
      HasAt(buf, index, [0], 0);
    } else {
      HasBoth(buf, index, [1] + ToBE(8, v.id), Prefixed(v.node));
      HasBoth(buf, index, [1], ToBE(8, v.id));
      HasAt(buf, index, [1], 0);
      SignedBack(8, v.id);
      TextBack(buf, index + 9, v.node);
    }
  }

  // A list of values behind the first one that was decoded.
  function Cons<T>(head: Option<T>, tail: Option<seq<T>>): Option<seq<T>> {
    if head == None || tail == None then None else Some([head.value] + tail.value)
  }

  // The facts about one key or value, stated so that the definitions are not unfolded.
  ghost predicate EncIs(sch: Schema, k: Kind, v: Value, a: seq<byte>) {
    forall p :: p == Elem ==> Enc(sch, p, k, v) == a
  }

  ghost predicate SeenIs(sch: Schema, k: Kind, v: Value, w: Option<Value>) {
    forall p :: p == Elem ==> Seen(sch, p, k, v) == w
  }

  ghost predicate DecIs(sch: Schema, k: Kind, buf: seq<byte>, index: nat, r: Option<Got>) {
    forall p :: p == Elem ==> Dec(sch, p, k, buf, index) == r
  }

  lemma {:induction false} HeadBack(sch: Schema, e: Kind, es: seq<Value>, buf: seq<byte>, index: nat)
    returns (a: seq<byte>, w: Option<Value>)
    requires es != [] && !NilElem(sch, e, es[0]) && AllConform(sch, e, es) && !EmptyStruct(sch, e) &&
             Has(buf, index, EncElems(sch, e, es))
    ensures EncIs(sch, e, es[0], a) && SeenIs(sch, e, es[0], w) && |a| >= 1
    ensures DecIs(sch, e, buf, index, Outcome(w, index + |a|)) && Has(buf, index + |a|, EncElems(sch, e, es[1..]))
    decreases es, 0
  {
    a, w := Enc(sch, Elem, e, es[0]), Seen(sch, Elem, e, es[0]);
    HasBoth(buf, index, a, EncElems(sch, e, es[1..]));
    ElemTakesBytes(sch, e, es[0]);
    DecodeOfEncode(sch, Elem, e, es[0], buf, index);
  }

  lemma {:induction false} FirstElemBack(sch: Schema, e: Kind, es: seq<Value>, buf: seq<byte>, index: nat, end: nat)
    returns (a: seq<byte>, w: Option<Value>)
    requires es != [] && !NilElem(sch, e, es[0]) && AllConform(sch, e, es) && !EmptyStruct(sch, e) &&
             Has(buf, index, EncElems(sch, e, es))
    requires index < end
    ensures EncElems(sch, e, es) == a + EncElems(sch, e, es[1..]) && |a| >= 1
    ensures SeenElems(sch, e, es) == Cons(w, SeenElems(sch, e, es[1..]))
    ensures DecElems(sch, e, buf, index, end) == Cons(w, DecElems(sch, e, buf, index + |a|, end))
    ensures Has(buf, index + |a|, EncElems(sch, e, es[1..]))
    decreases es, 1
  {
    a, w := HeadBack(sch, e, es, buf, index);
    JoinEnc(sch, e, es, a);
    JoinSeenElems(sch, e, es, w);
    JoinDecElems(sch, e, buf, index, end, Outcome(w, index + |a|));
  }

  lemma JoinEnc(sch: Schema, e: Kind, es: seq<Value>, a: seq<byte>)
    requires es != [] && EncIs(sch, e, es[0], a)
    ensures EncElems(sch, e, es) == a + EncElems(sch, e, es[1..])
  {
  }

  lemma JoinSeenElems(sch: Schema, e: Kind, es: seq<Value>, w: Option<Value>)
    requires es != [] && !NilElem(sch, e, es[0]) && SeenIs(sch, e, es[0], w)
    ensures SeenElems(sch, e, es) == Cons(w, SeenElems(sch, e, es[1..]))
  {
  }

  lemma JoinDecElems(sch: Schema, e: Kind, buf: seq<byte>, index: nat, end: nat, r: Option<Got>)
    requires index < end && DecIs(sch, e, buf, index, r) && (r.Some? ==> r.value.next > index)
    ensures DecElems(sch, e, buf, index, end) ==
            if r == None then None else Cons(Some(r.value.v), DecElems(sch, e, buf, r.value.next, end))
  {
  }

  lemma ElemsTakeBytes(sch: Schema, e: Kind, es: seq<Value>)
    requires es != [] && !NilElem(sch, e, es[0]) && AllConform(sch, e, es) && !EmptyStruct(sch, e)
    ensures |EncElems(sch, e, es)| >= 1
  {
    ElemTakesBytes(sch, e, es[0]);
  }

  lemma NilElemBack(sch: Schema, e: Kind, es: seq<Value>)
    requires es != [] && NilElem(sch, e, es[0])
    ensures EncElems(sch, e, es) == EncElems(sch, e, es[1..]) && SeenElems(sch, e, es) == SeenElems(sch, e, es[1..])
  {
    assert Enc(sch, Elem, e, es[0]) == [];
    assert [] + EncElems(sch, e, es[1..]) == EncElems(sch, e, es[1..]);
  }

  lemma {:induction false} ElemsBack(sch: Schema, e: Kind, es: seq<Value>, buf: seq<byte>, index: nat)
    requires AllConform(sch, e, es) && !EmptyStruct(sch, e) && Has(buf, index, EncElems(sch, e, es))
    ensures DecElems(sch, e, buf, index, index + |EncElems(sch, e, es)|) == SeenElems(sch, e, es)
    decreases es, 2
  {
    if es != [] && NilElem(sch, e, es[0]) {
      NilElemBack(sch, e, es);
      ElemsBack(sch, e, es[1..], buf, index);
    } else if es != [] {
      var end := index + |EncElems(sch, e, es)|;
      ElemsTakeBytes(sch, e, es);
      var a, w := FirstElemBack(sch, e, es, buf, index, end);
      ElemsBack(sch, e, es[1..], buf, index + |a|);
    }
  }

  lemma {:induction false} KeyBack(sch: Schema, kk: Kind, kv: Kind, e: Entry, buf: seq<byte>, index: nat)
    returns (a: seq<byte>, w: Option<Value>)
    requires EntryConforms(sch, kk, kv, e) && Has(buf, index, EncEntry(sch, kk, kv, e))
    ensures EncIs(sch, kk, e.key, a) && SeenIs(sch, kk, e.key, w)
    ensures DecIs(sch, kk, buf, index, Outcome(w, index + |a|))
    decreases e, 0
  {
    a, w := Enc(sch, Elem, kk, e.key), Seen(sch, Elem, kk, e.key);
    HasBoth(buf, index, a, Enc(sch, Elem, kv, e.val));
    DecodeOfEncode(sch, Elem, kk, e.key, buf, index);
  }

  lemma {:induction false} ValBack(sch: Schema, kk: Kind, kv: Kind, e: Entry, buf: seq<byte>, index: nat, a: seq<byte>)
    returns (b: seq<byte>, w: Option<Value>)
    requires EntryConforms(sch, kk, kv, e) && !EmptyStruct(sch, kv) && Has(buf, index, EncEntry(sch, kk, kv, e))
    requires EncIs(sch, kk, e.key, a)
    ensures EncIs(sch, kv, e.val, b) && SeenIs(sch, kv, e.val, w) && |b| >= 1
    ensures DecIs(sch, kv, buf, index + |a|, Outcome(w, index + |a| + |b|))
    ensures EncEntry(sch, kk, kv, e) == a + b
    decreases e, 0
  {
    b, w := Enc(sch, Elem, kv, e.val), Seen(sch, Elem, kv, e.val);
    assert Enc(sch, Elem, kk, e.key) == a;
    HasBoth(buf, index, a, b);
    ElemTakesBytes(sch, kv, e.val);
    DecodeOfEncode(sch, Elem, kv, e.val, buf, index + |a|);
  }

  ghost predicate EntryEncIs(sch: Schema, kk: Kind, kv: Kind, e: Entry, a: seq<byte>) {
    forall x :: x == e ==> EncEntry(sch, kk, kv, x) == a
  }

  ghost predicate EntrySeenIs(sch: Schema, kk: Kind, kv: Kind, e: Entry, w: Option<Entry>) {
    forall x :: x == e ==> SeenEntry(sch, kk, kv, x) == w
  }

  ghost predicate EntryDecIs(sch: Schema, kk: Kind, kv: Kind, buf: seq<byte>, index: nat, r: Option<(Entry, nat)>) {
    forall i :: i == index ==> DecEntry(sch, kk, kv, buf, i) == r
  }

  lemma JoinSeen(sch: Schema, kk: Kind, kv: Kind, e: Entry, key: Option<Value>, val: Option<Value>)
    requires SeenIs(sch, kk, e.key, key) && SeenIs(sch, kv, e.val, val)
    ensures EntrySeenIs(sch, kk, kv, e, if key == None || val == None then None else Some(Entry(key.value, val.value)))
  {
  }

  lemma JoinDec(sch: Schema, kk: Kind, kv: Kind, buf: seq<byte>, index: nat, key: Option<Got>, val: Option<Got>)
    requires DecIs(sch, kk, buf, index, key)
    requires key.Some? ==> DecIs(sch, kv, buf, key.value.next, val)
    ensures EntryDecIs(sch, kk, kv, buf, index,
              if key == None || val == None then None else Some((Entry(key.value.v, val.value.v), val.value.next)))
  {
  }

  lemma {:induction false} EntryBack(sch: Schema, kk: Kind, kv: Kind, e: Entry, buf: seq<byte>, index: nat)
    returns (a: seq<byte>, w: Option<Entry>)
    requires EntryConforms(sch, kk, kv, e) && !EmptyStruct(sch, kv) && Has(buf, index, EncEntry(sch, kk, kv, e))
    ensures EntryEncIs(sch, kk, kv, e, a) && |a| >= 1 && EntrySeenIs(sch, kk, kv, e, w)
    ensures EntryDecIs(sch, kk, kv, buf, index, if w == None then None else Some((w.value, index + |a|)))
    decreases e, 1
  {
    var x, key := KeyBack(sch, kk, kv, e, buf, index);
    var y, val := ValBack(sch, kk, kv, e, buf, index, x);
    JoinSeen(sch, kk, kv, e, key, val);
    JoinDec(sch, kk, kv, buf, index, Outcome(key, index + |x|), Outcome(val, index + |x| + |y|));
    a, w := x + y, if key == None || val == None then None else Some(Entry(key.value, val.value));
  }

  lemma EntriesTakeBytes(sch: Schema, kk: Kind, kv: Kind, es: seq<Entry>)
    requires es != [] && EntriesConform(sch, kk, kv, es) && !EmptyStruct(sch, kv)
    ensures |EncEntries(sch, kk, kv, es)| >= 1
  {
    ElemTakesBytes(sch, kv, es[0].val);
  }

  lemma JoinEntries(sch: Schema, kk: Kind, kv: Kind, es: seq<Entry>, buf: seq<byte>, index: nat, end: nat,
                    m: seq<Entry>,
                    a: seq<byte>, w: Option<Entry>)
    requires es != [] && EntrySeenIs(sch, kk, kv, es[0], w) && |a| >= 1 && index < end
    requires EntryDecIs(sch, kk, kv, buf, index, if w == None then None else Some((w.value, index + |a|)))
    ensures w == None ==> DecEntries(sch, kk, kv, buf, index, end, m) == None == SeenEntries(sch, kk, kv, es, m)
    ensures w != None ==>
              && DecEntries(sch, kk, kv, buf, index, end, m)
                == DecEntries(sch, kk, kv, buf, index + |a|, end, SetEntry(m, w.value))
              && SeenEntries(sch, kk, kv, es, m) == SeenEntries(sch, kk, kv, es[1..], SetEntry(m, w.value))
  {
    assert SeenEntry(sch, kk, kv, es[0]) == w;
    assert DecEntry(sch, kk, kv, buf, index) == if w == None then None else Some((w.value, index + |a|));
  }

  lemma {:induction false} EntriesBack(sch: Schema, kk: Kind, kv: Kind, es: seq<Entry>, buf: seq<byte>, index: nat,
                                       m: seq<Entry>)
    requires EntriesConform(sch, kk, kv, es) && !EmptyStruct(sch, kv) && Has(buf, index, EncEntries(sch, kk, kv, es))
    ensures DecEntries(sch, kk, kv, buf, index, index + |EncEntries(sch, kk, kv, es)|, m)
            == SeenEntries(sch, kk, kv, es, m)
    decreases es, 1
  {
    if es != [] {
      EntriesTakeBytes(sch, kk, kv, es);
      HasBoth(buf, index, EncEntry(sch, kk, kv, es[0]), EncEntries(sch, kk, kv, es[1..]));
      var a, w := EntryBack(sch, kk, kv, es[0], buf, index);
      assert a == EncEntry(sch, kk, kv, es[0]);
      JoinEntries(sch, kk, kv, es, buf, index, index + |EncEntries(sch, kk, kv, es)|, m, a, w);
      if w != None {
        EntriesBack(sch, kk, kv, es[1..], buf, index + |a|, SetEntry(m, w.value));
      }
    }
  }

  lemma {:induction false} FirstFieldBack(sch: Schema, ks: seq<Kind>, vs: seq<Value>, buf: seq<byte>, index: nat)
    returns (a: seq<byte>, w: Option<Value>)
    requires vs != [] && FieldsConform(sch, ks, vs) && Has(buf, index, EncFields(sch, ks, vs))
    ensures EncFields(sch, ks, vs) == a + EncFields(sch, ks[1..], vs[1..])
    ensures SeenFields(sch, ks, vs) == Cons(w, SeenFields(sch, ks[1..], vs[1..]))
    ensures var rest := DecFields(sch, ks[1..], buf, index + |a|);
            DecFields(sch, ks, buf, index)
            == if w == None || rest == None then None else Some(([w.value] + rest.value.0, rest.value.1))
    ensures Has(buf, index + |a|, EncFields(sch, ks[1..], vs[1..]))
    decreases vs, 1
  {
    a, w := FieldHeadBack(sch, ks, vs, buf, index);
    JoinDecFields(sch, ks, buf, index, Outcome(w, index + |a|));
    HasBoth(buf, index, a, EncFields(sch, ks[1..], vs[1..]));
  }

  ghost predicate FieldDecIs(sch: Schema, k: Kind, buf: seq<byte>, index: nat, r: Option<Got>) {
    forall p :: p == Field ==> Dec(sch, p, k, buf, index) == r
  }

  lemma {:induction false} FieldHeadBack(sch: Schema, ks: seq<Kind>, vs: seq<Value>, buf: seq<byte>, index: nat)
    returns (a: seq<byte>, w: Option<Value>)
    requires vs != [] && FieldsConform(sch, ks, vs) && Has(buf, index, EncFields(sch, ks, vs))
    ensures EncFields(sch, ks, vs) == a + EncFields(sch, ks[1..], vs[1..])
    ensures SeenFields(sch, ks, vs) == Cons(w, SeenFields(sch, ks[1..], vs[1..]))
    ensures FieldDecIs(sch, ks[0], buf, index, Outcome(w, index + |a|))
    decreases vs, 0
  {
    a, w := Enc(sch, Field, ks[0], vs[0]), Seen(sch, Field, ks[0], vs[0]);
    HasBoth(buf, index, a, EncFields(sch, ks[1..], vs[1..]));
    DecodeOfEncode(sch, Field, ks[0], vs[0], buf, index);
  }

  lemma JoinDecFields(sch: Schema, ks: seq<Kind>, buf: seq<byte>, index: nat, r: Option<Got>)
    requires ks != [] && FieldDecIs(sch, ks[0], buf, index, r)
    ensures DecFields(sch, ks, buf, index) ==
            if r == None then None
            else
              var rest := DecFields(sch, ks[1..], buf, r.value.next);
              if rest == None then None else Some(([r.value.v] + rest.value.0, rest.value.1))
  {
  }

  lemma {:induction false} FieldsBack(sch: Schema, ks: seq<Kind>, vs: seq<Value>, buf: seq<byte>, index: nat)
    requires FieldsConform(sch, ks, vs) && Has(buf, index, EncFields(sch, ks, vs))
    ensures var r := SeenFields(sch, ks, vs);
            DecFields(sch, ks, buf, index) == if r == None then None
              else Some((r.value, index + |EncFields(sch, ks, vs)|))
    decreases vs, 2
  {
    if vs != [] {
      var a, w := FirstFieldBack(sch, ks, vs, buf, index);
      FieldsBack(sch, ks[1..], vs[1..], buf, index + |a|);
    }
  }

  lemma {:induction false} DecStructBack(sch: Schema, def: Def, vs: seq<Value>, buf: seq<byte>, index: nat)
    requires FieldsConform(sch, def.fields, vs) && Has(buf, index, EncFields(sch, def.fields, vs))
    ensures var r := SeenFields(sch, def.fields, vs);
            DecStruct(sch, def, buf, index)
            == if !def.open || r == None then None
              else Some(Got(VStruct(r.value), index + |EncFields(sch, def.fields, vs)|))
    decreases vs, 3
  {
    FieldsBack(sch, def.fields, vs, buf, index);
  }

  // ------------------------------------------------------------ exactly which values survive

  // Every uint16 has two equal bytes; no pointer in a field points to a struct without
  // fields, and no slice holds such pointers or nil ones; no slice or map holds floats; nothing
  // is of a named scalar type, and no struct has fields that are not exported.
  predicate Intact(sch: Schema, pos: Pos, k: Kind, v: Value)
    decreases v, 0
  {
    match k
    case KUint16 => v.VInt? ==> v.n % 257 == 0
    case KFloat(w) => pos == Field
    case KSlice(e) => v.VSlice? ==> (EmptyStruct(sch, e) ==> v.es == []) && AllIntact(sch, e, v.es)
    case KMap(kk, kv) => v.VMap? ==> EntriesIntact(sch, kk, kv, v.entries)
    case KStruct(n) =>
      v.VStruct? ==>
        n in sch && sch[n].open && (pos == Field ==> sch[n].fields != []) && FieldsIntact(sch, sch[n].fields, v.fields)
    case KNamed(_) => false
    case _ => true
  }

  predicate AllIntact(sch: Schema, e: Kind, es: seq<Value>)
    decreases es, 0
  {
    es != [] ==> !NilElem(sch, e, es[0]) && Intact(sch, Elem, e, es[0]) && AllIntact(sch, e, es[1..])
  }

  predicate EntryIntact(sch: Schema, kk: Kind, kv: Kind, e: Entry)
    decreases e, 0
  {
    Intact(sch, Elem, kk, e.key) && Intact(sch, Elem, kv, e.val)
  }

  predicate EntriesIntact(sch: Schema, kk: Kind, kv: Kind, es: seq<Entry>)
    decreases es, 0
  {
    es != [] ==> EntryIntact(sch, kk, kv, es[0]) && EntriesIntact(sch, kk, kv, es[1..])
  }

  predicate FieldsIntact(sch: Schema, ks: seq<Kind>, vs: seq<Value>)
    decreases vs, 0
  {
    ks != [] && vs != [] ==> Intact(sch, Field, ks[0], vs[0]) && FieldsIntact(sch, ks[1..], vs[1..])
  }

  lemma Uint16Intact(n: nat)
    requires n < 65536
    ensures n / 256 * 257 == n <==> n % 257 == 0
  {
    var q, d := n / 256, n % 256;
    assert n == q * 256 + d;
    if q == d {
      DivMod(n, 257, q, 0);
    }
    if n % 257 == 0 {
      var p := n / 257;
      assert n == p * 257 && p < 256;
      DivMod(n, 256, p, p);
    }
  }

  lemma {:induction false} SeenExactly(sch: Schema, pos: Pos, k: Kind, v: Value)
    requires Conforms(sch, pos, k, v)
    ensures Seen(sch, pos, k, v) == Some(v) <==> Intact(sch, pos, k, v)
    decreases v, 1
  {
    match k
    case KUint16 => Uint16Intact(v.n);
    case KSlice(e) => ElemsExactly(sch, e, v.es);
    case KMap(kk, kv) => EntriesExactly(sch, kk, kv, v.entries, []); assert [] + v.entries == v.entries;
    case KStruct(n) => if v != VNil { FieldsExactly(sch, sch[n].fields, v.fields); }
    case _ =>
  }

  lemma {:induction false} SeenElemsLength(sch: Schema, e: Kind, es: seq<Value>)
    ensures SeenElems(sch, e, es).Some? ==> |SeenElems(sch, e, es).value| <= |es|
    decreases |es|
  {
    if es != [] { SeenElemsLength(sch, e, es[1..]); }
  }

  lemma {:induction false} ElemsExactly(sch: Schema, e: Kind, es: seq<Value>)
    requires AllConform(sch, e, es)
    ensures SeenElems(sch, e, es) == Some(es) <==> AllIntact(sch, e, es)
    decreases es, 0
  {
    if es != [] && NilElem(sch, e, es[0]) {
      SeenElemsLength(sch, e, es[1..]);
    } else if es != [] {
      SeenExactly(sch, Elem, e, es[0]);
      ElemsExactly(sch, e, es[1..]);
      var w, rest := Seen(sch, Elem, e, es[0]), SeenElems(sch, e, es[1..]);
      if w.Some? && rest.Some? { ConsIs(w.value, rest.value, es); }
    }
  }

  lemma ConsIs<T>(w: T, rest: seq<T>, s: seq<T>)
    requires s != []
    ensures [w] + rest == s <==> w == s[0] && rest == s[1..]
  {
    if [w] + rest == s { assert ([w] + rest)[1..] == rest; }
  }

  lemma {:induction false} FieldsExactly(sch: Schema, ks: seq<Kind>, vs: seq<Value>)
    requires FieldsConform(sch, ks, vs)
    ensures SeenFields(sch, ks, vs) == Some(vs) <==> FieldsIntact(sch, ks, vs)
    decreases vs, 0
  {
    if vs != [] {
      SeenExactly(sch, Field, ks[0], vs[0]);
      FieldsExactly(sch, ks[1..], vs[1..]);
      var w, rest := Seen(sch, Field, ks[0], vs[0]), SeenFields(sch, ks[1..], vs[1..]);
      if w.Some? && rest.Some? { ConsIs(w.value, rest.value, vs); }
    }
  }

  lemma {:induction false} EntryExactly(sch: Schema, kk: Kind, kv: Kind, e: Entry)
    requires EntryConforms(sch, kk, kv, e)
    ensures SeenEntry(sch, kk, kv, e) == Some(e) <==> EntryIntact(sch, kk, kv, e)
    decreases e, 0
  {
    SeenExactly(sch, Elem, kk, e.key);
    SeenExactly(sch, Elem, kv, e.val);
  }

  // A new key is appended; an old one is replaced.
  lemma {:induction false} SetEntryLength(m: seq<Entry>, e: Entry)
    ensures |m| <= |SetEntry(m, e)| <= |m| + 1
    ensures |SetEntry(m, e)| == |m| + 1 ==> SetEntry(m, e) == m + [e]
    ensures (forall x :: x in m ==> x.key != e.key) ==> SetEntry(m, e) == m + [e]
    decreases |m|
  {
    if m != [] { SetEntryLength(m[1..], e); }
  }

  lemma {:induction false} SeenEntriesLength(sch: Schema, kk: Kind, kv: Kind, es: seq<Entry>, m: seq<Entry>)
    ensures var r := SeenEntries(sch, kk, kv, es, m);
            r.Some? ==> |r.value| <= |m| + |es| && (|r.value| == |m| + |es| ==> r.value[..|m|] == m)
    decreases |es|
  {
    if es != [] {
      var e := SeenEntry(sch, kk, kv, es[0]);
      if e.Some? {
        SetEntryLength(m, e.value);
        SeenEntriesLength(sch, kk, kv, es[1..], SetEntry(m, e.value));
        var r := SeenEntries(sch, kk, kv, es, m);
        if r.Some? && |r.value| == |m| + |es| {
          assert r.value[..|m|] == r.value[..|m| + 1][..|m|];
        }
      }
    }
  }

  // An entry that decodes to another one is missed, whatever becomes of the later ones.
  lemma EntryMissed(sch: Schema, kk: Kind, kv: Kind, es: seq<Entry>, m: seq<Entry>)
    requires es != [] && SeenEntry(sch, kk, kv, es[0]) != Some(es[0])
    ensures SeenEntries(sch, kk, kv, es, m) != Some(m + es)
  {
    var e := SeenEntry(sch, kk, kv, es[0]);
    if e.Some? {
      SetEntryLength(m, e.value);
      SeenEntriesLength(sch, kk, kv, es[1..], SetEntry(m, e.value));
      OtherPrefix(m, es, e.value);
    }
  }

  lemma NewKey(m: seq<Entry>, es: seq<Entry>)
    requires es != [] && Distinct(m + es)
    ensures SetEntry(m, es[0]) == m + [es[0]]
    ensures m + es == (m + [es[0]]) + es[1..]
  {
    forall x | x in m ensures x.key != es[0].key {
      var i :| 0 <= i < |m| && m[i] == x;
      assert (m + es)[i] == x && (m + es)[|m|] == es[0];
    }
    SetEntryLength(m, es[0]);
  }

  lemma EntryKept(sch: Schema, kk: Kind, kv: Kind, es: seq<Entry>, m: seq<Entry>)
    requires es != [] && Distinct(m + es) && SeenEntry(sch, kk, kv, es[0]) == Some(es[0])
    ensures SeenEntries(sch, kk, kv, es, m) == SeenEntries(sch, kk, kv, es[1..], m + [es[0]])
    ensures m + es == (m + [es[0]]) + es[1..]
  {
    NewKey(m, es);
  }

  lemma {:induction false} EntriesExactly(sch: Schema, kk: Kind, kv: Kind, es: seq<Entry>, m: seq<Entry>)
    requires EntriesConform(sch, kk, kv, es) && Distinct(m + es)
    ensures SeenEntries(sch, kk, kv, es, m) == Some(m + es) <==> EntriesIntact(sch, kk, kv, es)
    decreases es, 1
  {
    if es == [] {
      assert m + es == m;
    } else {
      EntryExactly(sch, kk, kv, es[0]);
      if SeenEntry(sch, kk, kv, es[0]) == Some(es[0]) {
        EntryKept(sch, kk, kv, es, m);
        EntriesExactly(sch, kk, kv, es[1..], m + [es[0]]);
      } else {
        EntryMissed(sch, kk, kv, es, m);
      }
    }
  }

  lemma OtherPrefix<T>(m: seq<T>, es: seq<T>, x: T)
    requires es != [] && x != es[0]
    ensures (m + es)[..|m| + 1] != m + [x]
  {
    assert (m + es)[..|m| + 1][|m|] == es[0] && (m + [x])[|m|] == x;
  }

  // Decoding gives back the value that was encoded if and only if the value is intact.
  lemma RoundTripExactly(sch: Schema, pos: Pos, k: Kind, v: Value, buf: seq<byte>, index: nat)
    requires Conforms(sch, pos, k, v) && Has(buf, index, Enc(sch, pos, k, v))
    ensures Dec(sch, pos, k, buf, index) == Some(Got(v, index + |Enc(sch, pos, k, v)|)) <==> Intact(sch, pos, k, v)
  {
    DecodeOfEncode(sch, pos, k, v, buf, index);
    SeenExactly(sch, pos, k, v);
  }

  // The limit on a length prefix is exact for text: one byte too many, and decoding stops short.
  lemma TextExactly(s: seq<byte>)
    ensures DecText(Prefixed(s), 0) == Some(Got(VText(s), |Prefixed(s)|)) <==> |s| < 65536
  {
    var buf := Prefixed(s);
    TwoBytes(|s|);
    if |s| < 65536 {
      TextBack(buf, 0, s);
    } else {
      assert Payload(buf, 0).value < |buf|;
    }
  }
}
