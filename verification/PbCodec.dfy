// The coder of gate/pb as it runs: buffers that grow by appending and are patched in place
// once a length is known, and loops that walk a buffer by index.

module PbCodec {
  import opened Basics
  import opened Bytes
  import opened PbModel

  // ------------------------------------------------------------ encoding

  // WriteSize: two bytes at an index
  method WriteSize(buf: seq<byte>, index: nat, size: nat) returns (r: seq<byte>)
    requires index + 2 <= |buf|
    ensures r == buf[..index] + ToBE(2, size) + buf[index + 2..]
  {
    TwoBytes(size);
    r := buf[index := size / 256 % 256];
    r := r[index + 1 := size % 256];
  }

  // A length written over the two bytes that were kept for it.
  lemma Patched(buf: seq<byte>, payload: seq<byte>)
    ensures var r := buf + [0, 0] + payload;
            r[..|buf|] + ToBE(2, |payload|) + r[|buf| + 2..] == buf + Prefixed(payload)
  {
    var r := buf + [0, 0] + payload;
    assert r[..|buf|] == buf && r[|buf| + 2..] == payload;
    Associate(buf, ToBE(2, |payload|), payload);
  }

  // What a panic leaves of an encoding.
  function If(fine: bool, bytes: seq<byte>): Option<seq<byte>> { if fine then Some(bytes) else None }

  // A value behind what is in the buffer; None stands for a panic.
  method EncodeValue(sch: Schema, pos: Pos, inMap: bool, k: Kind, v: Value, buf: seq<byte>)
    returns (r: Option<seq<byte>>)
    ensures r == If(Encodes(sch, inMap, k, v), buf + Enc(sch, pos, k, v))
    decreases v, 2
  {
    assert buf + [] == buf;
    match k
    case KOther => r := None;
    case KSlice(e) =>
      r := Some(buf);
      if v.VSlice? { r := EncodeSlice(sch, e, v, buf); }
    case KMap(kk, kv) =>
      r := Some(buf);
      if v.VMap? { r := EncodeMap(sch, inMap, kk, kv, v, buf); }
    case KStruct(n) =>
      if inMap || (v.VStruct? && n !in sch) {
        r := None;
      } else if pos == Field {
        r := EncodeStructCheck(sch, n, v, buf);
      } else {
        r := EncodeStruct(sch, n, v, buf);
      }
    case _ => r := Some(buf + EncScalar(k, v));
  }

  // encodeSlice: a place for the length, the elements, and then the length
  method EncodeSlice(sch: Schema, e: Kind, v: Value, buf: seq<byte>) returns (r: Option<seq<byte>>)
    requires v.VSlice?
    ensures r == If(AllEncode(sch, e, v.es), buf + Prefixed(EncElems(sch, e, v.es)))
    decreases v, 1
  {
    var b := buf + [0, 0];
    if |v.es| == 0 {
      TwoBytes(0);
      assert Prefixed([]) == [0, 0];
      return Some(b);
    }
    var start := |b|;
    r := EncodeElems(sch, e, v.es, b);
    if r == None {
      return;
    }
    Patched(buf, EncElems(sch, e, v.es));
    b := WriteSize(r.value, start - 2, |r.value| - start);
    r := Some(b);
  }

  // The loop of encodeSlice
  method EncodeElems(sch: Schema, e: Kind, es: seq<Value>, buf: seq<byte>) returns (r: Option<seq<byte>>)
    ensures r == If(AllEncode(sch, e, es), buf + EncElems(sch, e, es))
    decreases es, 3
  {
    var b, i := buf, 0;
    ghost var done: seq<byte> := [];
    while i < |es|
      invariant i <= |es| && b == buf + done && (AllEncode(sch, e, es) <==> AllEncode(sch, e, es[i..]))
      invariant done + EncElems(sch, e, es[i..]) == EncElems(sch, e, es)
    {
      ghost var a := Enc(sch, Elem, e, es[i]);
      assert es[i..][0] == es[i] && es[i..][1..] == es[i + 1..];
      var next := EncodeValue(sch, Elem, false, e, es[i], b);
      if next == None {
        return None;
      }
      Associate(done, a, EncElems(sch, e, es[i + 1..]));
      Associate(buf, done, a);
      b, done, i := next.value, done + a, i + 1;
    }
    assert done == EncElems(sch, e, es);
    r := Some(b);
  }

  // encodeMap: the same, over the entries as they are enumerated
  method EncodeMap(sch: Schema, inMap: bool, kk: Kind, kv: Kind, v: Value, buf: seq<byte>)
    returns (r: Option<seq<byte>>)
    requires v.VMap?
    ensures r == If(Encodes(sch, inMap, KMap(kk, kv), v), buf + Prefixed(EncEntries(sch, kk, kv, v.entries)))
    decreases v, 1
  {
    var b := buf + [0, 0];
    if |v.entries| == 0 {
      TwoBytes(0);
      assert Prefixed([]) == [0, 0];
      return Some(b);
    }
    if inMap {
      return None;
    }
    var start := |b|;
    r := EncodeEntries(sch, kk, kv, v.entries, b);
    if r == None {
      return;
    }
    Patched(buf, EncEntries(sch, kk, kv, v.entries));
    b := WriteSize(r.value, start - 2, |r.value| - start);
    r := Some(b);
  }

  // What the loop of encodeMap has done, and what is left of it.
  ghost predicate Entered(sch: Schema, kk: Kind, kv: Kind, es: seq<Entry>, i: nat, done: seq<byte>)
    requires i <= |es|
  {
    forall rest :: rest == es[i..] ==>
      && done + EncEntries(sch, kk, kv, rest) == EncEntries(sch, kk, kv, es)
      && (EntriesEncode(sch, kk, kv, es) <==> EntriesEncode(sch, kk, kv, rest))
  }

  // What encoding one entry leaves behind the buffer.
  ghost predicate EntryDone(sch: Schema, kk: Kind, kv: Kind, e: Entry, buf: seq<byte>, r: Option<seq<byte>>) {
    forall x :: x == e ==> r == If(EntryEncodes(sch, kk, kv, x), buf + EncEntry(sch, kk, kv, x))
  }

  lemma EnterOne(sch: Schema, kk: Kind, kv: Kind, es: seq<Entry>, i: nat, buf: seq<byte>, done: seq<byte>,
                 r: Option<seq<byte>>)
    returns (done': seq<byte>)
    requires i < |es| && Entered(sch, kk, kv, es, i, done) && EntryDone(sch, kk, kv, es[i], buf + done, r)
    ensures r == None ==> !EntriesEncode(sch, kk, kv, es)
    ensures r.Some? ==> r.value == buf + done' && Entered(sch, kk, kv, es, i + 1, done')
  {
    var rest, a := es[i..], EncEntry(sch, kk, kv, es[i]);
    done' := done + a;
    assert rest[0] == es[i] && rest[1..] == es[i + 1..];
    assert done + EncEntries(sch, kk, kv, rest) == EncEntries(sch, kk, kv, es);
    Associate(done, a, EncEntries(sch, kk, kv, es[i + 1..]));
    Associate(buf, done, a);
  }

  lemma EnterBegins(sch: Schema, kk: Kind, kv: Kind, es: seq<Entry>)
    ensures Entered(sch, kk, kv, es, 0, [])
  {
    assert es[0..] == es && [] + EncEntries(sch, kk, kv, es) == EncEntries(sch, kk, kv, es);
  }

  lemma EnterEnds(sch: Schema, kk: Kind, kv: Kind, es: seq<Entry>, done: seq<byte>)
    requires Entered(sch, kk, kv, es, |es|, done)
    ensures done == EncEntries(sch, kk, kv, es) && EntriesEncode(sch, kk, kv, es)
  {
    var rest := es[|es|..];
    assert rest == [] && EncEntries(sch, kk, kv, rest) == [] && done + [] == done;
    assert EntriesEncode(sch, kk, kv, rest);
  }

  // The loop of encodeMap
  method EncodeEntries(sch: Schema, kk: Kind, kv: Kind, es: seq<Entry>, buf: seq<byte>) returns (r: Option<seq<byte>>)
    ensures r == If(EntriesEncode(sch, kk, kv, es), buf + EncEntries(sch, kk, kv, es))
    decreases es, 3
  {
    var b, i := buf, 0;
    ghost var done: seq<byte> := [];
    EnterBegins(sch, kk, kv, es);
    while i < |es|
      invariant 0 <= i <= |es| && b == buf + done && Entered(sch, kk, kv, es, i, done)
    {
      var next := EncodeEntry(sch, kk, kv, es[i], b);
      done := EnterOne(sch, kk, kv, es, i, buf, done, next);
      if next == None {
        return None;
      }
      b, i := next.value, i + 1;
    }
    EnterEnds(sch, kk, kv, es, done);
    r := Some(b);
  }

  method EncodeEntry(sch: Schema, kk: Kind, kv: Kind, e: Entry, buf: seq<byte>) returns (r: Option<seq<byte>>)
    ensures EntryDone(sch, kk, kv, e, buf, r)
    decreases e, 4
  {
    r := EncodeValue(sch, Elem, false, kk, e.key, buf);
    if r == None {
      return;
    }
    Associate(buf, Enc(sch, Elem, kk, e.key), Enc(sch, Elem, kv, e.val));
    r := EncodeValue(sch, Elem, true, kv, e.val, r.value);
  }

  // encodeStruct: nothing for a nil pointer
  method EncodeStruct(sch: Schema, n: nat, v: Value, buf: seq<byte>) returns (r: Option<seq<byte>>)
    requires v.VStruct? ==> n in sch
    ensures r == If(Encodes(sch, false, KStruct(n), v), buf + Enc(sch, Elem, KStruct(n), v))
    decreases v, 0
  {
    if !v.VStruct? {
      assert buf + [] == buf;
      return Some(buf);
    }
    r := EncodeDef(sch, sch[n].fields, v.fields, buf);
  }

  // encodeStructCheck: a presence byte, set afterwards if anything was written behind it
  method EncodeStructCheck(sch: Schema, n: nat, v: Value, buf: seq<byte>) returns (r: Option<seq<byte>>)
    requires v.VStruct? ==> n in sch
    ensures r == If(Encodes(sch, false, KStruct(n), v), buf + Enc(sch, Field, KStruct(n), v))
    decreases v, 1
  {
    var start := |buf| + 1;
    ghost var body := Enc(sch, Elem, KStruct(n), v);
    assert (buf + [0] + body)[|buf| := 1] == buf + ([1] + body) && buf + [0] + [] == buf + [0];
    r := EncodeStruct(sch, n, v, buf + [0]);
    if r.Some? && start != |r.value| {
      r := Some(r.value[start - 1 := 1]);
    }
  }

  // encodeDef: the fields in order
  method EncodeDef(sch: Schema, ks: seq<Kind>, vs: seq<Value>, buf: seq<byte>) returns (r: Option<seq<byte>>)
    ensures r == If(FieldsEncode(sch, ks, vs), buf + EncFields(sch, ks, vs))
    decreases vs, 3
  {
    var b, i := buf, 0;
    ghost var done: seq<byte> := [];
    while i < |ks| && i < |vs|
      invariant i <= |ks| && i <= |vs| && b == buf + done &&
                (FieldsEncode(sch, ks, vs) <==> FieldsEncode(sch, ks[i..], vs[i..]))
      invariant done + EncFields(sch, ks[i..], vs[i..]) == EncFields(sch, ks, vs)
    {
      ghost var a := Enc(sch, Field, ks[i], vs[i]);
      assert ks[i..][0] == ks[i] && vs[i..][0] == vs[i];
      assert ks[i..][1..] == ks[i + 1..] && vs[i..][1..] == vs[i + 1..];
      var next := EncodeValue(sch, Field, false, ks[i], vs[i], b);
      if next == None {
        return None;
      }
      Associate(done, a, EncFields(sch, ks[i + 1..], vs[i + 1..]));
      Associate(buf, done, a);
      b, done, i := next.value, done + a, i + 1;
    }
    assert done == EncFields(sch, ks, vs);
    r := Some(b);
  }

  // ------------------------------------------------------------ decoding

  method DecodeValue(sch: Schema, pos: Pos, k: Kind, buf: seq<byte>, index: nat) returns (r: Option<Got>)
    ensures r == Dec(sch, pos, k, buf, index)
    decreases |buf| - index, if pos == Elem then 4 else 1, 1
  {
    match k
    case KSlice(e) => r := DecodeSlice(sch, e, buf, index);
    case KMap(kk, kv) => r := DecodeMap(sch, kk, kv, buf, index);
    case KStruct(n) =>
      if n !in sch {
        r := None;
      } else if pos == Elem {
        r := DecodeStructDef(sch, sch[n], buf, index);
      } else if index < |buf| && buf[index] == 1 {
        r := DecodeStructDef(sch, sch[n], buf, index + 1);
      } else if index < |buf| {
        r := Some(Got(VNil, index + 1));
      } else {
        r := None;
      }
    case _ => r := DecScalar(pos, k, buf, index);
  }

  // The loop of decodeSlice
  method DecodeElems(sch: Schema, e: Kind, buf: seq<byte>, start: nat, end: nat) returns (r: Option<seq<Value>>)
    requires start <= |buf|
    ensures r == DecElems(sch, e, buf, start, end)
    decreases |buf| - start, 5, 0
  {
    var i := start;
    var slice: seq<Value> := [];
    ghost var all := DecElems(sch, e, buf, start, end);
    assert all == Behind(slice, all) by { assert all.Some? ==> [] + all.value == all.value; }
    while i < end
      invariant start <= i <= |buf|
      invariant all == Behind(slice, DecElems(sch, e, buf, i, end))
      decreases |buf| - i
    {
      var v := DecodeValue(sch, Elem, e, buf, i);
      if v == None || v.value.next == i {
        return None;
      }
      Behinds(slice, v.value.v, DecElems(sch, e, buf, v.value.next, end));
      i, slice := v.value.next, slice + [v.value.v];
    }
    assert slice + [] == slice;
    return Some(slice);
  }

  // decodeSlice
  method DecodeSlice(sch: Schema, e: Kind, buf: seq<byte>, index: nat) returns (r: Option<Got>)
    ensures r == DecSlice(sch, e, buf, index)
    decreases |buf| - index, 1, 0
  {
    var payload := Payload(buf, index);
    if payload == None {
      return None;
    }
    var slice := DecodeElems(sch, e, buf, index + 2, payload.value);
    if slice == None || payload.value > |buf| {
      return None;
    }
    return Some(Got(VSlice(slice.value), payload.value));
  }

  // Values that were decoded, and what decoding makes of the rest.
  ghost function Behind<T>(slice: seq<T>, rest: Option<seq<T>>): Option<seq<T>> {
    if rest == None then None else Some(slice + rest.value)
  }

  lemma Behinds<T>(slice: seq<T>, v: T, rest: Option<seq<T>>)
    ensures Behind(slice + [v], rest) == Behind(slice, if rest == None then None else Some([v] + rest.value))
  {
    if rest.Some? { assert (slice + [v]) + rest.value == slice + ([v] + rest.value); }
  }

  // What decoding a key or a value comes to, stated so that the definition is not unfolded.
  ghost predicate Yields(sch: Schema, k: Kind, buf: seq<byte>, index: nat, r: Option<Got>) {
    forall p :: p == Elem ==> Dec(sch, p, k, buf, index) == r
  }

  method DecodeElem(sch: Schema, k: Kind, buf: seq<byte>, index: nat) returns (r: Option<Got>)
    ensures Yields(sch, k, buf, index, r) && (r.Some? ==> index <= r.value.next <= |buf|)
    decreases |buf| - index, 4, 2
  {
    r := DecodeValue(sch, Elem, k, buf, index);
  }

  lemma NoKey(sch: Schema, kk: Kind, kv: Kind, buf: seq<byte>, i: nat)
    requires Yields(sch, kk, buf, i, None)
    ensures DecEntry(sch, kk, kv, buf, i) == None
  {
  }

  lemma KeyAndValue(sch: Schema, kk: Kind, kv: Kind, buf: seq<byte>, i: nat, key: Got, val: Option<Got>)
    requires Yields(sch, kk, buf, i, Some(key)) && Yields(sch, kv, buf, key.next, val)
    ensures DecEntry(sch, kk, kv, buf, i)
            == if val == None then None else Some((Entry(key.v, val.value.v), val.value.next))
  {
  }

  // One turn of the loop of decodeMap
  method DecodeEntry(sch: Schema, kk: Kind, kv: Kind, buf: seq<byte>, i: nat) returns (r: Option<(Entry, nat)>)
    ensures r == DecEntry(sch, kk, kv, buf, i)
    decreases |buf| - i, 5, 0
  {
    var key := DecodeElem(sch, kk, buf, i);
    if key == None {
      NoKey(sch, kk, kv, buf, i);
      return None;
    }
    var val := DecodeElem(sch, kv, buf, key.value.next);
    KeyAndValue(sch, kk, kv, buf, i, key.value, val);
    if val == None {
      return None;
    }
    return Some((Entry(key.value.v, val.value.v), val.value.next));
  }

  // The loop of decodeMap
  method DecodeEntries(sch: Schema, kk: Kind, kv: Kind, buf: seq<byte>, start: nat, end: nat)
    returns (r: Option<seq<Entry>>)
    requires start <= |buf|
    ensures r == DecEntries(sch, kk, kv, buf, start, end, [])
    decreases |buf| - start, 6, 0
  {
    var i := start;
    var m: seq<Entry> := [];
    while i < end
      invariant start <= i <= |buf|
      invariant DecEntries(sch, kk, kv, buf, i, end, m) == DecEntries(sch, kk, kv, buf, start, end, [])
      decreases |buf| - i
    {
      var e := DecodeEntry(sch, kk, kv, buf, i);
      if e == None || e.value.1 == i {
        return None;
      }
      i, m := e.value.1, SetEntry(m, e.value.0);
    }
    return Some(m);
  }

  // decodeMap
  method DecodeMap(sch: Schema, kk: Kind, kv: Kind, buf: seq<byte>, index: nat) returns (r: Option<Got>)
    ensures r == DecMap(sch, kk, kv, buf, index)
    decreases |buf| - index, 1, 0
  {
    var payload := Payload(buf, index);
    if payload == None {
      return None;
    }
    var m := DecodeEntries(sch, kk, kv, buf, index + 2, payload.value);
    if m == None || payload.value > |buf| {
      return None;
    }
    return Some(Got(VMap(m.value), payload.value));
  }

  // decodeStructDef
  method DecodeStructDef(sch: Schema, def: Def, buf: seq<byte>, index: nat) returns (r: Option<Got>)
    ensures r == DecStruct(sch, def, buf, index)
    decreases |buf| - index, 3, 0
  {
    if !def.open {
      return None;
    }
    var ks := def.fields;
    var i, next := 0, index;
    var fields: seq<Value> := [];
    ghost var all := DecFields(sch, ks, buf, index);
    assert ks[0..] == ks && (all.Some? ==> [] + all.value.0 == all.value.0);
    while i < |ks|
      invariant i <= |ks| && next >= index && (if i == 0 then next == index else next <= |buf|)
      invariant var rest := DecFields(sch, ks[i..], buf, next);
                all == if rest == None then None else Some((fields + rest.value.0, rest.value.1))
    {
      assert ks[i..][0] == ks[i] && ks[i..][1..] == ks[i + 1..];
      var v := DecodeValue(sch, Field, ks[i], buf, next);
      if v == None {
        return None;
      }
      ghost var rest := DecFields(sch, ks[i + 1..], buf, v.value.next);
      assert rest.Some? ==> fields + ([v.value.v] + rest.value.0) == (fields + [v.value.v]) + rest.value.0;
      next, fields, i := v.value.next, fields + [v.value.v], i + 1;
    }
    if next > |buf| {
      return None;
    }
    assert fields + [] == fields;
    return Some(Got(VStruct(fields), next));
  }
}
