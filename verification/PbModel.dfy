// The gate/pb codec on values: kinds, values, the bytes of a value, and what decoding yields.

module PbModel {
  import opened Basics
  import opened Bytes

  // Field types. A signed integer or a float has a width in bytes.
  datatype Kind =
    | KBool
    | KSigned(w: nat)
    | KUint8
    | KUint16
    | KFloat(w: nat)
    | KString
    | KBytes
    | KSlice(elem: Kind)
    | KMap(key: Kind, val: Kind)
    | KStruct(name: nat)
    | KPid
    | KNamed(k: Kind)  // a scalar type with a name of its own, which takes nothing that is decoded
    | KOther           // a type that the coder has no functions for

  // A float is its bit pattern; the entries of a map stand in one of the orders in which
  // the program may enumerate them; VNil is a nil pointer.
  datatype Value =
    | VBool(b: bool)
    | VInt(n: int)
    | VFloat(bits: nat)
    | VText(s: seq<byte>)
    | VSlice(es: seq<Value>)
    | VMap(entries: seq<Entry>)
    | VStruct(fields: seq<Value>)
    | VNil
    | VPid(id: int, node: seq<byte>)
    | VOther

  datatype Entry = Entry(key: Value, val: Value)

  // A struct is open if all its fields are exported: others cannot be set.
  datatype Def = Def(id: nat, fields: seq<Kind>, open: bool)

  type Schema = map<nat, Def>

  // A struct pointer in a field carries a presence byte; in a slice, and as a map key, it does not.
  datatype Pos = Field | Elem

  // ------------------------------------------------------------ schemas

  // What a named type is beneath its name.
  function Base(k: Kind): Kind { if k.KNamed? then k.k else k }

  predicate ScalarKind(k: Kind) {
    k == KBool || k.KSigned? || k == KUint8 || k == KUint16 || k.KFloat? || k == KString || k == KBytes
  }

  predicate KeyOk(sch: Schema, k: Kind) {
    match Base(k)
    case KSigned(w) => w == 1 || w == 2 || w == 4 || w == 8
    case KUint16 | KString => true
    case KStruct(n) => k.KStruct? && n in sch
    case _ => false
  }

  // Kinds that the coder can encode: it has functions for all elements, and as values of a map
  // there are no pointers and no maps, which it reads through wrong pointers.
  predicate Codable(k: Kind, inMap: bool) {
    match k
    case KOther => false
    case KSlice(e) => Codable(e, false)
    case KMap(kk, kv) => !inMap && Codable(kv, true)
    case KStruct(n) => !inMap
    case _ => true
  }

  // ------------------------------------------------------------ encoding

  // A payload behind its 16-bit length.
  function Prefixed(payload: seq<byte>): seq<byte> {
    ToBE(2, |payload|) + payload
  }

  // A pointer in a field: a presence byte, set only if something was written after it.
  function Present(body: seq<byte>): seq<byte> {
    if body == [] then [0] else [1] + body
  }

  function EncScalar(k: Kind, v: Value): seq<byte> {
    var b := Base(k);
    match v
    case VBool(yes) => [if yes then 1 else 0]
    case VInt(n) => ToBE(if b.KSigned? then b.w else if b == KUint8 then 1 else 2, n)
    case VFloat(bits) => ToBE(if b.KFloat? then b.w else 0, bits)
    case VText(s) => Prefixed(s)
    case VPid(id, node) => [1] + ToBE(8, id) + Prefixed(node)
    case _ => [0]
  }

  function Enc(sch: Schema, pos: Pos, k: Kind, v: Value): seq<byte>
    decreases v, 0
  {
    match k
    case KSlice(e) => if v.VSlice? then Prefixed(EncElems(sch, e, v.es)) else []
    case KMap(kk, kv) => if v.VMap? then Prefixed(EncEntries(sch, kk, kv, v.entries)) else []
    case KStruct(n) =>
      if !v.VStruct? || n !in sch then (if pos == Field then [0] else [])
      else if pos == Field then Present(EncFields(sch, sch[n].fields, v.fields))
      else EncFields(sch, sch[n].fields, v.fields)
    case _ => EncScalar(k, v)
  }

  function EncElems(sch: Schema, e: Kind, es: seq<Value>): seq<byte>
    decreases es, 0
  {
    if es == [] then [] else Enc(sch, Elem, e, es[0]) + EncElems(sch, e, es[1..])
  }

  function EncEntries(sch: Schema, kk: Kind, kv: Kind, es: seq<Entry>): seq<byte>
    decreases es, 0
  {
    if es == [] then []
    else EncEntry(sch, kk, kv, es[0]) + EncEntries(sch, kk, kv, es[1..])
  }

  function EncEntry(sch: Schema, kk: Kind, kv: Kind, e: Entry): seq<byte>
    decreases e, 0
  {
    Enc(sch, Elem, kk, e.key) + Enc(sch, Elem, kv, e.val)
  }

  function EncFields(sch: Schema, ks: seq<Kind>, vs: seq<Value>): seq<byte>
    decreases vs, 0
  {
    if ks == [] || vs == [] then [] else Enc(sch, Field, ks[0], vs[0]) + EncFields(sch, ks[1..], vs[1..])
  }

  // ------------------------------------------------------------ when encoding panics

  // Encoding a value of this kind comes to an end: no slice or map that is not empty has
  // elements the coder has no functions for, and no map holds pointers or maps that it would
  // read through wrong pointers.
  predicate Encodes(sch: Schema, inMap: bool, k: Kind, v: Value)
    decreases v, 0
  {
    match k
    case KOther => false
    case KSlice(e) => v.VSlice? ==> AllEncode(sch, e, v.es)
    case KMap(kk, kv) => v.VMap? && v.entries != [] ==> !inMap && EntriesEncode(sch, kk, kv, v.entries)
    case KStruct(n) => !inMap && (v.VStruct? ==> n in sch && FieldsEncode(sch, sch[n].fields, v.fields))
    case _ => true
  }

  predicate AllEncode(sch: Schema, e: Kind, es: seq<Value>)
    decreases es, 0
  {
    es != [] ==> Encodes(sch, false, e, es[0]) && AllEncode(sch, e, es[1..])
  }

  predicate EntriesEncode(sch: Schema, kk: Kind, kv: Kind, es: seq<Entry>)
    decreases es, 0
  {
    es != [] ==> EntryEncodes(sch, kk, kv, es[0]) && EntriesEncode(sch, kk, kv, es[1..])
  }

  predicate EntryEncodes(sch: Schema, kk: Kind, kv: Kind, e: Entry)
    decreases e, 0
  {
    Encodes(sch, false, kk, e.key) && Encodes(sch, true, kv, e.val)
  }

  predicate FieldsEncode(sch: Schema, ks: seq<Kind>, vs: seq<Value>)
    decreases vs, 0
  {
    ks != [] && vs != [] ==> Encodes(sch, false, ks[0], vs[0]) && FieldsEncode(sch, ks[1..], vs[1..])
  }

  // ------------------------------------------------------------ conforming values

  predicate InWidth(w: nat, n: int) {
    -Pow256(w) <= 2 * n < Pow256(w)
  }

  predicate Distinct(es: seq<Entry>) {
    forall i, j :: 0 <= i < j < |es| ==> es[i].key != es[j].key
  }

  predicate ScalarConforms(pos: Pos, k: Kind, v: Value) {
    (k.KNamed? ==> ScalarKind(k.k)) &&
    match Base(k)
    case KBool => v.VBool?
    case KSigned(w) => v.VInt? && (w == 1 || w == 2 || w == 4 || w == 8) && InWidth(w, v.n)
    case KUint8 => v.VInt? && 0 <= v.n < 256
    case KUint16 => v.VInt? && 0 <= v.n < 65536
    case KFloat(w) => v.VFloat? && (w == 4 || w == 8) && v.bits < Pow256(w)
    case KPid => pos == Field && (v == VNil || (v.VPid? && InWidth(8, v.id) && |v.node| < 65536))
    case KString => v.VText? && |v.s| < 65536
    case KBytes => v.VText? && |v.s| < 65536
    case _ => false
  }

  // A value of this kind, all of whose length prefixes fit 16 bits.
  predicate Conforms(sch: Schema, pos: Pos, k: Kind, v: Value)
    decreases v, 0
  {
    match k
    case KSlice(e) => v.VSlice? && AllConform(sch, e, v.es) && |EncElems(sch, e, v.es)| < 65536
    case KMap(kk, kv) =>
      && v.VMap? && KeyOk(sch, kk) && Codable(kv, true)
      && EntriesConform(sch, kk, kv, v.entries) && Distinct(v.entries) && |EncEntries(sch, kk, kv, v.entries)| < 65536
    case KStruct(n) =>
      && n in sch
      && (v.VStruct? || (v == VNil && pos == Field))
      && (v.VStruct? ==> FieldsConform(sch, sch[n].fields, v.fields))
    case _ => ScalarConforms(pos, k, v)
  }

  // A nil pointer in a slice, for which nothing is written.
  predicate NilElem(sch: Schema, e: Kind, v: Value) { e.KStruct? && e.name in sch && v == VNil }

  predicate AllConform(sch: Schema, e: Kind, es: seq<Value>)
    decreases es, 0
  {
    es != [] ==> (NilElem(sch, e, es[0]) || Conforms(sch, Elem, e, es[0])) && AllConform(sch, e, es[1..])
  }

  predicate EntriesConform(sch: Schema, kk: Kind, kv: Kind, es: seq<Entry>)
    decreases es, 0
  {
    es != [] ==> EntryConforms(sch, kk, kv, es[0]) && EntriesConform(sch, kk, kv, es[1..])
  }

  predicate EntryConforms(sch: Schema, kk: Kind, kv: Kind, e: Entry)
    decreases e, 0
  {
    Conforms(sch, Elem, kk, e.key) && Conforms(sch, Elem, kv, e.val)
  }

  predicate FieldsConform(sch: Schema, ks: seq<Kind>, vs: seq<Value>)
    decreases vs, 0
  {
    |ks| == |vs| &&
    (vs != [] ==> Conforms(sch, Field, ks[0], vs[0]) && FieldsConform(sch, ks[1..], vs[1..]))
  }

  // ------------------------------------------------------------ decoding

  // The signed number of a width that has these low bits.
  function Signed(w: nat, bits: nat): int {
    if 2 * bits < Pow256(w) then bits else bits - Pow256(w)
  }

  // A length prefix and the payload behind it.
  function Payload(buf: seq<byte>, index: nat): (r: Option<nat>)
    ensures r.Some? ==> index + 2 <= |buf| && r.value >= index + 2
  {
    if index + 2 <= |buf| then Some(index + 2 + (buf[index] as int) * 256 + buf[index + 1]) else None
  }

  // SetMapIndex: a key that is already there gets the new value.
  function SetEntry(es: seq<Entry>, e: Entry): seq<Entry> {
    if es == [] then [e]
    else if es[0].key == e.key then [e] + es[1..]
    else [es[0]] + SetEntry(es[1..], e)
  }

  datatype Got = Got(v: Value, next: nat)

  // None stands for a panic, or for the loop that never ends on elements of no width.
  function Dec(sch: Schema, pos: Pos, k: Kind, buf: seq<byte>, index: nat): (r: Option<Got>)
    ensures r.Some? ==> index <= r.value.next <= |buf| && (pos == Field ==> index < r.value.next)
    decreases |buf| - index, if pos == Elem then 4 else 1, 1
  {
    match k
    case KSlice(e) => DecSlice(sch, e, buf, index)
    case KMap(kk, kv) => DecMap(sch, kk, kv, buf, index)
    case KStruct(n) =>
      if n !in sch then None
      else if pos == Elem then DecStruct(sch, sch[n], buf, index)
      else DecPointer(sch, sch[n], buf, index)
    case _ => DecScalar(pos, k, buf, index)
  }

  function DecScalar(pos: Pos, k: Kind, buf: seq<byte>, index: nat): (r: Option<Got>)
    ensures r.Some? ==> index < r.value.next <= |buf|
  {
    match k
    case KBool => if index < |buf| then Some(Got(VBool(buf[index] == 1), index + 1)) else None
    case KSigned(w) => if w > 0 && index + w <= |buf|
      then Some(Got(VInt(Signed(w, FromBE(buf[index..index + w]))), index + w)) else None
    case KUint8 => if index < |buf| then Some(Got(VInt(buf[index]), index + 1)) else None
    case KUint16 => if index + 2 <= |buf| then Some(Got(VInt((buf[index] as int) * 256 + buf[index]), index + 2))
      else None
    case KFloat(w) =>
      if pos == Field && w > 0 && index + w <= |buf| then Some(Got(VFloat(FromBE(buf[index..index + w])), index + w))
        else None
    case KPid => DecPid(buf, index)
    case KNamed(_) | KOther => None
    case _ => DecText(buf, index)
  }

  function DecSlice(sch: Schema, e: Kind, buf: seq<byte>, index: nat): (r: Option<Got>)
    ensures r.Some? ==> index < r.value.next <= |buf|
    decreases |buf| - index, 1, 0
  {
    var end := Payload(buf, index);
    if end == None then None
    else
      var es := DecElems(sch, e, buf, index + 2, end.value);
      if es == None || end.value > |buf| then None else Some(Got(VSlice(es.value), end.value))
  }

  function DecMap(sch: Schema, kk: Kind, kv: Kind, buf: seq<byte>, index: nat): (r: Option<Got>)
    ensures r.Some? ==> index < r.value.next <= |buf|
    decreases |buf| - index, 1, 0
  {
    var end := Payload(buf, index);
    if end == None then None
    else
      var es := DecEntries(sch, kk, kv, buf, index + 2, end.value, []);
      if es == None || end.value > |buf| then None else Some(Got(VMap(es.value), end.value))
  }

  // decodeStructCheck
  function DecPointer(sch: Schema, def: Def, buf: seq<byte>, index: nat): (r: Option<Got>)
    ensures r.Some? ==> index < r.value.next <= |buf|
    decreases |buf| - index, 1, 0
  {
    if index < |buf| && buf[index] == 1 then DecStruct(sch, def, buf, index + 1)
    else if index < |buf| then Some(Got(VNil, index + 1))
    else None
  }

  // decodePidCheck; what the node then makes of the pid is not part of the codec
  function DecPid(buf: seq<byte>, index: nat): (r: Option<Got>)
    ensures r.Some? ==> index < r.value.next <= |buf|
  {
    if index < |buf| && buf[index] == 1 then
      if index + 9 <= |buf| then
        var node := DecText(buf, index + 9);
        if node == None then None
        else Some(Got(VPid(Signed(8, FromBE(buf[index + 1..index + 9])), node.value.v.s), node.value.next))
      else None
    else if index < |buf| then Some(Got(VNil, index + 1))
    else None
  }

  function DecText(buf: seq<byte>, index: nat): (r: Option<Got>)
    ensures r.Some? ==> index < r.value.next <= |buf| && r.value.v.VText?
  {
    var end := Payload(buf, index);
    if end == None || end.value > |buf| then None else Some(Got(VText(buf[index + 2..end.value]), end.value))
  }

  function DecElems(sch: Schema, e: Kind, buf: seq<byte>, index: nat, end: nat): Option<seq<Value>>
    decreases |buf| - index, 5, 0
  {
    if index >= end then Some([])
    else
      var r := Dec(sch, Elem, e, buf, index);
      if r == None || r.value.next == index then None
      else
        var rest := DecElems(sch, e, buf, r.value.next, end);
        if rest == None then None else Some([r.value.v] + rest.value)
  }

  function DecEntries(sch: Schema, kk: Kind, kv: Kind, buf: seq<byte>, index: nat, end: nat,
                      m: seq<Entry>): Option<seq<Entry>>
    decreases |buf| - index, 6, 0
  {
    if index >= end then Some(m)
    else
      var e := DecEntry(sch, kk, kv, buf, index);
      if e == None || e.value.1 == index then None
      else DecEntries(sch, kk, kv, buf, e.value.1, end, SetEntry(m, e.value.0))
  }

  function DecEntry(sch: Schema, kk: Kind, kv: Kind, buf: seq<byte>, index: nat): (r: Option<(Entry, nat)>)
    ensures r.Some? ==> index <= r.value.1 <= |buf|
    decreases |buf| - index, 5, 0
  {
    var key := Dec(sch, Elem, kk, buf, index);
    if key == None then None
    else
      var val := Dec(sch, Elem, kv, buf, key.value.next);
      if val == None then None else Some((Entry(key.value.v, val.value.v), val.value.next))
  }

  // decodeStructDef; setting a field that is not exported panics
  function DecStruct(sch: Schema, def: Def, buf: seq<byte>, index: nat): (r: Option<Got>)
    ensures r.Some? ==> index <= r.value.next <= |buf|
    decreases |buf| - index, 3, 0
  {
    var r := DecFields(sch, def.fields, buf, index);
    if !def.open || r == None || r.value.1 > |buf| then None else Some(Got(VStruct(r.value.0), r.value.1))
  }

  function DecFields(sch: Schema, ks: seq<Kind>, buf: seq<byte>, index: nat): (r: Option<(seq<Value>, nat)>)
    ensures r.Some? ==> index <= r.value.1
    decreases |buf| - index, 2, |ks|
  {
    if ks == [] then Some(([], index))
    else
      var r := Dec(sch, Field, ks[0], buf, index);
      if r == None then None
      else
        var rest := DecFields(sch, ks[1..], buf, r.value.next);
        if rest == None then None else Some(([r.value.v] + rest.value.0, rest.value.1))
  }
}
