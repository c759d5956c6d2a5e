// When coding panics (gate/pb): for which values, and for which kinds on some value.

module PbFailures {
  import opened Basics
  import opened Bytes
  import opened PbModel
  import opened PbProofs

  // ------------------------------------------------------------ what conforms is encoded

  lemma {:induction false} ConformsEncodes(sch: Schema, pos: Pos, inMap: bool, k: Kind, v: Value)
    requires Conforms(sch, pos, k, v) && (inMap ==> Codable(k, true))
    ensures Encodes(sch, inMap, k, v)
    decreases v, 1
  {
    match k
    case KSlice(e) => ElemsEncode(sch, e, v.es);
    case KMap(kk, kv) => EntriesAllEncode(sch, kk, kv, v.entries);
    case KStruct(n) => if v.VStruct? { StructEncodes(sch, sch[n].fields, v.fields); }
    case _ =>
  }

  lemma {:induction false} ElemsEncode(sch: Schema, e: Kind, es: seq<Value>)
    requires AllConform(sch, e, es)
    ensures AllEncode(sch, e, es)
    decreases es, 0
  {
    if es != [] {
      if !NilElem(sch, e, es[0]) { ConformsEncodes(sch, Elem, false, e, es[0]); }
      ElemsEncode(sch, e, es[1..]);
    }
  }

  lemma {:induction false} EntryOfConforming(sch: Schema, kk: Kind, kv: Kind, e: Entry)
    requires EntryConforms(sch, kk, kv, e) && Codable(kv, true)
    ensures EntryEncodes(sch, kk, kv, e)
    decreases e, 0
  {
    ConformsEncodes(sch, Elem, false, kk, e.key);
    ConformsEncodes(sch, Elem, true, kv, e.val);
  }

  lemma {:induction false} EntriesAllEncode(sch: Schema, kk: Kind, kv: Kind, es: seq<Entry>)
    requires EntriesConform(sch, kk, kv, es) && Codable(kv, true)
    ensures EntriesEncode(sch, kk, kv, es)
    decreases es, 0
  {
    if es != [] {
      EntryOfConforming(sch, kk, kv, es[0]);
      EntriesAllEncode(sch, kk, kv, es[1..]);
    }
  }

  lemma {:induction false} StructEncodes(sch: Schema, ks: seq<Kind>, vs: seq<Value>)
    requires FieldsConform(sch, ks, vs)
    ensures FieldsEncode(sch, ks, vs)
    decreases vs, 0
  {
    if vs != [] {
      ConformsEncodes(sch, Field, false, ks[0], vs[0]);
      StructEncodes(sch, ks[1..], vs[1..]);
    }
  }

  // ------------------------------------------------------------ when decoding panics

  // Somewhere in the value a slice or a map holds a float, or something is of a named scalar
  // type, or a struct that is there has a field that is not exported.
  predicate Lost(sch: Schema, pos: Pos, k: Kind, v: Value)
    decreases v, 0
  {
    match k
    case KFloat(_) => pos == Elem
    case KSlice(e) => v.VSlice? && !EmptyStruct(sch, e) && SomeLost(sch, e, v.es)
    case KMap(kk, kv) => v.VMap? && EntriesLost(sch, kk, kv, v.entries)
    case KStruct(n) =>
      && v.VStruct? && n in sch && (pos == Field ==> sch[n].fields != [])
      && (!sch[n].open || FieldsLost(sch, sch[n].fields, v.fields))
    case KNamed(_) => true
    case _ => false
  }

  predicate SomeLost(sch: Schema, e: Kind, es: seq<Value>)
    decreases es, 0
  {
    es != [] && (Lost(sch, Elem, e, es[0]) || SomeLost(sch, e, es[1..]))
  }

  predicate EntryLost(sch: Schema, kk: Kind, kv: Kind, e: Entry)
    decreases e, 0
  {
    Lost(sch, Elem, kk, e.key) || Lost(sch, Elem, kv, e.val)
  }

  predicate EntriesLost(sch: Schema, kk: Kind, kv: Kind, es: seq<Entry>)
    decreases es, 0
  {
    es != [] && (EntryLost(sch, kk, kv, es[0]) || EntriesLost(sch, kk, kv, es[1..]))
  }

  predicate FieldsLost(sch: Schema, ks: seq<Kind>, vs: seq<Value>)
    decreases vs, 0
  {
    ks != [] && vs != [] && (Lost(sch, Field, ks[0], vs[0]) || FieldsLost(sch, ks[1..], vs[1..]))
  }

  lemma {:induction false} UnseenExactly(sch: Schema, pos: Pos, k: Kind, v: Value)
    requires Conforms(sch, pos, k, v)
    ensures Seen(sch, pos, k, v) == None <==> Lost(sch, pos, k, v)
    decreases v, 1
  {
    match k
    case KSlice(e) => ElemsUnseen(sch, e, v.es);
    case KMap(kk, kv) => EntriesUnseen(sch, kk, kv, v.entries, []);
    case KStruct(n) => if v.VStruct? { FieldsUnseen(sch, sch[n].fields, v.fields); }
    case _ =>
  }

  lemma {:induction false} ElemsUnseen(sch: Schema, e: Kind, es: seq<Value>)
    requires AllConform(sch, e, es)
    ensures SeenElems(sch, e, es) == None <==> SomeLost(sch, e, es)
    decreases es, 0
  {
    if es != [] {
      if !NilElem(sch, e, es[0]) { UnseenExactly(sch, Elem, e, es[0]); }
      ElemsUnseen(sch, e, es[1..]);
    }
  }

  lemma {:induction false} EntryUnseen(sch: Schema, kk: Kind, kv: Kind, e: Entry)
    requires EntryConforms(sch, kk, kv, e)
    ensures SeenEntry(sch, kk, kv, e) == None <==> EntryLost(sch, kk, kv, e)
    decreases e, 0
  {
    UnseenExactly(sch, Elem, kk, e.key);
    UnseenExactly(sch, Elem, kv, e.val);
  }

  // The facts about one entry, stated so that the definitions are not unfolded.
  ghost predicate EntryLostIs(sch: Schema, kk: Kind, kv: Kind, e: Entry, lost: bool) {
    forall p :: p == e ==> EntryLost(sch, kk, kv, p) == lost
  }

  lemma {:induction false} FirstUnseen(sch: Schema, kk: Kind, kv: Kind, e: Entry) returns (w: Option<Entry>)
    requires EntryConforms(sch, kk, kv, e)
    ensures EntrySeenIs(sch, kk, kv, e, w) && EntryLostIs(sch, kk, kv, e, w == None)
    decreases e, 1
  {
    EntryUnseen(sch, kk, kv, e);
    w := SeenEntry(sch, kk, kv, e);
  }

  lemma JoinUnseen(sch: Schema, kk: Kind, kv: Kind, es: seq<Entry>, m: seq<Entry>, w: Option<Entry>)
    requires es != [] && EntrySeenIs(sch, kk, kv, es[0], w) && EntryLostIs(sch, kk, kv, es[0], w == None)
    ensures SeenEntries(sch, kk, kv, es, m)
            == if w == None then None else SeenEntries(sch, kk, kv, es[1..], SetEntry(m, w.value))
    ensures EntriesLost(sch, kk, kv, es) <==> w == None || EntriesLost(sch, kk, kv, es[1..])
  {
  }

  lemma {:induction false} EntriesUnseen(sch: Schema, kk: Kind, kv: Kind, es: seq<Entry>, m: seq<Entry>)
    requires EntriesConform(sch, kk, kv, es)
    ensures SeenEntries(sch, kk, kv, es, m) == None <==> EntriesLost(sch, kk, kv, es)
    decreases es, 0
  {
    if es != [] {
      var w := FirstUnseen(sch, kk, kv, es[0]);
      JoinUnseen(sch, kk, kv, es, m, w);
      if w.Some? { EntriesUnseen(sch, kk, kv, es[1..], SetEntry(m, w.value)); }
    }
  }

  lemma {:induction false} FieldsUnseen(sch: Schema, ks: seq<Kind>, vs: seq<Value>)
    requires FieldsConform(sch, ks, vs)
    ensures SeenFields(sch, ks, vs) == None <==> FieldsLost(sch, ks, vs)
    decreases vs, 0
  {
    if vs != [] {
      UnseenExactly(sch, Field, ks[0], vs[0]);
      FieldsUnseen(sch, ks[1..], vs[1..]);
    }
  }

  // Decoding the encoding of a conforming value panics if and only if something in it is lost.
  lemma DecodeFailsExactly(sch: Schema, pos: Pos, k: Kind, v: Value, buf: seq<byte>, index: nat)
    requires Conforms(sch, pos, k, v) && Has(buf, index, Enc(sch, pos, k, v))
    ensures Dec(sch, pos, k, buf, index) == None <==> Lost(sch, pos, k, v)
  {
    DecodeOfEncode(sch, pos, k, v, buf, index);
    UnseenExactly(sch, pos, k, v);
  }

  // ------------------------------------------------------------ values of a kind

  predicate ScalarTyped(k: Kind, v: Value) {
    (k.KNamed? ==> ScalarKind(k.k)) &&
    match Base(k)
    case KBool => v.VBool?
    case KSigned(w) => v.VInt? && (w == 1 || w == 2 || w == 4 || w == 8) && InWidth(w, v.n)
    case KUint8 => v.VInt? && 0 <= v.n < 256
    case KUint16 => v.VInt? && 0 <= v.n < 65536
    case KFloat(w) => v.VFloat? && (w == 4 || w == 8) && v.bits < Pow256(w)
    case KPid => v == VNil || (v.VPid? && InWidth(8, v.id))
    case KString => v.VText?
    case KBytes => v.VText?
    case KOther => v == VOther
    case _ => false
  }

  // The values that a type of this kind has, of whatever length.
  predicate Typed(sch: Schema, k: Kind, v: Value)
    decreases v, 0
  {
    match k
    case KSlice(e) => v.VSlice? && AllTyped(sch, e, v.es)
    case KMap(kk, kv) => v.VMap? && EntriesTyped(sch, kk, kv, v.entries) && Distinct(v.entries)
    case KStruct(n) => n in sch && (v == VNil || (v.VStruct? && FieldsTyped(sch, sch[n].fields, v.fields)))
    case _ => ScalarTyped(k, v)
  }

  predicate AllTyped(sch: Schema, e: Kind, es: seq<Value>)
    decreases es, 0
  {
    es != [] ==> Typed(sch, e, es[0]) && AllTyped(sch, e, es[1..])
  }

  // The keys of a map are no pointers.
  predicate EntriesTyped(sch: Schema, kk: Kind, kv: Kind, es: seq<Entry>)
    decreases es, 0
  {
    es != [] ==> EntryTyped(sch, kk, kv, es[0]) && EntriesTyped(sch, kk, kv, es[1..])
  }

  predicate EntryTyped(sch: Schema, kk: Kind, kv: Kind, e: Entry)
    decreases e, 0
  {
    Typed(sch, kk, e.key) && e.key != VNil && Typed(sch, kv, e.val)
  }

  predicate FieldsTyped(sch: Schema, ks: seq<Kind>, vs: seq<Value>)
    decreases vs, 0
  {
    |ks| == |vs| && (vs != [] ==> Typed(sch, ks[0], vs[0]) && FieldsTyped(sch, ks[1..], vs[1..]))
  }

  // All fields of all structs can be encoded.
  ghost predicate AllCodable(sch: Schema) {
    forall n, k :: n in sch && k in sch[n].fields ==> Codable(k, false)
  }

  // The kinds that have values: widths are those of the language, structs are known, and
  // pids stand in fields only.
  predicate Grounded(sch: Schema, k: Kind) {
    match k
    case KSigned(w) => w == 1 || w == 2 || w == 4 || w == 8
    case KFloat(w) => w == 4 || w == 8
    case KSlice(e) => e != KPid && Grounded(sch, e)
    case KMap(kk, kv) => KeyOk(sch, kk) && kv != KPid && Grounded(sch, kv)
    case KStruct(n) => n in sch
    case KNamed(b) => ScalarKind(b) && Grounded(sch, b)
    case _ => true
  }

  // A schema all of whose kinds have values.
  ghost predicate WellFounded(sch: Schema) {
    forall n, f :: n in sch && f in sch[n].fields ==> Grounded(sch, f)
  }

  // ------------------------------------------------------------ no failure without a cause

  lemma {:induction false} CodableEncodes(sch: Schema, inMap: bool, k: Kind, v: Value)
    requires AllCodable(sch) && WellFounded(sch) && Codable(k, inMap) && Grounded(sch, k) && Typed(sch, k, v)
    ensures Encodes(sch, inMap, k, v)
    decreases v, 1
  {
    match k
    case KSlice(e) => CodableElems(sch, e, v.es);
    case KMap(kk, kv) => CodableEntries(sch, kk, kv, v.entries);
    case KStruct(n) => if v.VStruct? { CodableFields(sch, sch[n].fields, v.fields); }
    case _ =>
  }

  lemma {:induction false} CodableElems(sch: Schema, e: Kind, es: seq<Value>)
    requires AllCodable(sch) && WellFounded(sch) && Codable(e, false) && Grounded(sch, e) && AllTyped(sch, e, es)
    ensures AllEncode(sch, e, es)
    decreases es, 0
  {
    if es != [] {
      CodableEncodes(sch, false, e, es[0]);
      CodableElems(sch, e, es[1..]);
    }
  }

  lemma {:induction false} CodableEntry(sch: Schema, kk: Kind, kv: Kind, e: Entry)
    requires AllCodable(sch) && WellFounded(sch) && KeyOk(sch, kk) && Codable(kv, true) && Grounded(sch, kv)
    requires EntryTyped(sch, kk, kv, e)
    ensures EntryEncodes(sch, kk, kv, e)
    decreases e, 0
  {
    CodableEncodes(sch, false, kk, e.key);
    CodableEncodes(sch, true, kv, e.val);
  }

  lemma {:induction false} CodableEntries(sch: Schema, kk: Kind, kv: Kind, es: seq<Entry>)
    requires AllCodable(sch) && WellFounded(sch) && KeyOk(sch, kk) && Codable(kv, true) && Grounded(sch, kv)
    requires EntriesTyped(sch, kk, kv, es)
    ensures EntriesEncode(sch, kk, kv, es)
    decreases es, 0
  {
    if es != [] {
      CodableEntry(sch, kk, kv, es[0]);
      CodableEntries(sch, kk, kv, es[1..]);
    }
  }

  lemma {:induction false} CodableFields(sch: Schema, ks: seq<Kind>, vs: seq<Value>)
    requires AllCodable(sch) && WellFounded(sch) && FieldsTyped(sch, ks, vs)
    requires forall k :: k in ks ==> Codable(k, false) && Grounded(sch, k)
    ensures FieldsEncode(sch, ks, vs)
    decreases vs, 0
  {
    if vs != [] {
      CodableEncodes(sch, false, ks[0], vs[0]);
      CodableFields(sch, ks[1..], vs[1..]);
    }
  }

  // ------------------------------------------------------------ a failure for every cause

  // The zero value of a kind, as a field, an element or a value of a map.
  function Zero(k: Kind): Value {
    match Base(k)
    case KBool => VBool(false)
    case KSigned(_) | KUint8 | KUint16 => VInt(0)
    case KFloat(_) => VFloat(0)
    case KString | KBytes => VText([])
    case KSlice(_) => VSlice([])
    case KMap(_, _) => VMap([])
    case KStruct(_) | KPid => VNil
    case KNamed(_) | KOther => VOther
  }

  function Zeros(ks: seq<Kind>): seq<Value> { if ks == [] then [] else [Zero(ks[0])] + Zeros(ks[1..]) }

  // The zero value of a key, which is a struct and no pointer to one.
  function ZeroKey(sch: Schema, k: Kind): Value {
    if k.KStruct? && k.name in sch then VStruct(Zeros(sch[k.name].fields)) else Zero(k)
  }

  lemma ZeroTyped(sch: Schema, k: Kind)
    requires Grounded(sch, k)
    ensures Typed(sch, k, Zero(k))
  {
    assert Pow256(1) >= 1;
  }

  lemma {:induction false} ZerosTyped(sch: Schema, ks: seq<Kind>)
    requires forall k :: k in ks ==> Grounded(sch, k)
    ensures FieldsTyped(sch, ks, Zeros(ks))
    decreases |ks|
  {
    if ks != [] {
      ZeroTyped(sch, ks[0]);
      ZerosTyped(sch, ks[1..]);
    }
  }

  lemma ZeroKeyTyped(sch: Schema, k: Kind)
    requires KeyOk(sch, k) && WellFounded(sch)
    ensures Typed(sch, k, ZeroKey(sch, k)) && ZeroKey(sch, k) != VNil
  {
    if k.KStruct? { ZerosTyped(sch, sch[k.name].fields); } else { ZeroTyped(sch, k); }
  }

  // A value on which encoding panics.
  function Witness(sch: Schema, k: Kind, inMap: bool): Value {
    match k
    case KSlice(e) => VSlice([Witness(sch, e, false)])
    case KMap(kk, kv) => VMap([Entry(ZeroKey(sch, kk), if Codable(kv, true) then Zero(kv) else Witness(sch, kv, true))])
    case _ => Zero(k)
  }

  lemma {:induction false} WitnessFails(sch: Schema, k: Kind, inMap: bool)
    requires Grounded(sch, k) && !Codable(k, inMap)
    requires WellFounded(sch)
    ensures Typed(sch, k, Witness(sch, k, inMap)) && !Encodes(sch, inMap, k, Witness(sch, k, inMap))
    decreases k
  {
    match k
    case KSlice(e) =>
      WitnessFails(sch, e, false);
      assert [Witness(sch, e, false)][1..] == [];
    case KMap(kk, kv) =>
      ZeroKeyTyped(sch, kk);
      if Codable(kv, true) { ZeroTyped(sch, kv); } else { WitnessFails(sch, kv, true); }
      var es := Witness(sch, k, inMap).entries;
      assert |es| == 1 && es[1..] == [] && EntriesEncode(sch, kk, kv, []) && EntriesTyped(sch, kk, kv, []);
      assert EntryTyped(sch, kk, kv, es[0]);
      assert !inMap ==> !EntryEncodes(sch, kk, kv, es[0]);
    case _ =>
  }

  // ------------------------------------------------------------ exactly

  // Every value of every field can be encoded.
  ghost predicate NeverPanics(sch: Schema) {
    forall n, f, v :: n in sch && f in sch[n].fields && Typed(sch, f, v) ==> Encodes(sch, false, f, v)
  }

  // Encoding a value of some field can panic if and only if some field is not codable.
  lemma EncodeFailsExactly(sch: Schema)
    requires WellFounded(sch)
    ensures NeverPanics(sch) <==> AllCodable(sch)
  {
    if AllCodable(sch) {
      forall n, f, v | n in sch && f in sch[n].fields && Typed(sch, f, v)
        ensures Encodes(sch, false, f, v)
      {
        CodableEncodes(sch, false, f, v);
      }
    } else {
      var n, f :| n in sch && f in sch[n].fields && !Codable(f, false);
      WitnessFails(sch, f, false);
    }
  }

  // ------------------------------------------------------------ types on which decoding panics

  // No float in a slice or a map, and nothing of a named scalar type.
  predicate Storable(pos: Pos, k: Kind)
    decreases k
  {
    match k
    case KFloat(_) => pos == Field
    case KNamed(_) => false
    case KSlice(e) => Storable(Elem, e)
    case KMap(kk, kv) => Storable(Elem, kk) && Storable(Elem, kv)
    case _ => true
  }

  ghost predicate AllStorable(sch: Schema) {
    forall n :: n in sch ==> sch[n].open && forall k :: k in sch[n].fields ==> Storable(Field, k)
  }

  // No value of any struct is lost.
  ghost predicate NothingLost(sch: Schema) {
    forall n, vs :: n in sch && FieldsTyped(sch, sch[n].fields, vs) ==>
      sch[n].open && !FieldsLost(sch, sch[n].fields, vs)
  }

  lemma {:induction false} StorableIsKept(sch: Schema, pos: Pos, k: Kind, v: Value)
    requires AllStorable(sch) && Storable(pos, k)
    ensures !Lost(sch, pos, k, v)
    decreases v, 1
  {
    match k
    case KSlice(e) => if v.VSlice? { StorableElems(sch, e, v.es); }
    case KMap(kk, kv) => if v.VMap? { StorableEntries(sch, kk, kv, v.entries); }
    case KStruct(n) => if v.VStruct? && n in sch { StorableFields(sch, sch[n].fields, v.fields); }
    case _ =>
  }

  lemma {:induction false} StorableElems(sch: Schema, e: Kind, es: seq<Value>)
    requires AllStorable(sch) && Storable(Elem, e)
    ensures !SomeLost(sch, e, es)
    decreases es, 0
  {
    if es != [] {
      StorableIsKept(sch, Elem, e, es[0]);
      StorableElems(sch, e, es[1..]);
    }
  }

  lemma {:induction false} StorableEntry(sch: Schema, kk: Kind, kv: Kind, e: Entry)
    requires AllStorable(sch) && Storable(Elem, kk) && Storable(Elem, kv)
    ensures !EntryLost(sch, kk, kv, e)
    decreases e, 0
  {
    StorableIsKept(sch, Elem, kk, e.key);
    StorableIsKept(sch, Elem, kv, e.val);
  }

  lemma {:induction false} StorableEntries(sch: Schema, kk: Kind, kv: Kind, es: seq<Entry>)
    requires AllStorable(sch) && Storable(Elem, kk) && Storable(Elem, kv)
    ensures !EntriesLost(sch, kk, kv, es)
    decreases es, 0
  {
    if es != [] {
      StorableEntry(sch, kk, kv, es[0]);
      StorableEntries(sch, kk, kv, es[1..]);
    }
  }

  lemma {:induction false} StorableFields(sch: Schema, ks: seq<Kind>, vs: seq<Value>)
    requires AllStorable(sch) && forall k :: k in ks ==> Storable(Field, k)
    ensures !FieldsLost(sch, ks, vs)
    decreases vs, 0
  {
    if ks != [] && vs != [] {
      StorableIsKept(sch, Field, ks[0], vs[0]);
      StorableFields(sch, ks[1..], vs[1..]);
    }
  }

  // A value that is lost.
  function LostValue(sch: Schema, k: Kind): Value {
    match k
    case KSlice(e) => VSlice([LostValue(sch, e)])
    case KMap(kk, kv) =>
      VMap([if Storable(Elem, kk) then Entry(ZeroKey(sch, kk), LostValue(sch, kv)) else Entry(Zero(kk), Zero(kv))])
    case _ => Zero(k)
  }

  lemma {:induction false} LostValueIsLost(sch: Schema, pos: Pos, k: Kind)
    requires WellFounded(sch) && Grounded(sch, k) && !Storable(pos, k)
    ensures Typed(sch, k, LostValue(sch, k)) && Lost(sch, pos, k, LostValue(sch, k))
    decreases k
  {
    match k
    case KSlice(e) =>
      LostValueIsLost(sch, Elem, e);
      assert [LostValue(sch, e)][1..] == [];
    case KMap(kk, kv) =>
      var es := LostValue(sch, k).entries;
      if Storable(Elem, kk) {
        ZeroKeyTyped(sch, kk);
        LostValueIsLost(sch, Elem, kv);
      } else {
        ZeroTyped(sch, kv);
        assert Pow256(1) >= 1;
      }
      assert |es| == 1 && es[1..] == [] && EntriesTyped(sch, kk, kv, []);
      assert EntryTyped(sch, kk, kv, es[0]) && EntryLost(sch, kk, kv, es[0]);
    case _ => ZeroTyped(sch, k);
  }

  // The zero values of these fields, but for one that is lost.
  lemma {:induction false} LostField(sch: Schema, ks: seq<Kind>, i: nat) returns (vs: seq<Value>)
    requires WellFounded(sch) && (forall k :: k in ks ==> Grounded(sch, k)) && i < |ks| && !Storable(Field, ks[i])
    ensures FieldsTyped(sch, ks, vs) && FieldsLost(sch, ks, vs)
    decreases |ks|
  {
    if i == 0 {
      LostValueIsLost(sch, Field, ks[0]);
      ZerosTyped(sch, ks[1..]);
      vs := [LostValue(sch, ks[0])] + Zeros(ks[1..]);
      assert vs[1..] == Zeros(ks[1..]);
    } else {
      var rest := LostField(sch, ks[1..], i - 1);
      ZeroTyped(sch, ks[0]);
      vs := [Zero(ks[0])] + rest;
      assert vs[1..] == rest;
    }
  }

  // Some value of some struct can be lost if and only if a struct has a field that is not
  // exported, or one that is not storable.
  lemma LostExactly(sch: Schema)
    requires WellFounded(sch)
    ensures NothingLost(sch) <==> AllStorable(sch)
  {
    if AllStorable(sch) {
      forall n, vs | n in sch && FieldsTyped(sch, sch[n].fields, vs)
        ensures sch[n].open && !FieldsLost(sch, sch[n].fields, vs)
      {
        StorableFields(sch, sch[n].fields, vs);
      }
    } else {
      var n :| n in sch && !(sch[n].open && forall k :: k in sch[n].fields ==> Storable(Field, k));
      ZerosTyped(sch, sch[n].fields);
      if sch[n].open {
        var k :| k in sch[n].fields && !Storable(Field, k);
        var i :| 0 <= i < |sch[n].fields| && sch[n].fields[i] == k;
        var vs := LostField(sch, sch[n].fields, i);
      }
    }
  }

  // ------------------------------------------------------------ from values to the round trip

  // All length prefixes in the value fit 16 bits.
  predicate Fits(sch: Schema, k: Kind, v: Value)
    decreases v, 0
  {
    match k
    case KString | KBytes => v.VText? ==> |v.s| < 65536
    case KPid => v.VPid? ==> |v.node| < 65536
    case KSlice(e) => v.VSlice? ==> |EncElems(sch, e, v.es)| < 65536 && AllFit(sch, e, v.es)
    case KMap(kk, kv) => v.VMap? ==> |EncEntries(sch, kk, kv, v.entries)| < 65536 && EntriesFit(sch, kk, kv, v.entries)
    case KStruct(n) => v.VStruct? && n in sch ==> FieldsFit(sch, sch[n].fields, v.fields)
    case KNamed(b) => (b == KString || b == KBytes) && v.VText? ==> |v.s| < 65536
    case _ => true
  }

  predicate AllFit(sch: Schema, e: Kind, es: seq<Value>)
    decreases es, 0
  {
    es != [] ==> Fits(sch, e, es[0]) && AllFit(sch, e, es[1..])
  }

  predicate EntriesFit(sch: Schema, kk: Kind, kv: Kind, es: seq<Entry>)
    decreases es, 0
  {
    es != [] ==> EntryFits(sch, kk, kv, es[0]) && EntriesFit(sch, kk, kv, es[1..])
  }

  predicate EntryFits(sch: Schema, kk: Kind, kv: Kind, e: Entry)
    decreases e, 0
  {
    Fits(sch, kk, e.key) && Fits(sch, kv, e.val)
  }

  predicate FieldsFit(sch: Schema, ks: seq<Kind>, vs: seq<Value>)
    decreases vs, 0
  {
    ks != [] && vs != [] ==> Fits(sch, ks[0], vs[0]) && FieldsFit(sch, ks[1..], vs[1..])
  }

  // A value of a field that is codable and fits conforms: so it is encoded, and what the round
  // trip says holds for it.
  lemma {:induction false} TypedConforms(sch: Schema, pos: Pos, k: Kind, v: Value)
    requires WellFounded(sch) && AllCodable(sch) && Grounded(sch, k) && Codable(k, false)
    requires Typed(sch, k, v) && Fits(sch, k, v) && (pos == Elem ==> v != VNil && k != KPid)
    ensures Conforms(sch, pos, k, v)
    decreases v, 1
  {
    match k
    case KSlice(e) => ElemsConform(sch, e, v.es);
    case KMap(kk, kv) => EntriesAllConform(sch, kk, kv, v.entries);
    case KStruct(n) => if v.VStruct? { StructConforms(sch, sch[n].fields, v.fields); }
    case _ => assert ScalarConforms(pos, k, v);
  }

  lemma {:induction false} ElemsConform(sch: Schema, e: Kind, es: seq<Value>)
    requires WellFounded(sch) && AllCodable(sch) && e != KPid && Grounded(sch, e) && Codable(e, false)
    requires AllTyped(sch, e, es) && AllFit(sch, e, es)
    ensures AllConform(sch, e, es)
    decreases es, 0
  {
    if es != [] {
      if es[0] != VNil { TypedConforms(sch, Elem, e, es[0]); }
      ElemsConform(sch, e, es[1..]);
    }
  }

  lemma {:induction false} EntryIsConforming(sch: Schema, kk: Kind, kv: Kind, e: Entry)
    requires WellFounded(sch) && AllCodable(sch) && KeyOk(sch, kk) && kv != KPid && Grounded(sch, kv) &&
             Codable(kv, true)
    requires EntryTyped(sch, kk, kv, e) && EntryFits(sch, kk, kv, e)
    ensures EntryConforms(sch, kk, kv, e)
    decreases e, 0
  {
    TypedConforms(sch, Elem, kk, e.key);
    TypedConforms(sch, Elem, kv, e.val);
  }

  lemma {:induction false} EntriesAllConform(sch: Schema, kk: Kind, kv: Kind, es: seq<Entry>)
    requires WellFounded(sch) && AllCodable(sch) && KeyOk(sch, kk) && kv != KPid && Grounded(sch, kv) &&
             Codable(kv, true)
    requires EntriesTyped(sch, kk, kv, es) && EntriesFit(sch, kk, kv, es)
    ensures EntriesConform(sch, kk, kv, es)
    decreases es, 0
  {
    if es != [] {
      EntryIsConforming(sch, kk, kv, es[0]);
      EntriesAllConform(sch, kk, kv, es[1..]);
    }
  }

  lemma {:induction false} StructConforms(sch: Schema, ks: seq<Kind>, vs: seq<Value>)
    requires WellFounded(sch) && AllCodable(sch) && FieldsTyped(sch, ks, vs) && FieldsFit(sch, ks, vs)
    requires forall k :: k in ks ==> Codable(k, false) && Grounded(sch, k)
    ensures FieldsConform(sch, ks, vs)
    decreases vs, 0
  {
    if vs != [] {
      TypedConforms(sch, Field, ks[0], vs[0]);
      StructConforms(sch, ks[1..], vs[1..]);
    }
  }

  // ------------------------------------------------------------ length prefixes

  // A slice whose elements conform comes back, with the decoder behind it, if and only if its
  // length fits 16 bits and its elements are intact; the same for maps.
  lemma SliceExactly(sch: Schema, pos: Pos, e: Kind, es: seq<Value>, buf: seq<byte>, index: nat)
    requires AllConform(sch, e, es) && Has(buf, index, Enc(sch, pos, KSlice(e), VSlice(es)))
    ensures Dec(sch, pos, KSlice(e), buf, index) == Some(Got(VSlice(es), index + 2 + |EncElems(sch, e, es)|)) <==>
            |EncElems(sch, e, es)| < 65536 && Intact(sch, pos, KSlice(e), VSlice(es))
  {
    var payload := EncElems(sch, e, es);
    if |payload| < 65536 {
      RoundTripExactly(sch, pos, KSlice(e), VSlice(es), buf, index);
    } else {
      PrefixTooLong(buf, index, payload);
    }
  }

  lemma MapExactly(sch: Schema, pos: Pos, kk: Kind, kv: Kind, es: seq<Entry>, buf: seq<byte>, index: nat)
    requires KeyOk(sch, kk) && Codable(kv, true) && EntriesConform(sch, kk, kv, es) && Distinct(es)
    requires Has(buf, index, Enc(sch, pos, KMap(kk, kv), VMap(es)))
    ensures Dec(sch, pos, KMap(kk, kv), buf, index)
            == Some(Got(VMap(es), index + 2 + |EncEntries(sch, kk, kv, es)|)) <==>
            |EncEntries(sch, kk, kv, es)| < 65536 && Intact(sch, pos, KMap(kk, kv), VMap(es))
  {
    var payload := EncEntries(sch, kk, kv, es);
    if |payload| < 65536 {
      RoundTripExactly(sch, pos, KMap(kk, kv), VMap(es), buf, index);
    } else {
      PrefixTooLong(buf, index, payload);
    }
  }

  // A prefix that does not fit leads to a place before the end.
  lemma PrefixTooLong(buf: seq<byte>, index: nat, payload: seq<byte>)
    requires Has(buf, index, Prefixed(payload)) && |payload| >= 65536
    ensures Payload(buf, index).Some? && Payload(buf, index).value < index + 2 + |payload|
  {
    HasBoth(buf, index, ToBE(2, |payload|), payload);
    HasAt(buf, index, ToBE(2, |payload|), 0);
    HasAt(buf, index, ToBE(2, |payload|), 1);
    TwoBytes(|payload|);
  }
}
