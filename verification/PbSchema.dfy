// How a coder learns its structs (gate/pb/pb.go): from the structs it is given it walks to all
// those their fields mention, and panics on a type that it does not allow.

module PbSchema {
  import opened Bytes
  import opened PbModel
  import opened PbFailures
  import opened PbProofs
  import PbMessages

  type IntWidth = w: nat | w == 1 || w == 2 || w == 4 || w == 8 witness 1

  type FloatWidth = w: nat | w == 4 || w == 8 witness 4

  datatype Scalar = SBool | SInt(w: IntWidth) | SUint8 | SUint16 | SFloat(fw: FloatWidth) | SString

  // The types of the program, as reflection shows them. A scalar type may have a name of its
  // own; other types are taken as they are whatever their names. kernel.Pid is a struct like any
  // other, with a channel among its fields.
  datatype GoType =
    | GScalar(s: Scalar, named: bool)
    | GSlice(elem: GoType) | GMap(key: GoType, val: GoType) | GStruct(name: nat) | GPtr(to: GoType) | GOther

  // The structs there are, which of them is kernel.Pid, and which have fields that are not exported.
  datatype Program = Program(structs: map<nat, seq<GoType>>, pid: nat, hidden: set<nat>)

  function Deref(t: GoType): GoType { if t.GPtr? then t.to else t }

  // ------------------------------------------------------------ what is allowed

  // checkPanic: no struct by value, and no pointer but to a struct
  predicate Pointed(t: GoType) { !t.GStruct? && (t.GPtr? ==> t.to.GStruct?) }

  // checkMapKey
  predicate KeyFine(t: GoType) { t.GStruct? || (t.GScalar? && (t.s.SInt? || t.s == SUint16 || t.s == SString)) }

  // checkStruct, but for the structs it walks to: it looks into slices and maps only.
  predicate ElemFine(t: GoType) {
    match Deref(t)
    case GSlice(e) => Pointed(e) && ElemFine(e)
    case GMap(k, v) => KeyFine(k) && Pointed(v) && ElemFine(v)
    case _ => true
  }

  predicate IsByte(t: GoType) { t.GScalar? && t.s == SUint8 }

  // A field, as makeDef sees it.
  predicate FieldFine(t: GoType) {
    Pointed(t) &&
    match Deref(t)
    case GScalar(s, _) => s != SUint8
    case GSlice(e) => IsByte(e) || (Pointed(e) && ElemFine(e))
    case GMap(k, v) => KeyFine(k) && Pointed(v) && ElemFine(v)
    case GOther | GPtr(_) => false
    case _ => true
  }

  // The structs that checkStruct walks to.
  function Kids(t: GoType): seq<nat> {
    match Deref(t)
    case GSlice(e) => Kids(e)
    case GMap(k, v) => Kids(k) + Kids(v)
    case GStruct(n) => [n]
    case _ => []
  }

  function FieldRefs(p: Program, t: GoType): seq<nat> {
    match Deref(t)
    case GSlice(e) => if IsByte(e) then [] else Kids(e)
    case GMap(k, v) => Kids(k) + Kids(v)
    case GStruct(n) => if n == p.pid then [] else [n]
    case _ => []
  }

  predicate Fine(p: Program, n: nat) {
    n in p.structs && forall t :: t in p.structs[n] ==> FieldFine(t)
  }

  predicate Mentions(p: Program, a: nat, b: nat) {
    a in p.structs && exists t :: t in p.structs[a] && b in FieldRefs(p, t)
  }

  ghost predicate Closed(p: Program) {
    forall a, b :: Mentions(p, a, b) ==> b in p.structs
  }

  ghost predicate Leads(p: Program, path: seq<nat>) {
    path != [] && forall i :: 0 < i < |path| ==> Mentions(p, path[i - 1], path[i])
  }

  ghost predicate Reaches(p: Program, a: nat, b: nat) {
    exists path :: Leads(p, path) && path[0] == a && path[|path| - 1] == b
  }

  lemma ReachesItself(p: Program, a: nat)
    ensures Reaches(p, a, a)
  {
    assert Leads(p, [a]) && [a][0] == a && [a][|[a]| - 1] == a;
  }

  lemma ReachesOn(p: Program, a: nat, b: nat, c: nat)
    requires Mentions(p, a, b) && Reaches(p, b, c)
    ensures Reaches(p, a, c)
  {
    var path :| Leads(p, path) && path[0] == b && path[|path| - 1] == c;
    var longer := [a] + path;
    forall i | 0 < i < |longer|
      ensures Mentions(p, longer[i - 1], longer[i])
    {
      if i > 1 { assert Mentions(p, path[i - 2], path[i - 1]); }
    }
    assert Leads(p, longer) && longer[0] == a && longer[|longer| - 1] == c;
  }

  // ------------------------------------------------------------ the walk

  // The struct is allowed, and all that it mentions is registered.
  ghost predicate Done(p: Program, m: map<nat, nat>, n: nat) {
    Fine(p, n) && forall b :: Mentions(p, n, b) ==> b in m
  }

  // From m to m', only structs that can be reached were added, and they are done.
  ghost predicate Walked(p: Program, from: nat, m: map<nat, nat>, m': map<nat, nat>) {
    && m.Keys <= m'.Keys && (forall n :: n in m ==> m'[n] == m[n])
    && forall n :: n in m' && n !in m ==> Done(p, m', n) && m'[n] == 0 && Reaches(p, from, n)
  }

  // A struct that is not allowed can be reached.
  ghost predicate Bad(p: Program, from: nat) {
    exists n :: Reaches(p, from, n) && !Fine(p, n)
  }

  lemma Fewer(all: set<nat>, a: set<nat>, b: set<nat>, n: nat)
    requires a <= b && n in all && n !in b
    ensures |all - (b + {n})| < |all - a|
  {
    var small, extra := all - (b + {n}), (all - a) - (all - (b + {n}));
    assert small + extra == all - a && small !! extra;
    assert {n} + (extra - {n}) == extra && {n} !! extra - {n};
  }

  // checkStruct on a struct: it is made, if it is not registered yet.
  method VisitOne(p: Program, from: nat, n: nat, m: map<nat, nat>) returns (ok: bool, m': map<nat, nat>)
    requires Closed(p) && Mentions(p, from, n)
    ensures ok ==> Walked(p, from, m, m') && n in m'
    ensures !ok ==> Bad(p, from)
    decreases |p.structs.Keys - m.Keys|, 0
  {
    m', ok := m, true;
    if n !in m {
      Fewer(p.structs.Keys, m.Keys, m.Keys, n);
      ok, m' := MakeDef(p, n, 0, m);
      if !ok {
        BadOn(p, from, n);
        return;
      }
    }
    WalkedOn(p, from, n, m, m');
  }

  ghost predicate AllIn(refs: seq<nat>, i: nat, m: map<nat, nat>)
    requires i <= |refs|
  {
    forall k :: 0 <= k < i ==> refs[k] in m
  }

  lemma OneMoreIn(refs: seq<nat>, i: nat, m: map<nat, nat>, m': map<nat, nat>)
    requires i < |refs| && AllIn(refs, i, m) && m.Keys <= m'.Keys && refs[i] in m'
    ensures AllIn(refs, i + 1, m')
  {
    forall k | 0 <= k < i
      ensures refs[k] in m'
    {
      assert refs[k] in m.Keys;
    }
  }

  // checkStruct over all that one field mentions.
  method Visit(p: Program, from: nat, refs: seq<nat>, m: map<nat, nat>) returns (ok: bool, m': map<nat, nat>)
    requires Closed(p) && forall i :: 0 <= i < |refs| ==> Mentions(p, from, refs[i])
    ensures ok ==> Walked(p, from, m, m') && AllIn(refs, |refs|, m')
    ensures !ok ==> Bad(p, from)
    decreases |p.structs.Keys - m.Keys|, 1
  {
    m', ok := m, true;
    var i := 0;
    while i < |refs|
      invariant 0 <= i <= |refs| && Walked(p, from, m, m')
      invariant AllIn(refs, i, m')
    {
      ghost var mid := m';
      FewerStill(p.structs.Keys, m.Keys, mid.Keys);
      ok, m' := VisitOne(p, from, refs[i], m');
      if !ok {
        return;
      }
      WalkedTwice(p, from, m, mid, m');
      OneMoreIn(refs, i, mid, m');
      i := i + 1;
    }
  }

  lemma BadOn(p: Program, a: nat, b: nat)
    requires Mentions(p, a, b) && Bad(p, b)
    ensures Bad(p, a)
  {
    var n :| Reaches(p, b, n) && !Fine(p, n);
    ReachesOn(p, a, b, n);
  }

  lemma FewerStill(all: set<nat>, a: set<nat>, b: set<nat>)
    requires a <= b
    ensures |all - b| <= |all - a|
  {
    var extra := (all - a) - (all - b);
    assert (all - b) + extra == all - a && all - b !! extra;
  }

  lemma WalkedOn(p: Program, a: nat, b: nat, m: map<nat, nat>, m': map<nat, nat>)
    requires Mentions(p, a, b) && (m' == m || (Walked(p, b, m[b := 0], m') && b !in m && Done(p, m', b)))
    ensures Walked(p, a, m, m')
  {
    forall n | n in m' && n !in m
      ensures Done(p, m', n) && m'[n] == 0 && Reaches(p, a, n)
    {
      if n == b { ReachesItself(p, b); }
      ReachesOn(p, a, b, n);
    }
  }

  lemma WalkedTwice(p: Program, from: nat, a: map<nat, nat>, b: map<nat, nat>, c: map<nat, nat>)
    requires Walked(p, from, a, b) && Walked(p, from, b, c)
    ensures Walked(p, from, a, c)
  {
    forall n | n in c && n !in a
      ensures Done(p, c, n) && c[n] == 0 && Reaches(p, from, n)
    {
      if n in b { assert Done(p, b, n); }
    }
  }

  // The first fields are allowed, and what they mention is registered.
  ghost predicate FieldsDone(p: Program, fields: seq<GoType>, m: map<nat, nat>, i: nat)
    requires i <= |fields|
  {
    forall k :: 0 <= k < i ==> FieldFine(fields[k]) && forall b :: b in FieldRefs(p, fields[k]) ==> b in m
  }

  lemma OneMoreDone(p: Program, fields: seq<GoType>, m: map<nat, nat>, m': map<nat, nat>, i: nat)
    requires i < |fields| && FieldsDone(p, fields, m, i) && m.Keys <= m'.Keys && FieldFine(fields[i])
    requires AllIn(FieldRefs(p, fields[i]), |FieldRefs(p, fields[i])|, m')
    ensures FieldsDone(p, fields, m', i + 1)
  {
  }

  lemma AllDone(p: Program, name: nat, m: map<nat, nat>)
    requires name in p.structs && FieldsDone(p, p.structs[name], m, |p.structs[name]|)
    ensures Done(p, m, name)
  {
  }

  lemma FieldMentions(p: Program, name: nat, i: nat)
    requires name in p.structs && i < |p.structs[name]|
    ensures var refs := FieldRefs(p, p.structs[name][i]); forall k :: 0 <= k < |refs| ==> Mentions(p, name, refs[k])
  {
    var t := p.structs[name][i];
    assert t in p.structs[name];
  }

  // makeDef: the struct is registered first, so that structs may mention each other, and then
  // its fields are gone through.
  method MakeDef(p: Program, name: nat, id: nat, m: map<nat, nat>) returns (ok: bool, m': map<nat, nat>)
    requires Closed(p) && name in p.structs
    ensures ok ==> Walked(p, name, m[name := id], m') && Done(p, m', name)
    ensures !ok ==> Bad(p, name)
    decreases |p.structs.Keys - (m.Keys + {name})|, 2
  {
    ghost var m1 := m[name := id];
    assert m1.Keys == m.Keys + {name};
    m', ok := m[name := id], true;
    var fields := p.structs[name];
    ReachesItself(p, name);
    var i := 0;
    while i < |fields|
      invariant 0 <= i <= |fields| && Walked(p, name, m1, m') && FieldsDone(p, fields, m', i)
    {
      var t := fields[i];
      if !FieldFine(t) {
        assert !Fine(p, name);
        return false, m';
      }
      FieldMentions(p, name, i);
      ghost var mid := m';
      FewerStill(p.structs.Keys, m1.Keys, m'.Keys);
      ok, m' := Visit(p, name, FieldRefs(p, t), m');
      if !ok {
        return;
      }
      WalkedTwice(p, name, m1, mid, m');
      OneMoreDone(p, fields, mid, m', i);
      i := i + 1;
    }
    AllDone(p, name, m');
  }

  // ------------------------------------------------------------ all of them

  // What Parse is given: structs and the ids they are to have.
  datatype Request = Request(name: nat, id: nat)

  // All structs that can be reached from those given are allowed.
  ghost predicate Allowed(p: Program, defs: seq<Request>) {
    forall i, n :: 0 <= i < |defs| && Reaches(p, defs[i].name, n) ==> Fine(p, n)
  }

  // Every struct registered is done.
  ghost predicate Complete(p: Program, m: map<nat, nat>) { forall n :: n in m ==> Done(p, m, n) }

  // All that can be reached from a registered struct is registered, and allowed.
  lemma {:induction false} ReachedIsRegistered(p: Program, m: map<nat, nat>, path: seq<nat>)
    requires Complete(p, m) && Leads(p, path) && path[0] in m
    ensures path[|path| - 1] in m && Fine(p, path[|path| - 1])
    decreases |path|
  {
    if |path| > 1 {
      var shorter := path[..|path| - 1];
      ReachedIsRegistered(p, m, shorter);
      assert Mentions(p, path[|path| - 2], path[|path| - 1]);
    }
    assert Done(p, m, path[|path| - 1]);
  }

  lemma DefComplete(p: Program, name: nat, id: nat, m: map<nat, nat>, m': map<nat, nat>)
    requires Complete(p, m) && Walked(p, name, m[name := id], m') && Done(p, m', name)
    ensures Complete(p, m')
  {
    forall n | n in m'
      ensures Done(p, m', n)
    {
      if n in m && n != name { assert Done(p, m, n); }
    }
  }

  lemma BadIsNotAllowed(p: Program, defs: seq<Request>, i: nat)
    requires i < |defs| && Bad(p, defs[i].name)
    ensures !Allowed(p, defs)
  {
    var n :| Reaches(p, defs[i].name, n) && !Fine(p, n);
  }

  lemma CompleteIsAllowed(p: Program, defs: seq<Request>, m: map<nat, nat>)
    requires Complete(p, m) && forall i :: 0 <= i < |defs| ==> defs[i].name in m
    ensures Allowed(p, defs)
  {
    forall i, n | 0 <= i < |defs| && Reaches(p, defs[i].name, n)
      ensures Fine(p, n)
    {
      var path :| Leads(p, path) && path[0] == defs[i].name && path[|path| - 1] == n;
      ReachedIsRegistered(p, m, path);
    }
  }

  // The id that a struct has after these requests: that of the last one for it, or none.
  predicate IsLast(defs: seq<Request>, n: nat, i: int) {
    0 <= i < |defs| && defs[i].name == n && forall j :: i < j < |defs| ==> defs[j].name != n
  }

  ghost predicate HasId(defs: seq<Request>, n: nat, id: nat) {
    if exists i :: 0 <= i < |defs| && defs[i].name == n then exists i :: IsLast(defs, n, i) && defs[i].id == id
    else id == 0
  }

  lemma HasIdOn(defs: seq<Request>, r: Request, n: nat, id: nat)
    requires HasId(defs, n, id)
    ensures HasId(defs + [r], n, if r.name == n then r.id else id)
  {
    var more := defs + [r];
    if r.name == n {
      assert IsLast(more, n, |defs|);
    } else if i :| 0 <= i < |defs| && defs[i].name == n {
      var last :| IsLast(defs, n, last) && defs[last].id == id;
      assert more[i] == defs[i] && IsLast(more, n, last);
    }
  }

  ghost predicate AnyReaches(p: Program, defs: seq<Request>, n: nat) {
    exists i :: 0 <= i < |defs| && Reaches(p, defs[i].name, n)
  }

  lemma AnyReachesOn(p: Program, defs: seq<Request>, r: Request, n: nat)
    requires AnyReaches(p, defs, n) || Reaches(p, r.name, n)
    ensures AnyReaches(p, defs + [r], n)
  {
    var more := defs + [r];
    if AnyReaches(p, defs, n) {
      var i :| 0 <= i < |defs| && Reaches(p, defs[i].name, n);
      assert more[i] == defs[i];
    } else {
      assert more[|defs|] == r;
    }
  }

  // What was asked for is registered, and nothing else but what can be reached from it.
  ghost predicate Requested(p: Program, defs: seq<Request>, m: map<nat, nat>) {
    && (forall i :: 0 <= i < |defs| ==> defs[i].name in m)
    && forall n :: n in m ==> HasId(defs, n, m[n]) && AnyReaches(p, defs, n)
  }

  // The structs that the ids stand for.
  ghost predicate Numbered(defs: seq<Request>, ids: map<nat, nat>) {
    && (forall id :: id in ids ==> id > 0 && Request(ids[id], id) in defs)
    && forall i :: 0 <= i < |defs| && defs[i].id > 0 ==> defs[i].id in ids
  }

  lemma OneMoreRequest(p: Program, defs: seq<Request>, r: Request, m: map<nat, nat>, m': map<nat, nat>)
    requires Requested(p, defs, m) && Walked(p, r.name, m[r.name := r.id], m')
    ensures Requested(p, defs + [r], m')
  {
    var m1, more := m[r.name := r.id], defs + [r];
    ReachesItself(p, r.name);
    forall n | n in m'
      ensures HasId(more, n, m'[n]) && AnyReaches(p, more, n)
    {
      AnyReachesOn(p, defs, r, n);
      HasIdOn(defs, r, n, if n in m then m[n] else 0);
    }
    forall i | 0 <= i < |more|
      ensures more[i].name in m'
    {
      assert more[i].name in m1.Keys;
    }
  }

  lemma OneMoreNumber(defs: seq<Request>, r: Request, ids: map<nat, nat>)
    requires Numbered(defs, ids)
    ensures Numbered(defs + [r], if r.id > 0 then ids[r.id := r.name] else ids)
  {
    assert r in defs + [r] && forall d :: d in defs ==> d in defs + [r];
  }

  ghost predicate Parsed(p: Program, defs: seq<Request>, m: map<nat, nat>, ids: map<nat, nat>) {
    Complete(p, m) && Requested(p, defs, m) && Numbered(defs, ids)
  }

  lemma ParsedOn(p: Program, done: seq<Request>, r: Request, m: map<nat, nat>, m': map<nat, nat>, ids: map<nat, nat>)
    requires Parsed(p, done, m, ids) && Walked(p, r.name, m[r.name := r.id], m') && Done(p, m', r.name)
    ensures Parsed(p, done + [r], m', if r.id > 0 then ids[r.id := r.name] else ids)
  {
    DefComplete(p, r.name, r.id, m, m');
    OneMoreRequest(p, done, r, m, m');
    OneMoreNumber(done, r, ids);
  }

  // The same, stated so that it is not unfolded.
  ghost predicate SoFar(p: Program, done: seq<Request>, m: map<nat, nat>, ids: map<nat, nat>) {
    forall x :: x == done ==> Parsed(p, x, m, ids)
  }

  lemma SoFarOn(p: Program, done: seq<Request>, r: Request, more: seq<Request>, m: map<nat, nat>, m': map<nat, nat>,
                ids: map<nat, nat>)
    requires SoFar(p, done, m, ids) && more == done + [r]
    requires Walked(p, r.name, m[r.name := r.id], m') && Done(p, m', r.name)
    ensures SoFar(p, more, m', if r.id > 0 then ids[r.id := r.name] else ids)
  {
    assert Parsed(p, done, m, ids);
    ParsedOn(p, done, r, m, m', ids);
  }

  lemma AllParsed(p: Program, defs: seq<Request>, m: map<nat, nat>, ids: map<nat, nat>)
    requires SoFar(p, defs, m, ids)
    ensures Parsed(p, defs, m, ids) && Allowed(p, defs)
  {
    assert Parsed(p, defs, m, ids);
    CompleteIsAllowed(p, defs, m);
  }

  // Parse: it panics exactly if a struct that is not allowed can be reached from those given;
  // otherwise exactly what can be reached is registered, what was asked for under its id, and
  // the rest under none. `ids` says which struct an id stands for.
  method Parse(p: Program, defs: seq<Request>) returns (ok: bool, m: map<nat, nat>, ids: map<nat, nat>)
    requires Closed(p) && forall i :: 0 <= i < |defs| ==> defs[i].name in p.structs
    ensures ok <==> Allowed(p, defs)
    ensures ok ==> Parsed(p, defs, m, ids)
  {
    m, ids, ok := map[], map[], true;
    var i := 0;
    while i < |defs|
      invariant 0 <= i <= |defs| && SoFar(p, defs[..i], m, ids)
    {
      ghost var before, before' := m, ids;
      ok, m := MakeDef(p, defs[i].name, defs[i].id, m);
      if !ok {
        BadIsNotAllowed(p, defs, i);
        return;
      }
      if defs[i].id > 0 {
        ids := ids[defs[i].id := defs[i].name];
      }
      assert defs[..i + 1] == defs[..i] + [defs[i]];
      SoFarOn(p, defs[..i], defs[i], defs[..i + 1], before, m, before');
      i := i + 1;
    }
    assert defs[..i] == defs;
    AllParsed(p, defs, m, ids);
  }

  // ------------------------------------------------------------ what the codec makes of it

  function ScalarOf(s: Scalar): (k: Kind)
    ensures ScalarKind(k)
  {
    match s
    case SBool => KBool
    case SInt(w) => KSigned(w)
    case SUint8 => KUint8
    case SUint16 => KUint16
    case SFloat(w) => KFloat(w)
    case SString => KString
  }

  // What is decoded is of the type without a name, and is not assigned to one that has a name.
  function Naming(named: bool, k: Kind): Kind { if named then KNamed(k) else k }

  // The kind that the coder works with.
  function ElemKind(t: GoType): Kind {
    match Deref(t)
    case GScalar(s, named) => Naming(named, ScalarOf(s))
    case GSlice(e) => KSlice(ElemKind(e))
    case GMap(k, v) => KMap(ElemKind(k), ElemKind(v))
    case GStruct(n) => KStruct(n)
    case _ => KOther
  }

  function FieldKind(p: Program, t: GoType): Kind {
    match Deref(t)
    case GSlice(e) => if IsByte(e) then Naming(e.named, KBytes) else ElemKind(t)
    case GStruct(n) => if n == p.pid then KPid else KStruct(n)
    case _ => ElemKind(t)
  }

  lemma {:induction false} ElemGrounded(sch: Schema, t: GoType)
    requires ElemFine(t) && forall n :: n in Kids(t) ==> n in sch
    ensures Grounded(sch, ElemKind(t)) && ElemKind(t) != KPid
    decreases t
  {
    match Deref(t)
    case GSlice(e) => ElemGrounded(sch, e);
    case GMap(k, v) =>
      KeyGrounded(sch, k);
      ElemGrounded(sch, v);
    case _ =>
  }

  lemma KeyGrounded(sch: Schema, k: GoType)
    requires KeyFine(k) && forall n :: n in Kids(k) ==> n in sch
    ensures KeyOk(sch, ElemKind(k))
  {
    if k.GStruct? { assert k.name in Kids(k); }
  }

  // A field that makeDef lets pass has values, once the structs it mentions are known.
  lemma FieldGrounded(p: Program, sch: Schema, t: GoType)
    requires FieldFine(t) && forall n :: n in FieldRefs(p, t) ==> n in sch
    ensures Grounded(sch, FieldKind(p, t))
  {
    match Deref(t)
    case GSlice(e) =>
      if !IsByte(e) { ElemGrounded(sch, e); }
    case GMap(k, v) =>
      KeyGrounded(sch, k);
      ElemGrounded(sch, v);
    case _ =>
  }

  function Kinds(p: Program, ts: seq<GoType>): (ks: seq<Kind>)
    ensures |ks| == |ts| && forall i :: 0 <= i < |ts| ==> ks[i] == FieldKind(p, ts[i])
  {
    if ts == [] then [] else [FieldKind(p, ts[0])] + Kinds(p, ts[1..])
  }

  // The definitions that Parse leaves behind.
  ghost function SchemaOf(p: Program, m: map<nat, nat>): Schema
    requires Complete(p, m)
  {
    map n | n in m :: Registered(p, m, n)
  }

  ghost function Registered(p: Program, m: map<nat, nat>, n: nat): Def
    requires Complete(p, m) && n in m
  {
    assert Done(p, m, n);
    Def(m[n], Kinds(p, p.structs[n]), p.structs[n] == [] || n !in p.hidden)
  }

  // No two requests have the same id, as they are the entries of a map.
  ghost predicate Apart(defs: seq<Request>) {
    forall i, j :: 0 <= i < j < |defs| ==> defs[i].id != defs[j].id
  }

  // The request is the last for its struct.
  ghost predicate AskedLast(defs: seq<Request>, i: nat)
    requires i < |defs|
  {
    IsLast(defs, defs[i].name, i)
  }

  lemma IdTells(defs: seq<Request>, i: nat, id: nat)
    requires i < |defs| && Apart(defs) && HasId(defs, defs[i].name, id)
    ensures id == defs[i].id <==> AskedLast(defs, i)
  {
    var last :| IsLast(defs, defs[i].name, last) && defs[last].id == id;
  }

  lemma NumbersAre(defs: seq<Request>, ids: map<nat, nat>)
    requires Numbered(defs, ids) && Apart(defs)
    ensures forall i :: 0 <= i < |defs| && defs[i].id > 0 ==> ids[defs[i].id] == defs[i].name
  {
    forall i | 0 <= i < |defs| && defs[i].id > 0
      ensures ids[defs[i].id] == defs[i].name
    {
      var k :| 0 <= k < |defs| && defs[k] == Request(ids[defs[i].id], defs[i].id);
    }
  }

  lemma NumbersFitExactly(p: Program, defs: seq<Request>, m: map<nat, nat>, ids: map<nat, nat>)
    requires Requested(p, defs, m) && Numbered(defs, ids) && Apart(defs)
    ensures (forall id :: id in ids ==> ids[id] in m)
    ensures (forall id :: id in ids ==> m[ids[id]] == id) <==> forall i :: 0 <= i < |defs| && defs[i].id > 0 ==>
            AskedLast(defs, i)
  {
    NumbersAre(defs, ids);
    forall i | 0 <= i < |defs|
      ensures m[defs[i].name] == defs[i].id <==> AskedLast(defs, i)
    {
      IdTells(defs, i, m[defs[i].name]);
    }
    forall id | id in ids
      ensures exists i :: 0 <= i < |defs| && defs[i].name == ids[id] && defs[i].id == id > 0
    {
      var i :| 0 <= i < |defs| && defs[i] == Request(ids[id], id);
    }
  }

  lemma SchemaIds(p: Program, m: map<nat, nat>)
    requires Complete(p, m)
    ensures SchemaOf(p, m).Keys == m.Keys && forall n :: n in m ==> SchemaOf(p, m)[n].id == m[n]
  {
  }

  lemma ValidIs(sch: Schema, m: map<nat, nat>, ids: map<nat, nat>)
    requires sch.Keys == m.Keys && forall n :: n in m ==> sch[n].id == m[n]
    requires forall id :: id in ids ==> id > 0 && ids[id] in m
    ensures PbMessages.ValidCoder(PbMessages.Coder(sch, ids)) <==> forall id :: id in ids ==> m[ids[id]] == id
  {
    assert forall id :: id in ids ==> ids[id] in sch.Keys;
  }

  // What Parse leaves behind is a coder in which every id stands for a struct that has this id,
  // if and only if every request with an id is the last for its struct.
  lemma ParsedIsValidExactly(p: Program, defs: seq<Request>, m: map<nat, nat>, ids: map<nat, nat>)
    requires Parsed(p, defs, m, ids) && Apart(defs)
    ensures PbMessages.ValidCoder(PbMessages.Coder(SchemaOf(p, m), ids)) <==>
            forall i :: 0 <= i < |defs| && defs[i].id > 0 ==> AskedLast(defs, i)
    ensures forall i :: 0 <= i < |defs| && defs[i].id > 0 ==> defs[i].id in ids && ids[defs[i].id] == defs[i].name
  {
    NumbersAre(defs, ids);
    NumbersFitExactly(p, defs, m, ids);
    SchemaIds(p, m);
    ValidIs(SchemaOf(p, m), m, ids);
  }

  lemma ParsedIsWellFounded(p: Program, m: map<nat, nat>)
    requires Complete(p, m)
    ensures WellFounded(SchemaOf(p, m))
  {
    var sch := SchemaOf(p, m);
    forall n, f | n in sch && f in sch[n].fields
      ensures Grounded(sch, f)
    {
      assert Done(p, m, n);
      var i :| 0 <= i < |sch[n].fields| && sch[n].fields[i] == f;
      var t := p.structs[n][i];
      forall b | b in FieldRefs(p, t)
        ensures b in sch
      {
        assert Mentions(p, n, b);
      }
      FieldGrounded(p, sch, t);
    }
  }

  // After Parse, encoding a value of some registered struct can panic if and only if a field
  // of one is not codable: Parse lets pass elements of types that the coder has no functions
  // for, and pointers and maps as values of maps.
  lemma ParsedFailsExactly(p: Program, m: map<nat, nat>)
    requires Complete(p, m)
    ensures NeverPanics(SchemaOf(p, m)) <==> forall n, t :: n in m && t in p.structs[n] ==>
            Codable(FieldKind(p, t), false)
  {
    var sch := SchemaOf(p, m);
    ParsedIsWellFounded(p, m);
    EncodeFailsExactly(sch);
    forall n, t | n in m && t in p.structs[n]
      ensures FieldKind(p, t) in sch[n].fields
    {
      var i :| 0 <= i < |p.structs[n]| && p.structs[n][i] == t;
      assert sch[n].fields[i] == FieldKind(p, t);
    }
    forall n, f | n in sch && f in sch[n].fields
      ensures exists t :: t in p.structs[n] && f == FieldKind(p, t)
    {
      var i :| 0 <= i < |sch[n].fields| && sch[n].fields[i] == f;
      assert p.structs[n][i] in p.structs[n];
    }
  }

  // After Parse, some value of some registered struct can be lost in decoding if and only if
  // one of them has a field that is not exported, or one that is not storable.
  lemma ParsedLostExactly(p: Program, m: map<nat, nat>)
    requires Complete(p, m)
    ensures NothingLost(SchemaOf(p, m)) <==>
            forall n :: n in m ==>
              && (p.structs[n] == [] || n !in p.hidden)
              && forall t :: t in p.structs[n] ==> Storable(Field, FieldKind(p, t))
  {
    var sch := SchemaOf(p, m);
    ParsedIsWellFounded(p, m);
    LostExactly(sch);
    forall n | n in m
      ensures sch[n].open <==> p.structs[n] == [] || n !in p.hidden
      ensures (forall f :: f in sch[n].fields ==> Storable(Field, f)) <==>
              forall t :: t in p.structs[n] ==> Storable(Field, FieldKind(p, t))
    {
      assert Done(p, m, n);
      StorableKinds(p, p.structs[n]);
    }
  }

  lemma StorableKinds(p: Program, ts: seq<GoType>)
    ensures (forall f :: f in Kinds(p, ts) ==> Storable(Field, f)) <==> forall t :: t in ts ==>
            Storable(Field, FieldKind(p, t))
  {
    forall t | t in ts
      ensures FieldKind(p, t) in Kinds(p, ts)
    {
      var i :| 0 <= i < |ts| && ts[i] == t;
      assert Kinds(p, ts)[i] == FieldKind(p, t);
    }
    forall f | f in Kinds(p, ts)
      ensures exists t :: t in ts && f == FieldKind(p, t)
    {
      var i :| 0 <= i < |ts| && Kinds(p, ts)[i] == f;
      assert ts[i] in ts;
    }
  }

  // After Parse with codable fields, every value of a field whose prefixes fit is encoded, and
  // decoding gives back what Seen says.
  lemma ParsedRoundTrip(p: Program, m: map<nat, nat>, n: nat, f: Kind, v: Value, buf: seq<byte>, index: nat)
    requires Complete(p, m) && NeverPanics(SchemaOf(p, m)) && n in m
    requires var sch := SchemaOf(p, m);
             f in sch[n].fields && Typed(sch, f, v) && Fits(sch, f, v) && Has(buf, index, Enc(sch, Field, f, v))
    ensures var sch := SchemaOf(p, m); Encodes(sch, false, f, v) && Back(sch, Field, f, v, buf, index)
  {
    var sch := SchemaOf(p, m);
    ParsedIsWellFounded(p, m);
    EncodeFailsExactly(sch);
    TypedConforms(sch, Field, f, v);
    DecodeOfEncode(sch, Field, f, v, buf, index);
  }

  // Such a struct: one field, a slice of a type that the coder has no functions for.
  lemma StrayElement(pid: nat, id: nat)
    requires pid != 1
    ensures var p := Program(map[1 := [GSlice(GOther)]], pid, {});
            Allowed(p, [Request(1, id)]) && !Codable(FieldKind(p, GSlice(GOther)), false)
    ensures forall sch :: !Encodes(sch, false, KSlice(KOther), VSlice([VOther]))
  {
    var p := Program(map[1 := [GSlice(GOther)]], pid, {});
    var m := map[1 := id];
    assert FieldRefs(p, GSlice(GOther)) == [];
    assert Done(p, m, 1);
    CompleteIsAllowed(p, [Request(1, id)], m);
  }

  // And structs that Parse accepts whose every value is encoded and panics when it is decoded:
  // one field, of a named int32, or one that is not exported.
  lemma NamedOrHidden(pid: nat, id: nat, named: bool, n: int, buf: seq<byte>, index: nat)
    requires pid != 1 && InWidth(4, n)
    ensures var t := GScalar(SInt(4), named);
            var p := Program(map[1 := [t]], pid, if named then {} else {1});
            var m := map[1 := id];
            && Allowed(p, [Request(1, id)]) && Complete(p, m)
            && var def := SchemaOf(p, m)[1];
               && FieldsTyped(SchemaOf(p, m), def.fields, [VInt(n)])
               && FieldsEncode(SchemaOf(p, m), def.fields, [VInt(n)])
               && DecStruct(SchemaOf(p, m), def, buf, index).None?
  {
    var t := GScalar(SInt(4), named);
    var p := Program(map[1 := [t]], pid, if named then {} else {1});
    var m := map[1 := id];
    assert FieldRefs(p, t) == [] && p.structs[1][..] == [t];
    assert Done(p, m, 1);
    CompleteIsAllowed(p, [Request(1, id)], m);
    var def := SchemaOf(p, m)[1];
    assert def == Def(id, [Naming(named, KSigned(4))], named);
    assert def.fields[1..] == [] && [VInt(n)][1..] == [];
    if named { assert Dec(SchemaOf(p, m), Field, KNamed(KSigned(4)), buf, index).None?; }
  }
}
