// Whole protos: an id and a struct behind a length head, and protos sent over a gate connection.

module PbMessages {
  import opened Basics
  import opened Bytes
  import opened Framing
  import opened PbModel
  import opened PbProofs
  import opened PbCodec

  // A coder: the struct definitions, and which of them an id stands for.
  datatype Coder = Coder(sch: Schema, ids: map<nat, nat>)

  ghost predicate ValidCoder(c: Coder) {
    && (forall id :: id in c.ids ==> id > 0 && c.ids[id] in c.sch && c.sch[c.ids[id]].id == id)
  }

  // A proto that was registered under its id, with fields that fit.
  datatype Proto = Proto(name: nat, fields: seq<Value>)

  predicate Registered(c: Coder, p: Proto) {
    && p.name in c.sch && c.sch[p.name].id < 65536
    && c.sch[p.name].id in c.ids && c.ids[c.sch[p.name].id] == p.name
    && FieldsConform(c.sch, c.sch[p.name].fields, p.fields)
  }

  function Body(c: Coder, p: Proto): seq<byte>
    requires p.name in c.sch
  {
    ToBE(2, c.sch[p.name].id) + EncFields(c.sch, c.sch[p.name].fields, p.fields)
  }

  // writeSizeHead, into the front of the buffer
  method WriteSizeHead(buf: seq<byte>, head: nat, size: nat) returns (r: seq<byte>)
    requires ValidHead(head) && |buf| >= head
    ensures r == ToBE(head, size) + buf[head..]
  {
    TwoBytes(size);
    FourBytes(size);
    if head == 2 {
      return buf[0 := size / 256 % 256][1 := size % 256];
    }
    r := buf[0 := size / 16777216 % 256][1 := size / 65536 % 256];
    r := r[2 := size / 256 % 256][3 := size % 256];
  }

  // Encode: room for the head and the id, the fields, and then the head; None stands for a panic
  method Encode(c: Coder, p: Proto, head: nat) returns (r: Option<seq<byte>>)
    requires p.name in c.sch && (head == 0 || ValidHead(head))
    ensures r == None <==> !FieldsEncode(c.sch, c.sch[p.name].fields, p.fields)
    ensures r.Some? ==> r.value == if head == 0 then Body(c, p) else Packet(head, Body(c, p))
  {
    var def := c.sch[p.name];
    var buf := seq(2 + head, _ => 0);
    buf := WriteSize(buf, head, def.id);
    ghost var kept := buf[..head];
    r := EncodeDef(c.sch, def.fields, p.fields, buf);
    if r == None {
      return;
    }
    assert r.value == kept + Body(c, p);
    if head > 0 {
      buf := WriteSizeHead(r.value, head, |r.value| - head);
      r := Some(buf);
    }
  }

  // Decode: what a registered proto was seen as; an id that nobody has is a panic, which None
  // stands for.
  method Decode(c: Coder, buf: seq<byte>) returns (r: Option<(nat, Value)>)
    requires ValidCoder(c)
    ensures forall p :: Registered(c, p) && buf == Body(c, p) ==> r == SeenProto(c, p)
    ensures |buf| < 2 || FromBE(buf[..2]) !in c.ids ==> r == None
    ensures r == Decoded(c, buf)
  {
    forall p | Registered(c, p) && buf == Body(c, p)
      ensures Decoded(c, buf) == SeenProto(c, p)
    {
      BodyBack(c, p);
    }
    if |buf| < 2 {
      return None;
    }
    ReadTwo(buf[..2]);
    var id := (buf[0] as int) * 256 + buf[1];
    if id !in c.ids {
      return None;
    }
    var v := DecodeStructDef(c.sch, c.sch[c.ids[id]], buf, 2);
    if v == None {
      return None;
    }
    return Some((id, v.value.v));
  }

  ghost function Decoded(c: Coder, buf: seq<byte>): Option<(nat, Value)>
    requires ValidCoder(c)
  {
    if |buf| < 2 then None
    else
      var id := (buf[0] as int) * 256 + buf[1];
      if id !in c.ids then None
      else
        var v := DecStruct(c.sch, c.sch[c.ids[id]], buf, 2);
        if v == None then None else Some((id, v.value.v))
  }

  // What the receiver of a proto sees: its id, and its fields as decoding yields them.
  ghost function SeenProto(c: Coder, p: Proto): Option<(nat, Value)>
    requires p.name in c.sch
  {
    var fields := SeenFields(c.sch, c.sch[p.name].fields, p.fields);
    if !c.sch[p.name].open || fields == None then None else Some((c.sch[p.name].id, VStruct(fields.value)))
  }

  lemma BodyBack(c: Coder, p: Proto)
    requires ValidCoder(c) && Registered(c, p)
    ensures Decoded(c, Body(c, p)) == SeenProto(c, p)
  {
    var def := c.sch[p.name];
    var buf := Body(c, p);
    assert Has(buf, 0, ToBE(2, def.id) + EncFields(c.sch, def.fields, p.fields));
    HasBoth(buf, 0, ToBE(2, def.id), EncFields(c.sch, def.fields, p.fields));
    HasAt(buf, 0, ToBE(2, def.id), 0);
    HasAt(buf, 0, ToBE(2, def.id), 1);
    TwoBytes(def.id);
    DecStructBack(c.sch, def, p.fields, buf, 2);
  }

  // A proto comes back unchanged if and only if all its fields are exported and intact.
  lemma ProtoRoundTrip(c: Coder, p: Proto)
    requires ValidCoder(c) && Registered(c, p)
    ensures Decoded(c, Body(c, p)) == Some((c.sch[p.name].id, VStruct(p.fields)))
            <==> c.sch[p.name].open && FieldsIntact(c.sch, c.sch[p.name].fields, p.fields)
  {
    BodyBack(c, p);
    FieldsExactly(c.sch, c.sch[p.name].fields, p.fields);
  }

  // ------------------------------------------------------------ end to end

  predicate Sendable(c: Coder, p: Proto) {
    Registered(c, p) && |Body(c, p)| < Pow256(4)
  }

  function Bodies(c: Coder, ps: seq<Proto>): seq<seq<byte>>
    requires forall p :: p in ps ==> Sendable(c, p)
  {
    if ps == [] then [] else assert Sendable(c, ps[0]); [Body(c, ps[0])] + Bodies(c, ps[1..])
  }

  // Protos encoded with a four-byte head, sent one after another and delivered in any
  // chunks, arrive as one frame each, in order; and every frame, without its head, decodes
  // to what its proto is seen as.
  lemma ProtosArrive(c: Coder, ps: seq<Proto>, chunks: seq<seq<byte>>)
    requires ValidCoder(c) && forall p :: p in ps ==> Sendable(c, p)
    requires Concat(chunks) == Concat(Packets(4, Bodies(c, ps)))
    ensures var r := FramesOfChunks(4, [], chunks);
            && r.rest == [] && |r.frames| == |ps|
            && forall i :: 0 <= i < |ps| ==> Arrives(c, ps[i], r.frames[i])
  {
    var bodies := Bodies(c, ps);
    BodiesFit(c, ps);
    SentInChunksIsReceived(4, bodies, chunks);
    forall i | 0 <= i < |ps|
      ensures |Packets(4, bodies)| == |ps| && Arrives(c, ps[i], Packets(4, bodies)[i])
    {
      BodiesAt(c, ps, i);
      PacketsAt(4, bodies, i);
      BodyBack(c, ps[i]);
    }
    if ps == [] { assert bodies == []; }
  }

  lemma {:induction false} BodiesFit(c: Coder, ps: seq<Proto>)
    requires forall p :: p in ps ==> Sendable(c, p)
    ensures forall m :: m in Bodies(c, ps) ==> |m| < Pow256(4)
    decreases |ps|
  {
    if ps != [] {
      assert ps[0] in ps;
      BodiesFit(c, ps[1..]);
    }
  }

  lemma {:induction false} BodiesAt(c: Coder, ps: seq<Proto>, i: nat)
    requires i < |ps| && forall p :: p in ps ==> Sendable(c, p)
    ensures Sendable(c, ps[i]) && |Bodies(c, ps)| == |ps| && Bodies(c, ps)[i] == Body(c, ps[i])
    decreases |ps|
  {
    assert ps[0] in ps;
    if i > 0 {
      BodiesAt(c, ps[1..], i - 1);
    } else if |ps| > 1 {
      BodiesAt(c, ps[1..], 0);
    }
  }

  ghost predicate Arrives(c: Coder, p: Proto, frame: seq<byte>)
    requires ValidCoder(c)
  {
    |frame| >= 4 && p.name in c.sch && Decoded(c, frame[4..]) == SeenProto(c, p)
  }

  lemma {:induction false} PacketsAt(head: nat, msgs: seq<seq<byte>>, i: nat)
    requires ValidHead(head) && i < |msgs|
    ensures |Packets(head, msgs)| == |msgs| && Packets(head, msgs)[i] == Packet(head, msgs[i])
    ensures Packet(head, msgs[i])[head..] == msgs[i]
    decreases |msgs|
  {
    if i > 0 {
      PacketsAt(head, msgs[1..], i - 1);
    } else if |msgs| > 1 {
      PacketsAt(head, msgs[1..], 0);
    }
  }
}
