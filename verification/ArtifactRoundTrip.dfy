/** Reading a written type returns its normal form and exactly what followed it. */
module ArtifactRoundTrip {
  import opened Options
  import opened Bytes
  import opened Wire
  import opened ArtifactTypes

  lemma Cat3(a: Data, b: Data, c: Data)
    ensures a + b + c == a + (b + c)
  {
  }

  lemma Cat4(a: Data, b: Data, c: Data, d: Data)
    ensures a + b + c + d == a + (b + (c + d))
  {
  }

  lemma Cat5(a: Data, b: Data, c: Data, d: Data, e: Data)
    ensures a + b + c + d + e == a + (b + (c + (d + e)))
  {
  }

  lemma Cat6(a: Data, b: Data, c: Data, d: Data, e: Data, f: Data)
    ensures a + b + c + d + e + f == a + (b + (c + (d + (e + f))))
  {
  }

  lemma Cat8(a: Data, b: Data, c: Data, d: Data, e: Data, f: Data, g: Data, h: Data)
    ensures a + b + c + d + e + f + g + h == a + (b + (c + (d + (e + (f + (g + h))))))
  {
  }

  lemma CountBack(n: nat, rest: Data)
    requires n < TWO32
    ensures ReadU(4, BE(n, 4) + rest) == Some((n, rest))
  {
    Powers();
    ReadUWrite(4, n, rest);
  }

  lemma TagHead(tag: byte, rest: Data)
    ensures ([tag] + rest)[0] == tag && ([tag] + rest)[1..] == rest && [tag] + rest != []
  {
  }

  // ---------- one step of the reader, by tag ----------

  lemma Tags()
    ensures forall p :: PrimOf(PrimTag(p)) == Some(p)
    ensures forall o :: PrimOf(OneTag(o)).None? && OneOf(OneTag(o)) == Some(o)
    ensures forall t :: PrimOf(TwoTag(t)).None? && OneOf(TwoTag(t)).None? && TwoOf(TwoTag(t)) == Some(t)
  {
    hide *;
    forall p ensures PrimOf(PrimTag(p)) == Some(p) {
      PrimTags(p);
    }
    forall o ensures PrimOf(OneTag(o)).None? && OneOf(OneTag(o)) == Some(o) {
      OneTags(o);
    }
    forall t ensures PrimOf(TwoTag(t)).None? && OneOf(TwoTag(t)).None? && TwoOf(TwoTag(t)) == Some(t) {
      TwoTags(t);
    }
  }

  lemma PrimTags(p: Prim)
    ensures PrimOf(PrimTag(p)) == Some(p)
  {
  }

  lemma OneTags(o: One)
    ensures PrimOf(OneTag(o)).None? && OneOf(OneTag(o)) == Some(o)
  {
  }

  lemma TwoTags(t: Two)
    ensures PrimOf(TwoTag(t)).None? && OneOf(TwoTag(t)).None? && TwoOf(TwoTag(t)) == Some(t)
  {
  }

  lemma StepBasic(p: Prim, rest: Data)
    ensures ReadType([PrimTag(p)] + rest) == Some((Basic(p), rest))
  {
    Tags();
    hide PrimOf, OneOf, TwoOf, PrimTag, OneTag, TwoTag, ReadTypes, ReadNamed, ReadStr, ReadU;
    TagHead(PrimTag(p), rest);
  }

  lemma StepOf(o: One, e: Type, body: Data, rest: Data)
    requires ReadType(body) == Some((e, rest))
    ensures ReadType([OneTag(o)] + body) == Some((Of(o, e), rest))
  {
    Tags();
    hide PrimOf, OneOf, TwoOf, PrimTag, OneTag, TwoTag, ReadTypes, ReadNamed, ReadStr, ReadU;
    TagHead(OneTag(o), body);
  }

  lemma StepPair(p: Two, k: Type, v: Type, body: Data, mid: Data, rest: Data)
    requires ReadType(body) == Some((k, mid)) && ReadType(mid) == Some((v, rest))
    ensures ReadType([TwoTag(p)] + body) == Some((Pair(p, k, v), rest))
  {
    Tags();
    hide PrimOf, OneOf, TwoOf, PrimTag, OneTag, TwoTag, ReadTypes, ReadNamed, ReadStr, ReadU;
    TagHead(TwoTag(p), body);
  }

  lemma StepTuple(n: nat, es: seq<Type>, body: Data, rest: Data)
    requires n < TWO32 && ReadTypes(n, body) == Some((es, rest))
    ensures ReadType([0x15] + (BE(n, 4) + body)) == Some((Tuple(es), rest))
  {
    hide ReadTypes, BE, ReadU, ReadNamed, ReadStr;
    TagHead(0x15, BE(n, 4) + body);
    CountBack(n, body);
  }

  lemma StepNamed(tag: byte, name: Str, body: Data)
    requires tag in {0x14, 0x16, 0x19, 0x1a} && SmallStr(name)
    ensures ReadType([tag] + (WriteStr(name) + body)) == ReadNamed(tag, name, body)
  {
    hide ReadNamed, ReadStr, WriteStr, ReadTypes, ReadU;
    TagHead(tag, WriteStr(name) + body);
    ReadStrWrite(name, body);
  }

  // ---------- the round trip ----------

  lemma {:induction false} TypeRoundTrip(t: Type, rest: Data)
    requires Small(t)
    ensures ReadType(WriteType(t) + rest) == Some((Normal(t), rest))
    decreases t, 1
  {
    hide ReadType, Squash, Aligned;
    match t
    case Basic(p) => StepBasic(p, rest);
    case Of(o, e) =>
      Cat3([OneTag(o)], WriteType(e), rest);
      TypeRoundTrip(e, rest);
      StepOf(o, Normal(e), WriteType(e) + rest, rest);
    case Pair(p, k, v) =>
      Cat4([TwoTag(p)], WriteType(k), WriteType(v), rest);
      TypeRoundTrip(k, WriteType(v) + rest);
      TypeRoundTrip(v, rest);
      StepPair(p, Normal(k), Normal(v), WriteType(k) + (WriteType(v) + rest), WriteType(v) + rest, rest);
    case Explicit(inner) => TypeRoundTrip(inner, rest);
    case Struct(name, fields, groups) => StructRoundTrip(name, fields, groups, rest);
    case Tuple(es) =>
      Cat4([0x15], BE(|es|, 4), WriteTypes(es), rest);
      TypesRoundTrip(es, rest);
      StepTuple(|es|, NormalTypes(es), WriteTypes(es) + rest, rest);
    case Enum(name, vs) => EnumRoundTrip(name, vs, rest);
    case Cap(name, fields, owner) => CapRoundTrip(name, fields, owner, rest);
    case Interface(name, ms) => InterfaceRoundTrip(name, ms, rest);
  }

  lemma {:induction false} StructRoundTrip(name: Str, fields: seq<Field>, groups: seq<Option<Str>>, rest: Data)
    requires Small(Struct(name, fields, groups))
    ensures ReadType(WriteType(Struct(name, fields, groups)) + rest) == Some((Normal(Struct(name, fields, groups)), rest))
    decreases Struct(name, fields, groups), 0
  {
    hide ReadType, WriteStr, WriteMembers, ReadMembers, NormalFields, Squash, Aligned, BE, ReadU;
    var body := WriteMembers(fields, groups) + rest;
    Cat5([0x14], WriteStr(name), BE(|fields|, 4), WriteMembers(fields, groups), rest);
    StepNamed(0x14, name, BE(|fields|, 4) + body);
    CountBack(|fields|, body);
    MembersRoundTrip(fields, groups, rest);
  }

  lemma {:induction false} EnumRoundTrip(name: Str, vs: seq<Variant>, rest: Data)
    requires Small(Enum(name, vs))
    ensures ReadType(WriteType(Enum(name, vs)) + rest) == Some((Normal(Enum(name, vs)), rest))
    decreases Enum(name, vs), 0
  {
    hide ReadType, WriteStr, WriteVariants, ReadVariants, NormalVariants, BE, ReadU;
    var body := WriteVariants(vs) + rest;
    Cat5([0x16], WriteStr(name), BE(|vs|, 4), WriteVariants(vs), rest);
    StepNamed(0x16, name, BE(|vs|, 4) + body);
    CountBack(|vs|, body);
    VariantsRoundTrip(vs, rest);
  }

  lemma {:induction false} CapRoundTrip(name: Str, fields: seq<Field>, owner: Str, rest: Data)
    requires Small(Cap(name, fields, owner))
    ensures ReadType(WriteType(Cap(name, fields, owner)) + rest) == Some((Normal(Cap(name, fields, owner)), rest))
    decreases Cap(name, fields, owner), 0
  {
    hide ReadType, WriteStr, ReadStr, WriteFields, ReadFields, NormalFields, BE, ReadU;
    var body := WriteFields(fields) + rest;
    Cat6([0x19], WriteStr(name), WriteStr(owner), BE(|fields|, 4), WriteFields(fields), rest);
    StepNamed(0x19, name, WriteStr(owner) + (BE(|fields|, 4) + body));
    ReadStrWrite(owner, BE(|fields|, 4) + body);
    CountBack(|fields|, body);
    FieldsRoundTrip(fields, rest);
  }

  lemma {:induction false} InterfaceRoundTrip(name: Str, ms: seq<Sig>, rest: Data)
    requires Small(Interface(name, ms))
    ensures ReadType(WriteType(Interface(name, ms)) + rest) == Some((Normal(Interface(name, ms)), rest))
    decreases Interface(name, ms), 0
  {
    hide ReadType, WriteStr, WriteSigs, ReadSigs, NormalSigs, BE, ReadU;
    var body := WriteSigs(ms) + rest;
    Cat5([0x1a], WriteStr(name), BE(|ms|, 4), WriteSigs(ms), rest);
    StepNamed(0x1a, name, BE(|ms|, 4) + body);
    CountBack(|ms|, body);
    SigsRoundTrip(ms, rest);
  }

  lemma {:induction false} TypesRoundTrip(ts: seq<Type>, rest: Data)
    requires SmallTypes(ts)
    ensures ReadTypes(|ts|, WriteTypes(ts) + rest) == Some((NormalTypes(ts), rest))
    decreases ts, 0
  {
    hide ReadType, WriteType, Normal, Small;
    if ts == [] {
      assert WriteTypes(ts) + rest == rest;
    } else {
      Cat3(WriteType(ts[0]), WriteTypes(ts[1..]), rest);
      TypeRoundTrip(ts[0], WriteTypes(ts[1..]) + rest);
      TypesRoundTrip(ts[1..], rest);
    }
  }

  lemma GroupBack(g: Option<Str>, rest: Data)
    requires SmallGroup(g)
    ensures ReadGroup(WriteGroup(g) + rest) == Some((g, rest))
  {
    hide ReadStr, WriteStr;
    if g.Some? {
      Cat3([1], WriteStr(g.value), rest);
      TagHead(1, WriteStr(g.value) + rest);
      ReadStrWrite(g.value, rest);
    } else {
      TagHead(0, rest);
    }
  }

  lemma {:induction false} FieldBack(f: Field, rest: Data)
    requires SmallStr(f.name) && Small(f.ty)
    ensures ReadField(WriteStr(f.name) + (WriteType(f.ty) + rest)) == Some((Field(f.name, Normal(f.ty)), rest))
    decreases f, 2
  {
    hide ReadStr, WriteStr, ReadType, WriteType, Normal, Small;
    ReadStrWrite(f.name, WriteType(f.ty) + rest);
    TypeRoundTrip(f.ty, rest);
  }

  lemma {:induction false} MembersRoundTrip(fields: seq<Field>, groups: seq<Option<Str>>, rest: Data)
    requires SmallFields(fields) && forall i :: 0 <= i < |groups| ==> SmallGroup(groups[i])
    ensures ReadMembers(|fields|, WriteMembers(fields, groups) + rest)
         == Some((NormalFields(fields), Aligned(groups, |fields|), rest))
    decreases fields, 0
  {
    hide ReadField, WriteType, Normal, Small, ReadGroup, WriteGroup, WriteStr;
    if fields == [] {
      assert WriteMembers(fields, groups) + rest == rest;
    } else {
      var f, g := fields[0], Head(groups);
      var more := WriteMembers(fields[1..], Tail(groups)) + rest;
      Cat5(WriteStr(f.name), WriteType(f.ty), WriteGroup(g), WriteMembers(fields[1..], Tail(groups)), rest);
      FieldBack(f, WriteGroup(g) + more);
      GroupBack(g, more);
      MembersRoundTrip(fields[1..], Tail(groups), rest);
    }
  }

  lemma {:induction false} FieldsRoundTrip(fields: seq<Field>, rest: Data)
    requires SmallFields(fields)
    ensures ReadFields(|fields|, WriteFields(fields) + rest) == Some((NormalFields(fields), rest))
    decreases fields, 0
  {
    hide ReadField, WriteType, Normal, Small, WriteStr;
    if fields == [] {
      assert WriteFields(fields) + rest == rest;
    } else {
      var f := fields[0];
      var more := WriteFields(fields[1..]) + rest;
      Cat4(WriteStr(f.name), WriteType(f.ty), WriteFields(fields[1..]), rest);
      FieldBack(f, more);
      FieldsRoundTrip(fields[1..], rest);
    }
  }

  lemma {:induction false} VariantBack(v: Variant, rest: Data)
    requires SmallStr(v.name) && |v.payload| < TWO32 && SmallTypes(v.payload)
    ensures ReadVariant(WriteStr(v.name) + (BE(|v.payload|, 4) + (WriteTypes(v.payload) + rest)))
         == Some((Variant(v.name, NormalTypes(v.payload)), rest))
    decreases v, 2
  {
    hide ReadStr, WriteStr, ReadTypes, WriteTypes, NormalTypes, SmallTypes, BE, ReadU;
    var body := WriteTypes(v.payload) + rest;
    ReadStrWrite(v.name, BE(|v.payload|, 4) + body);
    CountBack(|v.payload|, body);
    TypesRoundTrip(v.payload, rest);
  }

  lemma {:induction false} VariantsRoundTrip(vs: seq<Variant>, rest: Data)
    requires SmallVariants(vs)
    ensures ReadVariants(|vs|, WriteVariants(vs) + rest) == Some((NormalVariants(vs), rest))
    decreases vs, 0
  {
    hide ReadVariant, WriteTypes, NormalTypes, SmallTypes, WriteStr, BE;
    if vs == [] {
      assert WriteVariants(vs) + rest == rest;
    } else {
      var v := vs[0];
      var more := WriteVariants(vs[1..]) + rest;
      Cat5(WriteStr(v.name), BE(|v.payload|, 4), WriteTypes(v.payload), WriteVariants(vs[1..]), rest);
      VariantBack(v, more);
      VariantsRoundTrip(vs[1..], rest);
    }
  }

  lemma {:induction false} SigBack(m: Sig, rest: Data)
    requires SmallStr(m.name) && |m.params| < TWO32 && SmallTypes(m.params) && Small(m.ret)
    ensures ReadSig(WriteStr(m.name) + (Flag(m.isView) + (Flag(m.isPure) + (BE(|m.params|, 4) + (WriteTypes(m.params) + (WriteType(m.ret) + rest))))))
         == Some((Sig(m.name, NormalTypes(m.params), Normal(m.ret), m.isView, m.isPure), rest))
    decreases m, 2
  {
    hide ReadStr, WriteStr, ReadTypes, WriteTypes, NormalTypes, SmallTypes, Small, BE, ReadU, ReadType, WriteType, Normal, Flag, ReadFlag;
    var s5 := WriteType(m.ret) + rest;
    var s4 := WriteTypes(m.params) + s5;
    var s3 := BE(|m.params|, 4) + s4;
    var s2 := Flag(m.isPure) + s3;
    ReadStrWrite(m.name, Flag(m.isView) + s2);
    ReadFlagWrite(m.isView, s2);
    ReadFlagWrite(m.isPure, s3);
    CountBack(|m.params|, s4);
    TypesRoundTrip(m.params, s5);
    TypeRoundTrip(m.ret, rest);
  }

  lemma {:induction false} SigsRoundTrip(ms: seq<Sig>, rest: Data)
    requires SmallSigs(ms)
    ensures ReadSigs(|ms|, WriteSigs(ms) + rest) == Some((NormalSigs(ms), rest))
    decreases ms, 0
  {
    hide ReadSig, WriteTypes, NormalTypes, SmallTypes, WriteStr, BE, WriteType, Normal, Small, Flag;
    if ms == [] {
      assert WriteSigs(ms) + rest == rest;
    } else {
      var m := ms[0];
      var more := WriteSigs(ms[1..]) + rest;
      Cat8(WriteStr(m.name), Flag(m.isView), Flag(m.isPure), BE(|m.params|, 4), WriteTypes(m.params), WriteType(m.ret),
           WriteSigs(ms[1..]), rest);
      SigBack(m, more);
      SigsRoundTrip(ms[1..], rest);
    }
  }

  /** No written type is a proper prefix of another, and equal bytes mean equal normal forms. */
  lemma PrefixFree(t: Type, u: Type, rest: Data)
    requires Small(t) && Small(u) && WriteType(t) + rest == WriteType(u)
    ensures rest == [] && Normal(t) == Normal(u)
  {
    hide ReadType, WriteType, Normal, Small;
    TypeRoundTrip(t, rest);
    TypeRoundTrip(u, []);
    assert WriteType(u) + [] == WriteType(u);
  }

  // ---------- normalization is idempotent ----------

  lemma {:induction false} AlignedSame(groups: seq<Option<Str>>)
    ensures Aligned(groups, |groups|) == groups
  {
    if groups != [] {
      AlignedSame(groups[1..]);
    }
  }

  lemma {:induction false} AlignedNone(n: nat)
    ensures forall i :: 0 <= i < n ==> Aligned([], n)[i] == None
  {
    if n > 0 {
      AlignedNone(n - 1);
    }
  }

  lemma SquashAligned(groups: seq<Option<Str>>, n: nat)
    requires |groups| == n
    ensures Squash(Aligned(Squash(groups), n)) == Squash(groups)
  {
    hide Aligned;
    AlignedSame(groups);
    AlignedNone(n);
  }

  lemma {:induction false} NormalTwice(t: Type)
    ensures Normal(Normal(t)) == Normal(t)
    decreases t, 1
  {
    hide Squash, Aligned;
    match t
    case Basic(_) =>
    case Of(_, e) => NormalTwice(e);
    case Pair(_, k, v) =>
      NormalTwice(k);
      NormalTwice(v);
    case Explicit(inner) => NormalTwice(inner);
    case Struct(name, fields, groups) =>
      FieldsTwice(fields);
      SquashAligned(Aligned(groups, |fields|), |fields|);
    case Tuple(es) => TypesTwice(es);
    case Enum(_, vs) => VariantsTwice(vs);
    case Cap(_, fields, _) => FieldsTwice(fields);
    case Interface(_, ms) => SigsTwice(ms);
  }

  lemma {:induction false} TypesTwice(ts: seq<Type>)
    ensures NormalTypes(NormalTypes(ts)) == NormalTypes(ts)
    decreases ts, 0
  {
    hide Normal;
    if ts != [] {
      NormalTwice(ts[0]);
      TypesTwice(ts[1..]);
      assert NormalTypes(ts)[1..] == NormalTypes(ts[1..]);
    }
  }

  lemma {:induction false} FieldsTwice(fs: seq<Field>)
    ensures NormalFields(NormalFields(fs)) == NormalFields(fs) && |NormalFields(fs)| == |fs|
    decreases fs, 0
  {
    hide Normal;
    if fs != [] {
      NormalTwice(fs[0].ty);
      FieldsTwice(fs[1..]);
      assert NormalFields(fs)[1..] == NormalFields(fs[1..]);
    }
  }

  lemma {:induction false} VariantsTwice(vs: seq<Variant>)
    ensures NormalVariants(NormalVariants(vs)) == NormalVariants(vs)
    decreases vs, 0
  {
    hide NormalTypes;
    if vs != [] {
      TypesTwice(vs[0].payload);
      VariantsTwice(vs[1..]);
      assert NormalVariants(vs)[1..] == NormalVariants(vs[1..]);
    }
  }

  lemma {:induction false} SigsTwice(ms: seq<Sig>)
    ensures NormalSigs(NormalSigs(ms)) == NormalSigs(ms)
    decreases ms, 0
  {
    hide NormalTypes, Normal;
    if ms != [] {
      TypesTwice(ms[0].params);
      NormalTwice(ms[0].ret);
      SigsTwice(ms[1..]);
      assert NormalSigs(ms)[1..] == NormalSigs(ms[1..]);
    }
  }
}
