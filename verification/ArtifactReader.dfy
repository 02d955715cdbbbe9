/** The artifact reader at work: a cursor that advances over the bytes, in loops over counts. */
module ArtifactReader {
  import opened Options
  import opened Bytes
  import opened Wire
  import opened ArtifactTypes

  /** A list being read: `done` is in hand and `spec` says what is still to come. */
  ghost function Resume<T>(done: seq<T>, spec: Option<(seq<T>, Data)>): Option<(seq<T>, Data)> {
    match spec
    case None => None
    case Some((more, after)) => Some((done + more, after))
  }

  lemma ResumeNone<T>(spec: Option<(seq<T>, Data)>)
    ensures Resume([], spec) == spec
  {
    match spec
    case None =>
    case Some((more, after)) => assert [] + more == more;
  }

  lemma ResumeOne<T>(done: seq<T>, x: T, spec: Option<(seq<T>, Data)>)
    ensures Resume(done, Resume([x], spec)) == Resume(done + [x], spec)
  {
    match spec
    case None =>
    case Some((more, after)) => assert done + ([x] + more) == done + [x] + more;
  }

  lemma ResumeEnd<T>(done: seq<T>, rest: Data)
    ensures Resume(done, Some(([], rest))) == Some((done, rest))
  {
    assert done + [] == done;
  }

  class Reader {
    const bytes: Data
    var pos: nat

    ghost predicate Valid()
      reads this
    {
      pos <= |bytes|
    }

    ghost function Rest(): Data
      requires Valid()
      reads this
    {
      bytes[pos..]
    }

    constructor (bytes: Data)
      ensures Valid() && this.bytes == bytes && Rest() == bytes
    {
      this.bytes := bytes;
      pos := 0;
    }

    method TakeBytes(n: nat) returns (r: Option<Data>)
      requires Valid()
      modifies this
      ensures Valid() && pos >= old(pos)
      ensures var s := old(Rest()); if |s| < n then r.None? && pos == old(pos) else r == Some(s[..n]) && Rest() == s[n..]
    {
      if pos + n > |bytes| {
        return None;
      }
      r := Some(bytes[pos..pos + n]);
      assert bytes[pos..pos + n] == Rest()[..n] && Rest()[n..] == bytes[pos + n..];
      pos := pos + n;
    }

    method ReadUInt(w: nat) returns (r: Option<nat>)
      requires Valid()
      modifies this
      ensures Valid() && pos >= old(pos) && Agrees(ReadU(w, old(Rest())), r, Rest())
    {
      var b := TakeBytes(w);
      return if b.None? then None else Some(Num(b.value));
    }

    method ReadBool() returns (r: Option<bool>)
      requires Valid()
      modifies this
      ensures Valid() && pos >= old(pos) && Agrees(ReadFlag(old(Rest())), r, Rest())
    {
      var b := TakeBytes(1);
      return if b.None? then None else Some(b.value[0] != 0);
    }

    method ReadString() returns (r: Option<Str>)
      requires Valid()
      modifies this
      ensures Valid() && pos >= old(pos) && Agrees(ReadStr(old(Rest())), r, Rest())
    {
      hide FromUtf8All;
      var n := ReadUInt(4);
      if n.None? {
        return None;
      }
      var b := TakeBytes(n.value);
      return if b.None? then None else FromUtf8All(b.value);
    }

    method ReadTy() returns (r: Option<Type>)
      requires Valid()
      modifies this
      ensures Valid() && pos >= old(pos) && Agrees(ReadType(old(Rest())), r, Rest())
      decreases |bytes| - pos, 0
    {
      hide PrimOf, OneOf, TwoOf, ReadU, ReadStr, ReadTypes, ReadNamed;
      ghost var s := Rest();
      var b := TakeBytes(1);
      if b.None? {
        return None;
      }
      var tag := b.value[0];
      assert Rest() == s[1..] && tag == s[0];
      if PrimOf(tag).Some? {
        return Some(Basic(PrimOf(tag).value));
      } else if OneOf(tag).Some? {
        var e := ReadTy();
        return if e.None? then None else Some(Of(OneOf(tag).value, e.value));
      } else if TwoOf(tag).Some? {
        var k := ReadTy();
        if k.None? {
          return None;
        }
        var v := ReadTy();
        return if v.None? then None else Some(Pair(TwoOf(tag).value, k.value, v.value));
      } else if tag == 0x15 {
        var n := ReadUInt(4);
        if n.None? {
          return None;
        }
        var es := ReadTys(n.value);
        return if es.None? then None else Some(Tuple(es.value));
      }
      var name := ReadString();
      if name.None? {
        return None;
      }
      r := ReadRest(tag, name.value);
    }

    /** What follows the name of a named type. */
    method ReadRest(tag: byte, name: Str) returns (r: Option<Type>)
      requires Valid()
      modifies this
      ensures Valid() && pos >= old(pos) && Agrees(ReadNamed(tag, name, old(Rest())), r, Rest())
      decreases |bytes| - pos, 3
    {
      hide ReadU, ReadStr, ReadFields, ReadMembers, ReadVariants, ReadSigs, Squash;
      var owner: Str := [];
      if tag == 0x19 {
        var o := ReadString();
        if o.None? {
          return None;
        }
        owner := o.value;
      }
      var n := ReadUInt(4);
      if n.None? {
        return None;
      }
      if tag == 0x19 {
        var fs := ReadFieldList(n.value);
        return if fs.None? then None else Some(Cap(name, fs.value, owner));
      } else if tag == 0x14 {
        var fields, groups := ReadMemberList(n.value);
        if fields.None? {
          return None;
        }
        return Some(Struct(name, fields.value, Squash(groups)));
      } else if tag == 0x16 {
        var vs := ReadVariantList(n.value);
        return if vs.None? then None else Some(Enum(name, vs.value));
      } else if tag == 0x1a {
        var ms := ReadSigList(n.value);
        return if ms.None? then None else Some(Interface(name, ms.value));
      }
      return None;
    }

    method ReadTys(n: nat) returns (r: Option<seq<Type>>)
      requires Valid()
      modifies this
      ensures Valid() && pos >= old(pos) && Agrees(ReadTypes(n, old(Rest())), r, Rest())
      decreases |bytes| - pos, 1
    {
      hide ReadType;
      ghost var s := Rest();
      var out: seq<Type> := [];
      ResumeNone(ReadTypes(n, s));
      for i := 0 to n
        invariant Valid() && pos >= old(pos) && ReadTypes(n, s) == Resume(out, ReadTypes(n - i, Rest()))
      {
        ghost var here := Rest();
        var t := ReadTy();
        if t.None? {
          return None;
        }
        ResumeOne(out, t.value, ReadTypes(n - i - 1, Rest()));
        out := out + [t.value];
      }
      ResumeEnd(out, Rest());
      return Some(out);
    }

    method ReadOneField() returns (r: Option<Field>)
      requires Valid()
      modifies this
      ensures Valid() && pos >= old(pos) && Agrees(ReadField(old(Rest())), r, Rest())
      decreases |bytes| - pos, 1
    {
      hide ReadType, ReadStr;
      var name := ReadString();
      if name.None? {
        return None;
      }
      var ty := ReadTy();
      return if ty.None? then None else Some(Field(name.value, ty.value));
    }

    method ReadFieldList(n: nat) returns (r: Option<seq<Field>>)
      requires Valid()
      modifies this
      ensures Valid() && pos >= old(pos) && Agrees(ReadFields(n, old(Rest())), r, Rest())
      decreases |bytes| - pos, 2
    {
      hide ReadField;
      ghost var s := Rest();
      var out: seq<Field> := [];
      ResumeNone(ReadFields(n, s));
      for i := 0 to n
        invariant Valid() && pos >= old(pos) && ReadFields(n, s) == Resume(out, ReadFields(n - i, Rest()))
      {
        var f := ReadOneField();
        if f.None? {
          return None;
        }
        ResumeOne(out, f.value, ReadFields(n - i - 1, Rest()));
        out := out + [f.value];
      }
      ResumeEnd(out, Rest());
      return Some(out);
    }

    method ReadOneGroup() returns (r: Option<Option<Str>>)
      requires Valid()
      modifies this
      ensures Valid() && pos >= old(pos) && Agrees(ReadGroup(old(Rest())), r, Rest())
    {
      hide ReadStr;
      var has := TakeBytes(1);
      if has.None? {
        return None;
      }
      if has.value[0] == 0 {
        return Some(None);
      }
      var g := ReadString();
      return if g.None? then None else Some(Some(g.value));
    }

    /** Fields and groups are collected side by side. */
    method ReadMemberList(n: nat) returns (fields: Option<seq<Field>>, groups: seq<Option<Str>>)
      requires Valid()
      modifies this
      ensures Valid() && pos >= old(pos)
      ensures match ReadMembers(n, old(Rest()))
              case None => fields.None?
              case Some((fs, gs, after)) => fields == Some(fs) && groups == gs && Rest() == after
      decreases |bytes| - pos, 2
    {
      hide ReadField, ReadGroup;
      ghost var s := Rest();
      var out: seq<Field> := [];
      groups := [];
      MemberStart(n, s);
      for i := 0 to n
        invariant Valid() && pos >= old(pos)
        invariant match ReadMembers(n - i, Rest())
                  case None => ReadMembers(n, s) == None
                  case Some((fs, gs, after)) => ReadMembers(n, s) == Some((out + fs, groups + gs, after))
      {
        var f := ReadOneField();
        if f.None? {
          return None, groups;
        }
        var g := ReadOneGroup();
        if g.None? {
          return None, groups;
        }
        MemberNext(n - i - 1, Rest(), out, groups, f.value, g.value);
        out, groups := out + [f.value], groups + [g.value];
      }
      fields := Some(out);
      assert out + [] == out && groups + [] == groups;
    }

    method ReadOneVariant() returns (r: Option<Variant>)
      requires Valid()
      modifies this
      ensures Valid() && pos >= old(pos) && Agrees(ReadVariant(old(Rest())), r, Rest())
      decreases |bytes| - pos, 2, 0
    {
      hide ReadTypes, ReadStr, ReadU;
      var name := ReadString();
      if name.None? {
        return None;
      }
      var n := ReadUInt(4);
      if n.None? {
        return None;
      }
      var payload := ReadTys(n.value);
      return if payload.None? then None else Some(Variant(name.value, payload.value));
    }

    method ReadVariantList(n: nat) returns (r: Option<seq<Variant>>)
      requires Valid()
      modifies this
      ensures Valid() && pos >= old(pos) && Agrees(ReadVariants(n, old(Rest())), r, Rest())
      decreases |bytes| - pos, 2, 1
    {
      hide ReadVariant;
      ghost var s := Rest();
      var out: seq<Variant> := [];
      ResumeNone(ReadVariants(n, s));
      for i := 0 to n
        invariant Valid() && pos >= old(pos) && ReadVariants(n, s) == Resume(out, ReadVariants(n - i, Rest()))
      {
        var v := ReadOneVariant();
        if v.None? {
          return None;
        }
        ResumeOne(out, v.value, ReadVariants(n - i - 1, Rest()));
        out := out + [v.value];
      }
      ResumeEnd(out, Rest());
      return Some(out);
    }

    method ReadOneSig() returns (r: Option<Sig>)
      requires Valid()
      modifies this
      ensures Valid() && pos >= old(pos) && Agrees(ReadSig(old(Rest())), r, Rest())
      decreases |bytes| - pos, 2, 0
    {
      hide ReadTypes, ReadStr, ReadU, ReadType, ReadFlag;
      var name := ReadString();
      if name.None? {
        return None;
      }
      var isView := ReadBool();
      if isView.None? {
        return None;
      }
      var isPure := ReadBool();
      if isPure.None? {
        return None;
      }
      var n := ReadUInt(4);
      if n.None? {
        return None;
      }
      var params := ReadTys(n.value);
      if params.None? {
        return None;
      }
      var ret := ReadTy();
      return if ret.None? then None else Some(Sig(name.value, params.value, ret.value, isView.value, isPure.value));
    }

    method ReadSigList(n: nat) returns (r: Option<seq<Sig>>)
      requires Valid()
      modifies this
      ensures Valid() && pos >= old(pos) && Agrees(ReadSigs(n, old(Rest())), r, Rest())
      decreases |bytes| - pos, 2, 1
    {
      hide ReadSig;
      ghost var s := Rest();
      var out: seq<Sig> := [];
      ResumeNone(ReadSigs(n, s));
      for i := 0 to n
        invariant Valid() && pos >= old(pos) && ReadSigs(n, s) == Resume(out, ReadSigs(n - i, Rest()))
      {
        var m := ReadOneSig();
        if m.None? {
          return None;
        }
        ResumeOne(out, m.value, ReadSigs(n - i - 1, Rest()));
        out := out + [m.value];
      }
      ResumeEnd(out, Rest());
      return Some(out);
    }
  }

  lemma MemberStart(n: nat, s: Data)
    ensures match ReadMembers(n, s)
            case None => true
            case Some((fs, gs, _)) => [] + fs == fs && [] + gs == gs
  {
  }

  lemma MemberNext(n: nat, rest: Data, out: seq<Field>, groups: seq<Option<Str>>, f: Field, g: Option<Str>)
    ensures match ReadMembers(n, rest)
            case None => true
            case Some((fs, gs, _)) => out + ([f] + fs) == out + [f] + fs && groups + ([g] + gs) == groups + [g] + gs
  {
  }
}
