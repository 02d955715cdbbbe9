/** The interpreter's side of index maintenance: slots rewritten in place, one index at a time. */
module IndexStore {
  import opened Options
  import opened IndexKeys
  import opened Indexes

  class Store {
    const decls: seq<Decl>
    var primary: map<Id, Value>
    var slots: seq<Slot>

    ghost predicate Valid()
      reads this
    {
      |slots| == |decls|
    }

    ghost function Now(): State
      reads this
    {
      State(primary, slots)
    }

    constructor (decls: seq<Decl>)
      ensures this.decls == decls && Valid() && Now() == Fresh(decls)
    {
      this.decls := decls;
      this.primary := map[];
      this.slots := Fresh(decls).slots;
    }

    /** Link a just-written record in every index; stops at the first violation. */
    method MaintainIndexes(id: Id, v: Value) returns (ok: bool)
      requires Valid()
      modifies this`slots
      ensures Valid()
      ensures ok <==> LinkAll(decls, old(slots), id, v).Some?
      ensures ok ==> LinkAll(decls, old(slots), id, v) == Some(slots)
    {
      hide Key, Link;
      NoLinks(decls[..0], old(slots)[..0], id, v);
      for i := 0 to |decls|
        invariant Valid() && slots[i..] == old(slots)[i..]
        invariant LinkAll(decls[..i], old(slots)[..i], id, v) == Some(slots[..i])
      {
        LinkNext(decls, old(slots), i, id, v);
        assert slots[i] == slots[i..][0] == old(slots)[i..][0] == old(slots)[i];
        var p := Key(decls[i].fields, v);
        if p.None? {
          LinkStops(decls, old(slots), i + 1, id, v);
          return false;
        }
        var linked := Link(slots[i], p.value, id);
        if linked.None? {
          LinkStops(decls, old(slots), i + 1, id, v);
          return false;
        }
        ghost var before := slots;
        slots := slots[i := linked.value];
        assert slots[..i + 1] == before[..i] + [linked.value];
        assert slots[i + 1..] == before[i..][1..] == old(slots)[i + 1..];
      }
      assert decls[..|decls|] == decls && old(slots)[..|decls|] == old(slots) && slots[..|decls|] == slots;
      return true;
    }

    /** Drop the links of a record that is going away. */
    method UnmaintainIndexes(id: Id, v: Value) returns (ok: bool)
      requires Valid()
      modifies this`slots
      ensures Valid()
      ensures ok <==> UnlinkAll(decls, old(slots), id, v).Some?
      ensures ok ==> UnlinkAll(decls, old(slots), id, v) == Some(slots)
    {
      hide Key, Unlink;
      NoLinks(decls[..0], old(slots)[..0], id, v);
      for i := 0 to |decls|
        invariant Valid() && slots[i..] == old(slots)[i..]
        invariant UnlinkAll(decls[..i], old(slots)[..i], id, v) == Some(slots[..i])
      {
        UnlinkNext(decls, old(slots), i, id, v);
        assert slots[i] == slots[i..][0] == old(slots)[i..][0] == old(slots)[i];
        var p := Key(decls[i].fields, v);
        if p.None? {
          UnlinkStops(decls, old(slots), i + 1, id, v);
          return false;
        }
        ghost var before := slots;
        slots := slots[i := Unlink(slots[i], p.value, id)];
        assert slots[..i + 1] == before[..i] + [slots[i]];
        assert slots[i + 1..] == before[i..][1..] == old(slots)[i + 1..];
      }
      assert decls[..|decls|] == decls && old(slots)[..|decls|] == old(slots) && slots[..|decls|] == slots;
      return true;
    }

    /** One statement. On failure the buffers are left as they are; the transaction is dropped. */
    method Exec(op: Op) returns (ok: bool)
      requires Valid()
      modifies this
      ensures Valid()
      ensures ok <==> Apply(decls, old(Now()), op).Some?
      ensures ok ==> Apply(decls, old(Now()), op) == Some(Now())
    {
      match op {
        case Put(id, v) =>
          primary := primary[id := v];
          ok := MaintainIndexes(id, v);
        case Delete(id) =>
          if id !in primary {
            return true;
          }
          var prior := primary[id];
          primary := primary - {id};
          ok := UnmaintainIndexes(id, prior);
      }
    }

    /** A whole transaction: a failed statement discards everything it wrote. */
    method Commit(ops: seq<Op>) returns (ok: bool)
      requires Indexed(decls, Now())
      modifies this
      ensures Now() == Transact(decls, old(Now()), ops) && Indexed(decls, Now())
      ensures ok <==> ApplyAll(decls, old(Now()), ops).Some?
    {
      hide Apply, Indexed;
      SlotsCount(decls, Now());
      var primary0, slots0 := primary, slots;
      for i := 0 to |ops|
        invariant Valid() && ApplyAll(decls, old(Now()), ops[..i]) == Some(Now())
      {
        AllNext(decls, old(Now()), ops, i);
        var one := Exec(ops[i]);
        if !one {
          AllStops(decls, old(Now()), ops, i + 1);
          primary, slots := primary0, slots0;
          return false;
        }
      }
      assert ops[..|ops|] == ops;
      ApplyAllKeeps(decls, old(Now()), ops);
      return true;
    }
  }

  lemma SlotsCount(decls: seq<Decl>, st: State)
    requires Indexed(decls, st)
    ensures |st.slots| == |decls|
  {
  }

  lemma NoLinks(decls: seq<Decl>, slots: seq<Slot>, id: Id, v: Value)
    requires decls == [] && slots == []
    ensures LinkAll(decls, slots, id, v) == Some([]) && UnlinkAll(decls, slots, id, v) == Some([])
  {
  }

  lemma LinkNext(decls: seq<Decl>, slots: seq<Slot>, i: nat, id: Id, v: Value)
    requires |slots| == |decls| && i < |decls|
    ensures LinkAll(decls[..i + 1], slots[..i + 1], id, v) ==
      match LinkAll(decls[..i], slots[..i], id, v)
      case None => None
      case Some(before) =>
        match Key(decls[i].fields, v)
        case None => None
        case Some(p) =>
          match Link(slots[i], p, id)
          case None => None
          case Some(slot) => Some(before + [slot])
  {
    hide Key, Link;
    assert decls[..i + 1][..i] == decls[..i] && slots[..i + 1][..i] == slots[..i];
  }

  lemma UnlinkNext(decls: seq<Decl>, slots: seq<Slot>, i: nat, id: Id, v: Value)
    requires |slots| == |decls| && i < |decls|
    ensures UnlinkAll(decls[..i + 1], slots[..i + 1], id, v) ==
      match UnlinkAll(decls[..i], slots[..i], id, v)
      case None => None
      case Some(before) =>
        match Key(decls[i].fields, v)
        case None => None
        case Some(p) => Some(before + [Unlink(slots[i], p, id)])
  {
    hide Key, Unlink;
    assert decls[..i + 1][..i] == decls[..i] && slots[..i + 1][..i] == slots[..i];
  }

  lemma {:induction false} LinkStops(decls: seq<Decl>, slots: seq<Slot>, i: nat, id: Id, v: Value)
    requires |slots| == |decls| && i <= |decls| && LinkAll(decls[..i], slots[..i], id, v).None?
    ensures LinkAll(decls, slots, id, v).None?
    decreases |decls| - i
  {
    hide Key, Link;
    if i < |decls| {
      LinkNext(decls, slots, i, id, v);
      LinkStops(decls, slots, i + 1, id, v);
    } else {
      assert decls[..i] == decls && slots[..i] == slots;
    }
  }

  lemma {:induction false} UnlinkStops(decls: seq<Decl>, slots: seq<Slot>, i: nat, id: Id, v: Value)
    requires |slots| == |decls| && i <= |decls| && UnlinkAll(decls[..i], slots[..i], id, v).None?
    ensures UnlinkAll(decls, slots, id, v).None?
    decreases |decls| - i
  {
    hide Key, Unlink;
    if i < |decls| {
      UnlinkNext(decls, slots, i, id, v);
      UnlinkStops(decls, slots, i + 1, id, v);
    } else {
      assert decls[..i] == decls && slots[..i] == slots;
    }
  }

  lemma AllNext(decls: seq<Decl>, st: State, ops: seq<Op>, i: nat)
    requires |st.slots| == |decls| && i < |ops|
    ensures ApplyAll(decls, st, ops[..i + 1]) ==
      match ApplyAll(decls, st, ops[..i])
      case None => None
      case Some(mid) => if |mid.slots| == |decls| then Apply(decls, mid, ops[i]) else None
  {
    assert ops[..i + 1][..i] == ops[..i];
  }

  lemma {:induction false} AllStops(decls: seq<Decl>, st: State, ops: seq<Op>, i: nat)
    requires |st.slots| == |decls| && i <= |ops| && ApplyAll(decls, st, ops[..i]).None?
    ensures ApplyAll(decls, st, ops).None?
    decreases |ops| - i
  {
    if i < |ops| {
      AllNext(decls, st, ops, i);
      AllStops(decls, st, ops, i + 1);
    } else {
      assert ops[..i] == ops;
    }
  }
}
