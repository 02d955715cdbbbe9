/** Secondary indexes kept up to date by every write and delete of their primary map.

    An update does not clean the back-link of the value it replaces, so stale links may remain;
    what is guaranteed is about the records that are there. */
module Indexes {
  import opened Options
  import opened IndexKeys

  type Id = int

  datatype Kind = Unique | Multi

  datatype Decl = Decl(kind: Kind, fields: seq<Field>)

  /** One index slot. A unique index links a key to one record, a multi index to a list. */
  datatype Slot = One(one: map<Value, Id>) | Many(many: map<Value, seq<Id>>)

  datatype State = State(primary: map<Id, Value>, slots: seq<Slot>)

  // ---------- one slot ----------

  function Retain(ids: seq<Id>, id: Id): (r: seq<Id>)
    ensures forall x :: x in r <==> x in ids && x != id
    ensures |r| <= |ids|
  {
    if ids == [] then []
    else
      assert ids == [ids[0]] + ids[1..];
      if ids[0] == id then Retain(ids[1..], id) else [ids[0]] + Retain(ids[1..], id)
  }

  /** Record that `id` has key `p`; `None` is a violated unique constraint. */
  function Link(slot: Slot, p: Value, id: Id): Option<Slot> {
    match slot
    case One(m) =>
      if p !in m then Some(One(m[p := id])) else if m[p] == id then Some(slot) else None
    case Many(m) =>
      var ids := if p in m then m[p] else [];
      Some(if id in ids then slot else Many(m[p := ids + [id]]))
  }

  /** Forget that `id` has key `p`, leaving alone what belongs to others. */
  function Unlink(slot: Slot, p: Value, id: Id): Slot {
    match slot
    case One(m) => if p in m && m[p] == id then One(m - {p}) else slot
    case Many(m) =>
      if p !in m then slot
      else
        var ids := Retain(m[p], id);
        if ids == [] then Many(m - {p}) else Many(m[p := ids])
  }

  ghost predicate Links(slot: Slot, p: Value, id: Id) {
    match slot
    case One(m) => p in m && m[p] == id
    case Many(m) => p in m && id in m[p]
  }

  ghost predicate NoDup(ids: seq<Id>) { forall i, j :: 0 <= i < j < |ids| ==> ids[i] != ids[j] }

  /** Lists hold no record twice and are never empty. */
  ghost predicate Tidy(slot: Slot) {
    slot.Many? ==> forall p :: p in slot.many ==> NoDup(slot.many[p]) && slot.many[p] != []
  }

  // ---------- all the slots ----------

  /** Link a record's keys in every index, or fail. */
  function LinkAll(decls: seq<Decl>, slots: seq<Slot>, id: Id, v: Value): Option<seq<Slot>>
    requires |slots| == |decls|
    decreases |decls|
  {
    if decls == [] then Some([])
    else
      var n := |decls| - 1;
      match LinkAll(decls[..n], slots[..n], id, v)
      case None => None
      case Some(before) =>
        match Key(decls[n].fields, v)
        case None => None
        case Some(p) =>
          match Link(slots[n], p, id)
          case None => None
          case Some(slot) => Some(before + [slot])
  }

  function UnlinkAll(decls: seq<Decl>, slots: seq<Slot>, id: Id, v: Value): Option<seq<Slot>>
    requires |slots| == |decls|
    decreases |decls|
  {
    if decls == [] then Some([])
    else
      var n := |decls| - 1;
      match UnlinkAll(decls[..n], slots[..n], id, v)
      case None => None
      case Some(before) =>
        match Key(decls[n].fields, v)
        case None => None
        case Some(p) => Some(before + [Unlink(slots[n], p, id)])
  }

  datatype Op = Put(id: Id, v: Value) | Delete(id: Id)

  /** One statement; `None` aborts the transaction. */
  function Apply(decls: seq<Decl>, st: State, op: Op): Option<State>
    requires |st.slots| == |decls|
  {
    match op
    case Put(id, v) =>
      (match LinkAll(decls, st.slots, id, v)
       case None => None
       case Some(slots) => Some(State(st.primary[id := v], slots)))
    case Delete(id) =>
      if id !in st.primary then Some(st)
      else
        match UnlinkAll(decls, st.slots, id, st.primary[id])
        case None => None
        case Some(slots) => Some(State(st.primary - {id}, slots))
  }

  // ---------- the invariant ----------

  ghost predicate SlotKind(d: Decl, slot: Slot) { slot.One? <==> d.kind == Unique }

  /** Every record present is linked under its current key. */
  ghost predicate Covers(d: Decl, slot: Slot, primary: map<Id, Value>) {
    forall id :: id in primary ==> Key(d.fields, primary[id]).Some? && Links(slot, Key(d.fields, primary[id]).value, id)
  }

  ghost predicate Indexed(decls: seq<Decl>, st: State) {
    && |st.slots| == |decls|
    && forall i :: 0 <= i < |decls| ==> SlotKind(decls[i], st.slots[i]) && Tidy(st.slots[i]) && Covers(decls[i], st.slots[i], st.primary)
  }

  /** Records present never share the key of a unique index. */
  lemma UniqueKeysDiffer(decls: seq<Decl>, st: State, i: nat, a: Id, b: Id)
    requires Indexed(decls, st) && i < |decls| && decls[i].kind == Unique
    requires a in st.primary && b in st.primary && a != b
    ensures Key(decls[i].fields, st.primary[a]) != Key(decls[i].fields, st.primary[b])
  {
    hide Key;
    assert SlotKind(decls[i], st.slots[i]) && Covers(decls[i], st.slots[i], st.primary);
  }

  lemma LinkKeeps(slot: Slot, p: Value, id: Id)
    requires Tidy(slot) && Link(slot, p, id).Some?
    ensures var s := Link(slot, p, id).value;
      && Tidy(s) && (s.One? <==> slot.One?) && Links(s, p, id)
      && forall q, x :: Links(slot, q, x) ==> Links(s, q, x)
  {
  }

  lemma {:induction false} RetainNoDup(ids: seq<Id>, id: Id)
    requires NoDup(ids)
    ensures NoDup(Retain(ids, id))
  {
    if ids != [] {
      assert forall x :: x in ids[1..] ==> x != ids[0];
      RetainNoDup(ids[1..], id);
      var r := Retain(ids[1..], id);
      assert forall j :: 0 <= j < |r| ==> r[j] in r;
    }
  }

  lemma UnlinkKeeps(slot: Slot, p: Value, id: Id)
    requires Tidy(slot)
    ensures var s := Unlink(slot, p, id);
      && Tidy(s) && (s.One? <==> slot.One?) && !Links(s, p, id)
      && forall q, x :: x != id ==> (Links(slot, q, x) <==> Links(s, q, x))
  {
    if slot.Many? && p in slot.many {
      RetainNoDup(slot.many[p], id);
    }
  }

  lemma {:induction false} LinkAllAt(decls: seq<Decl>, slots: seq<Slot>, id: Id, v: Value)
    requires |slots| == |decls| && LinkAll(decls, slots, id, v).Some?
    ensures var out := LinkAll(decls, slots, id, v).value;
      && |out| == |decls|
      && forall i :: 0 <= i < |decls| ==>
           Key(decls[i].fields, v).Some? && Link(slots[i], Key(decls[i].fields, v).value, id) == Some(out[i])
    decreases |decls|
  {
    hide Key, Link;
    if decls != [] {
      var n := |decls| - 1;
      LinkAllAt(decls[..n], slots[..n], id, v);
      var before := LinkAll(decls[..n], slots[..n], id, v).value;
      assert forall i :: 0 <= i < n ==> decls[..n][i] == decls[i] && slots[..n][i] == slots[i];
    }
  }

  lemma {:induction false} UnlinkAllAt(decls: seq<Decl>, slots: seq<Slot>, id: Id, v: Value)
    requires |slots| == |decls|
    ensures UnlinkAll(decls, slots, id, v).Some? <==> forall i :: 0 <= i < |decls| ==> Key(decls[i].fields, v).Some?
    ensures UnlinkAll(decls, slots, id, v).Some? ==>
      var out := UnlinkAll(decls, slots, id, v).value;
      && |out| == |decls|
      && forall i :: 0 <= i < |decls| ==> out[i] == Unlink(slots[i], Key(decls[i].fields, v).value, id)
    decreases |decls|
  {
    hide Key, Unlink;
    if decls != [] {
      var n := |decls| - 1;
      UnlinkAllAt(decls[..n], slots[..n], id, v);
      assert forall i :: 0 <= i < n ==> decls[..n][i] == decls[i] && slots[..n][i] == slots[i];
    }
  }

  /** A statement that goes through keeps every index covering its map. */
  lemma ApplyKeeps(decls: seq<Decl>, st: State, op: Op)
    requires Indexed(decls, st) && Apply(decls, st, op).Some?
    ensures Indexed(decls, Apply(decls, st, op).value)
  {
    hide Key, Link, Unlink, Tidy, Links;
    var st' := Apply(decls, st, op).value;
    match op
    case Put(id, v) =>
      LinkAllAt(decls, st.slots, id, v);
      forall i | 0 <= i < |decls|
        ensures SlotKind(decls[i], st'.slots[i]) && Tidy(st'.slots[i]) && Covers(decls[i], st'.slots[i], st'.primary)
      {
        LinkKeeps(st.slots[i], Key(decls[i].fields, v).value, id);
      }
    case Delete(id) =>
      if id in st.primary {
        var v := st.primary[id];
        UnlinkAllAt(decls, st.slots, id, v);
        forall i | 0 <= i < |decls|
          ensures SlotKind(decls[i], st'.slots[i]) && Tidy(st'.slots[i]) && Covers(decls[i], st'.slots[i], st'.primary)
        {
          UnlinkKeeps(st.slots[i], Key(decls[i].fields, v).value, id);
        }
      }
  }

  /** A delete of an indexed record always goes through. */
  lemma DeleteSucceeds(decls: seq<Decl>, st: State, id: Id)
    requires Indexed(decls, st)
    ensures Apply(decls, st, Delete(id)).Some?
  {
    hide Key;
    if id in st.primary {
      UnlinkAllAt(decls, st.slots, id, st.primary[id]);
    }
  }

  // ---------- transactions and runs ----------

  function ApplyAll(decls: seq<Decl>, st: State, ops: seq<Op>): Option<State>
    requires |st.slots| == |decls|
    decreases |ops|
  {
    if ops == [] then Some(st)
    else
      match ApplyAll(decls, st, ops[..|ops| - 1])
      case None => None
      case Some(mid) => if |mid.slots| == |decls| then Apply(decls, mid, ops[|ops| - 1]) else None
  }

  /** A transaction commits all its statements or none. */
  function Transact(decls: seq<Decl>, st: State, ops: seq<Op>): State
    requires |st.slots| == |decls|
  {
    var r := ApplyAll(decls, st, ops);
    if r.Some? then r.value else st
  }

  lemma {:induction false} ApplyAllKeeps(decls: seq<Decl>, st: State, ops: seq<Op>)
    requires Indexed(decls, st) && ApplyAll(decls, st, ops).Some?
    ensures Indexed(decls, ApplyAll(decls, st, ops).value)
    decreases |ops|
  {
    hide Apply;
    if ops != [] {
      ApplyAllKeeps(decls, st, ops[..|ops| - 1]);
      ApplyKeeps(decls, ApplyAll(decls, st, ops[..|ops| - 1]).value, ops[|ops| - 1]);
    }
  }

  function Fresh(decls: seq<Decl>): (st: State)
    ensures |st.slots| == |decls|
  {
    State(map[], seq(|decls|, i requires 0 <= i < |decls| => if decls[i].kind == Unique then One(map[]) else Many(map[])))
  }

  ghost function AfterAll(decls: seq<Decl>, txs: seq<seq<Op>>): (st: State)
    ensures Indexed(decls, st)
    decreases |txs|
  {
    if txs == [] then Fresh(decls)
    else
      var st := AfterAll(decls, txs[..|txs| - 1]);
      var ops := txs[|txs| - 1];
      assert Indexed(decls, Transact(decls, st, ops)) by {
        if ApplyAll(decls, st, ops).Some? {
          ApplyAllKeeps(decls, st, ops);
        }
      }
      Transact(decls, st, ops)
  }

  /** Over every run of transactions from empty: each record is linked under its current key in
      every index, and two records never share the key of a unique one. */
  lemma RunCovered(decls: seq<Decl>, txs: seq<seq<Op>>, i: nat, a: Id, b: Id)
    requires i < |decls|
    ensures var st := AfterAll(decls, txs);
      && (a in st.primary ==> Key(decls[i].fields, st.primary[a]).Some? && Links(st.slots[i], Key(decls[i].fields, st.primary[a]).value, a))
      && (a in st.primary && b in st.primary && a != b && decls[i].kind == Unique ==>
            Key(decls[i].fields, st.primary[a]) != Key(decls[i].fields, st.primary[b]))
      && Tidy(st.slots[i])
  {
    hide Key, Links, Tidy, AfterAll;
    var st := AfterAll(decls, txs);
    assert Covers(decls[i], st.slots[i], st.primary);
    if a in st.primary && b in st.primary && a != b && decls[i].kind == Unique {
      UniqueKeysDiffer(decls, st, i, a, b);
    }
  }

  // ---------- stale links ----------

  /** A write is refused exactly when some unique index already links its key to another record,
      present or not, or a key cannot be projected. */
  lemma {:induction false} PutRefused(decls: seq<Decl>, slots: seq<Slot>, id: Id, v: Value)
    requires |slots| == |decls|
    ensures LinkAll(decls, slots, id, v).None? <==>
      exists i :: 0 <= i < |decls| && Refuses(decls[i], slots[i], id, v)
    decreases |decls|
  {
    hide Key;
    if decls != [] {
      var n := |decls| - 1;
      PutRefused(decls[..n], slots[..n], id, v);
      if LinkAll(decls[..n], slots[..n], id, v).None? {
        var i :| 0 <= i < n && Refuses(decls[..n][i], slots[..n][i], id, v);
        assert Refuses(decls[i], slots[i], id, v);
      } else {
        forall i | 0 <= i < n ensures !Refuses(decls[i], slots[i], id, v) {
          assert !Refuses(decls[..n][i], slots[..n][i], id, v);
        }
        assert LinkAll(decls, slots, id, v).None? <==> Refuses(decls[n], slots[n], id, v);
      }
    }
  }

  ghost predicate Refuses(d: Decl, slot: Slot, id: Id, v: Value) {
    var p := Key(d.fields, v);
    p.None? || (slot.One? && p.value in slot.one && slot.one[p.value] != id)
  }

  /** A record that moved from key `p` to `q` is linked from both. */
  lemma StaleState(p: nat, q: nat)
    requires p != q && p < 256 && q < 256
    ensures var decls := [Decl(Unique, [Field([], Asc)])];
      ApplyAll(decls, Fresh(decls), [Put(1, U64(p)), Put(1, U64(q))]) ==
        Some(State(map[1 := U64(q)], [One(map[U64(p) := 1, U64(q) := 1])]))
  {
    var d := Decl(Unique, [Field([], Asc)]);
    var decls := [d];
    var first, second := Put(1, U64(p)), Put(1, U64(q));
    assert [first, second][..1] == [first] && [first][..0] == [];
    OneDecl(d, One(map[]), 1, U64(p));
    OneDecl(d, One(map[U64(p) := 1]), 1, U64(q));
    var m: map<Value, Id> := map[U64(p) := 1, U64(q) := 1];
    assert Fresh(decls).slots == [One(map[])];
    var empty: map<Value, Id> := map[];
    assert empty[U64(p) := 1] == map[U64(p) := 1];
    assert Apply(decls, Fresh(decls), first) == Some(State(map[1 := U64(p)], [One(map[U64(p) := 1])]));
    assert map[U64(p) := 1][U64(q) := 1] == m;
    var mid := State(map[1 := U64(p)], [One(map[U64(p) := 1])]);
    assert ApplyAll(decls, Fresh(decls), [first]) == Some(mid);
    assert mid.primary[1 := U64(q)] == map[1 := U64(q)];
    assert Apply(decls, mid, second) == Some(State(map[1 := U64(q)], [One(m)]));
  }

  /** A stale link can refuse a key that no record has: record 1 takes key `p`, moves to `q`, and
      record 2 cannot take `p`. */
  lemma StaleLinkRefuses(p: nat, q: nat)
    requires p != q && p < 256 && q < 256
    ensures var decls := [Decl(Unique, [Field([], Asc)])];
      var st := ApplyAll(decls, Fresh(decls), [Put(1, U64(p)), Put(1, U64(q))]);
      && st.Some? && st.value.primary == map[1 := U64(q)]
      && Apply(decls, st.value, Put(2, U64(p))) == None
  {
    hide ApplyAll, Apply, Key, LinkAll;
    var d := Decl(Unique, [Field([], Asc)]);
    StaleState(p, q);
    var m: map<Value, Id> := map[U64(p) := 1, U64(q) := 1];
    OneDecl(d, One(m), 2, U64(p));
    PutIs([d], State(map[1 := U64(q)], [One(m)]), 2, U64(p));
  }

  lemma OneDecl(d: Decl, slot: Slot, id: Id, v: Value)
    requires d.fields == [Field([], Asc)]
    ensures LinkAll([d], [slot], id, v) == match Link(slot, v, id) case None => None case Some(s) => Some([s])
  {
    assert [d][..0] == [] && [slot][..0] == [];
    var none: seq<Slot> := [];
    assert LinkAll([d][..0], [slot][..0], id, v) == Some(none);
    assert Key(d.fields, v) == Some(v);
    if Link(slot, v, id).Some? {
      assert none + [Link(slot, v, id).value] == [Link(slot, v, id).value];
    }
  }

  // ---------- the compiled delete ----------

  /** Bytecode reads the record first, the type's default when there is none, and cleans up
      under that value either way. */
  function CompiledDelete(decls: seq<Decl>, st: State, id: Id, initial: Value): Option<State>
    requires |st.slots| == |decls|
  {
    var prior := if id in st.primary then st.primary[id] else initial;
    match UnlinkAll(decls, st.slots, id, prior)
    case None => None
    case Some(slots) => Some(State(st.primary - {id}, slots))
  }

  /** The compiled delete keeps the indexes covering the map. */
  lemma CompiledKeeps(decls: seq<Decl>, st: State, id: Id, initial: Value)
    requires Indexed(decls, st) && CompiledDelete(decls, st, id, initial).Some?
    ensures Indexed(decls, CompiledDelete(decls, st, id, initial).value)
  {
    hide Key, Unlink, Tidy, Links;
    var st' := CompiledDelete(decls, st, id, initial).value;
    var prior := if id in st.primary then st.primary[id] else initial;
    UnlinkAllAt(decls, st.slots, id, prior);
    forall i | 0 <= i < |decls|
      ensures SlotKind(decls[i], st'.slots[i]) && Tidy(st'.slots[i]) && Covers(decls[i], st'.slots[i], st'.primary)
    {
      UnlinkKeeps(st.slots[i], Key(decls[i].fields, prior).value, id);
    }
  }

  /** It does what the interpreter does if and only if the record is there, or no index holds a
      stale link from the default's key to the absent record. */
  lemma CompiledAgrees(decls: seq<Decl>, st: State, id: Id, initial: Value)
    requires Indexed(decls, st) && forall i :: 0 <= i < |decls| ==> Key(decls[i].fields, initial).Some?
    ensures CompiledDelete(decls, st, id, initial) == Apply(decls, st, Delete(id)) <==>
      id in st.primary || forall i :: 0 <= i < |decls| ==> !Links(st.slots[i], Key(decls[i].fields, initial).value, id)
  {
    hide Key, Unlink, Links, Tidy, Covers;
    if id !in st.primary {
      UnlinkAllAt(decls, st.slots, id, initial);
      var out := UnlinkAll(decls, st.slots, id, initial).value;
      assert st.primary - {id} == st.primary;
      forall i | 0 <= i < |decls|
        ensures out[i] == st.slots[i] <==> !Links(st.slots[i], Key(decls[i].fields, initial).value, id)
      {
        UnlinkNothing(st.slots[i], Key(decls[i].fields, initial).value, id);
      }
      assert out == st.slots <==> forall i :: 0 <= i < |decls| ==> out[i] == st.slots[i];
    }
  }

  lemma OneUnlink(d: Decl, slot: Slot, id: Id, v: Value)
    requires d.fields == [Field([], Asc)]
    ensures UnlinkAll([d], [slot], id, v) == Some([Unlink(slot, v, id)])
  {
    assert [d][..0] == [] && [slot][..0] == [];
    var none: seq<Slot> := [];
    assert UnlinkAll([d][..0], [slot][..0], id, v) == Some(none);
    assert Key(d.fields, v) == Some(v);
    assert none + [Unlink(slot, v, id)] == [Unlink(slot, v, id)];
  }

  /** A run that gets there: record 1 takes key `p`, moves to `q` and is deleted, which leaves
      the link from `p`. With `p` as the default, a second delete of record 1 changes nothing in
      the interpreter and removes that link in bytecode; the next record to take `p` is refused
      by the one and accepted by the other. */
  lemma DeletesPart(p: nat, q: nat)
    requires p != q && p < 256 && q < 256
    ensures var decls := [Decl(Unique, [Field([], Asc)])];
      var st := ApplyAll(decls, Fresh(decls), [Put(1, U64(p)), Put(1, U64(q)), Delete(1)]);
      && st.Some? && st.value.primary == map[]
      && Apply(decls, st.value, Delete(1)) == st
      && CompiledDelete(decls, st.value, 1, U64(p)) == Some(State(map[], [One(map[])]))
      && CompiledDelete(decls, st.value, 1, U64(p)) != st
      && Apply(decls, st.value, Put(2, U64(p))) == None
      && Apply(decls, State(map[], [One(map[])]), Put(2, U64(p))).Some?
  {
    hide ApplyAll, Apply, Key, LinkAll, UnlinkAll;
    var d := Decl(Unique, [Field([], Asc)]);
    var decls := [d];
    var two := [Put(1, U64(p)), Put(1, U64(q))];
    var ops := two + [Delete(1)];
    assert ops == [Put(1, U64(p)), Put(1, U64(q)), Delete(1)] && ops[..2] == two;
    var m: map<Value, Id> := map[U64(p) := 1, U64(q) := 1];
    StaleState(p, q);
    var moved := State(map[1 := U64(q)], [One(m)]);
    OneUnlink(d, One(m), 1, U64(q));
    assert m - {U64(q)} == map[U64(p) := 1];
    var left := State(map[], [One(map[U64(p) := 1])]);
    assert Apply(decls, moved, Delete(1)) == Some(left) by { DeleteIs(decls, moved, 1, left.slots); }
    assert ApplyAll(decls, Fresh(decls), ops) == Some(left) by { ApplyLast(decls, Fresh(decls), two, Delete(1)); }
    OneUnlink(d, One(map[U64(p) := 1]), 1, U64(p));
    assert map[U64(p) := 1] - {U64(p)} == map[];
    assert left.primary - {1} == map[];
    assert Apply(decls, left, Delete(1)) == Some(left) by { DeleteAbsent(decls, left, 1); }
    OneDecl(d, One(map[U64(p) := 1]), 2, U64(p));
    OneDecl(d, One(map[]), 2, U64(p));
    PutIs(decls, left, 2, U64(p));
    PutIs(decls, State(map[], [One(map[])]), 2, U64(p));
  }

  lemma DeleteIs(decls: seq<Decl>, st: State, id: Id, slots: seq<Slot>)
    requires |st.slots| == |decls| && id in st.primary && UnlinkAll(decls, st.slots, id, st.primary[id]) == Some(slots)
    ensures Apply(decls, st, Delete(id)) == Some(State(st.primary - {id}, slots))
  {
  }

  lemma DeleteAbsent(decls: seq<Decl>, st: State, id: Id)
    requires |st.slots| == |decls| && id !in st.primary
    ensures Apply(decls, st, Delete(id)) == Some(st)
  {
  }

  lemma PutIs(decls: seq<Decl>, st: State, id: Id, v: Value)
    requires |st.slots| == |decls|
    ensures Apply(decls, st, Put(id, v)).Some? <==> LinkAll(decls, st.slots, id, v).Some?
  {
  }

  lemma ApplyLast(decls: seq<Decl>, st: State, ops: seq<Op>, op: Op)
    requires |st.slots| == |decls| && ApplyAll(decls, st, ops).Some? && |ApplyAll(decls, st, ops).value.slots| == |decls|
    ensures ApplyAll(decls, st, ops + [op]) == Apply(decls, ApplyAll(decls, st, ops).value, op)
  {
    assert (ops + [op])[..|ops|] == ops;
  }

  lemma UnlinkNothing(slot: Slot, p: Value, id: Id)
    requires Tidy(slot)
    ensures Unlink(slot, p, id) == slot <==> !Links(slot, p, id)
  {
    UnlinkKeeps(slot, p, id);
    if slot.Many? && p in slot.many && id !in slot.many[p] {
      RetainAll(slot.many[p], id);
    }
  }

  lemma {:induction false} RetainAll(ids: seq<Id>, id: Id)
    requires id !in ids
    ensures Retain(ids, id) == ids
  {
    if ids != [] {
      RetainAll(ids[1..], id);
    }
  }

  // ---------- the records themselves ----------

  /** The records after a list of statements, with no index in it. */
  ghost function Records(before: map<Id, Value>, ops: seq<Op>): map<Id, Value>
    decreases |ops|
  {
    if ops == [] then before
    else
      var m := Records(before, ops[..|ops| - 1]);
      match ops[|ops| - 1]
      case Put(id, v) => m[id := v]
      case Delete(id) => m - {id}
  }

  lemma {:induction false} ApplyRecords(decls: seq<Decl>, st: State, ops: seq<Op>)
    requires |st.slots| == |decls| && ApplyAll(decls, st, ops).Some?
    ensures ApplyAll(decls, st, ops).value.primary == Records(st.primary, ops)
    decreases |ops|
  {
    hide LinkAll, UnlinkAll;
    if ops != [] {
      var n := |ops| - 1;
      ApplyRecords(decls, st, ops[..n]);
      var mid := ApplyAll(decls, st, ops[..n]).value;
      if ops[n].Delete? && ops[n].id !in mid.primary {
        assert mid.primary - {ops[n].id} == mid.primary;
      }
    }
  }

  /** The records of a run are those of its committed transactions, applied to the empty map. */
  ghost function Survivors(decls: seq<Decl>, txs: seq<seq<Op>>): map<Id, Value>
    decreases |txs|
  {
    if txs == [] then map[]
    else
      var n := |txs| - 1;
      var m := Survivors(decls, txs[..n]);
      if ApplyAll(decls, AfterAll(decls, txs[..n]), txs[n]).Some? then Records(m, txs[n]) else m
  }

  lemma {:induction false} RunRecords(decls: seq<Decl>, txs: seq<seq<Op>>)
    ensures AfterAll(decls, txs).primary == Survivors(decls, txs)
    decreases |txs|
  {
    hide ApplyAll, Records, Indexed;
    if txs != [] {
      var n := |txs| - 1;
      RunRecords(decls, txs[..n]);
      var st := AfterAll(decls, txs[..n]);
      assert |st.slots| == |decls| by { IndexedSize(decls, st); }
      if ApplyAll(decls, st, txs[n]).Some? {
        ApplyRecords(decls, st, txs[n]);
      }
    }
  }

  lemma IndexedSize(decls: seq<Decl>, st: State)
    requires Indexed(decls, st)
    ensures |st.slots| == |decls|
  {
  }
}
