/**
 The two type registries: `linearcodec` numbers types one after the other with 32 bits,
 `hierarchycodec` numbers them within groups, with 16 bits each. Both prefix an interface value with
 four bytes.
 */
module Registries {
  import opened Results
  import opened Bytes
  import opened KeyOrder
  import opened Codec
  import opened RoundTrip

  const UINT16: nat := 0x1_0000
  const UINT32: nat := 0x1_0000_0000

  /** `bimap.Put`: whatever the ID or the type was paired with before is dropped. */
  function Put(reg: Registry, id: nat, t: Ty): (r: Registry)
    requires reg.Valid() && id < UINT32
    ensures r.Valid()
    ensures r.implements == reg.implements && id in r.typeOf && r.typeOf[id] == t
    ensures id !in reg.typeOf && t !in reg.idOf ==> Extends(reg, r)
  {
    var dropped := if id in reg.typeOf then {reg.typeOf[id]} else {};
    var freed := if t in reg.idOf then {reg.idOf[t]} else {};
    var typeOf := reg.typeOf - freed;
    var idOf := reg.idOf - dropped;
    Registry(typeOf[id := t], idOf[t := id], reg.implements)
  }

  /** Every type registered in `reg` is registered in `r` under the same ID. */
  ghost predicate Extends(reg: Registry, r: Registry) {
    reg.implements == r.implements && forall t :: t in reg.idOf ==> t in r.idOf && r.idOf[t] == reg.idOf[t]
  }

  /** Exactly the type that had the number before loses its own, and all others keep theirs. */
  lemma PutIs(reg: Registry, id: nat, t: Ty, u: Ty)
    requires reg.Valid() && id < UINT32
    ensures u in Put(reg, id, t).idOf <==> u == t || (u in reg.idOf && reg.idOf[u] != id)
    ensures u in Put(reg, id, t).idOf && u != t ==> Put(reg, id, t).idOf[u] == reg.idOf[u]
  {
    if u in reg.idOf { assert reg.typeOf[reg.idOf[u]] == u; }
  }

  /** A newly numbered type pushes out an older one exactly if its number is taken. */
  lemma PutExtends(reg: Registry, id: nat, t: Ty)
    requires reg.Valid() && id < UINT32 && t !in reg.idOf
    ensures Extends(reg, Put(reg, id, t)) <==> id !in reg.typeOf
  {
    if id in reg.typeOf {
      var u := reg.typeOf[id];
      assert u in reg.idOf && u !in Put(reg, id, t).idOf;
    }
  }

  // ---------- later registrations keep earlier encodings ----------

  lemma {:induction false} EncodeExtends(reg: Registry, r: Registry, ty: Ty, v: Val, stack: set<Ty>)
    requires Encodes(reg, ty, v, stack) && r.Valid() && Extends(reg, r)
    ensures Encode(r, ty, v, stack) == Encode(reg, ty, v, stack)
    decreases v
  {
    match ty
    case TPtr(elem) => EncodeExtends(reg, r, elem, v.target, stack);
    case TIface(_) => EncodeExtends(reg, r, v.dynamic, v.held, stack + {v.dynamic});
    case TSlice(elem) => if Elements(v).value != [] { ElemsExtend(reg, r, elem, v.vs, stack, true); }
    case TArray(_, elem) => ElemsExtend(reg, r, elem, v.vs, stack, false);
    case TStruct(_, fields) => FieldsExtend(reg, r, fields, v.vs, stack);
    case TMap(_, _) => if Entries(v).value != [] { MapExtends(reg, r, ty, v, stack); }
    case _ =>
  }

  lemma {:induction false} ElemsExtend(reg: Registry, r: Registry, elem: Ty, vs: seq<Val>, stack: set<Ty>,
                                       nonZero: bool)
    requires reg.Valid() && EncodeElems(reg, elem, vs, stack, nonZero).Ok? && r.Valid() && Extends(reg, r)
    ensures EncodeElems(r, elem, vs, stack, nonZero) == EncodeElems(reg, elem, vs, stack, nonZero)
    decreases vs
  {
    hide Encode, Registry.Valid, Extends;
    if vs != [] {
      EncodeExtends(reg, r, elem, vs[0], stack);
      ElemsExtend(reg, r, elem, vs[1..], stack, nonZero);
    }
  }

  lemma {:induction false} FieldsExtend(reg: Registry, r: Registry, fields: seq<Field>, vs: seq<Val>, stack: set<Ty>)
    requires reg.Valid() && |vs| == |fields| && EncodeFields(reg, fields, vs, stack).Ok? && r.Valid() && Extends(reg, r)
    ensures EncodeFields(r, fields, vs, stack) == EncodeFields(reg, fields, vs, stack)
    decreases vs
  {
    hide Encode, Registry.Valid, Extends;
    if vs != [] {
      if fields[0].tagged {
        EncodeExtends(reg, r, fields[0].ty, vs[0], stack);
      }
      FieldsExtend(reg, r, fields[1..], vs[1..], stack);
    }
  }

  lemma {:induction false} EntriesExtend(reg: Registry, r: Registry, kt: Ty, vt: Ty, es: seq<Entry>, stack: set<Ty>)
    requires reg.Valid() && r.Valid() && Extends(reg, r)
    requires forall i :: 0 <= i < |es| ==> EntryEncodes(reg, kt, vt, es[i], stack)
    ensures EncodeKeys(r, kt, es, stack) == EncodeKeys(reg, kt, es, stack)
    ensures EncodeVals(r, vt, es, stack) == EncodeVals(reg, vt, es, stack)
    decreases es
  {
    hide Encode, Registry.Valid, Extends;
    if es != [] {
      assert es decreases to es[0];
      EncodeExtends(reg, r, kt, es[0].key, stack);
      EncodeExtends(reg, r, vt, es[0].val, stack);
      EntriesExtend(reg, r, kt, vt, es[1..], stack);
    }
  }

  lemma MapExtends(reg: Registry, r: Registry, ty: Ty, v: Val, stack: set<Ty>)
    requires ty.TMap? && Encodes(reg, ty, v, stack) && v.VMap? && v.entries != [] && r.Valid() && Extends(reg, r)
    ensures Encode(r, ty, v, stack) == Encode(reg, ty, v, stack)
    decreases v, 0
  {
    MapEntriesEncode(reg, ty, v, stack);
    hide EncodeKeys, EncodeVals, Flatten, Registry.Valid, Extends, Encodes;
    EntriesExtend(reg, r, ty.key, ty.value, v.entries, stack);
  }

  // ---------- the linear registry ----------

  class LinearCodec {
    var nextTypeID: nat
    var reg: Registry

    ghost predicate Valid()
      reads this
    {
      nextTypeID < UINT32 && reg.Valid()
    }

    /** No number at or above the next one has been given out. */
    ghost predicate Unwrapped()
      reads this
    {
      forall id :: id in reg.typeOf ==> id < nextTypeID
    }

    constructor (implements: set<(Ty, nat)>)
      ensures Valid() && Unwrapped() && nextTypeID == 0 && reg == Registry(map[], map[], implements)
    {
      nextTypeID := 0;
      reg := Registry(map[], map[], implements);
    }

    /** `num` is a Go int; its conversion to 32 bits wraps, so a negative one goes back. */
    method SkipRegistrations(num: int)
      requires Valid()
      modifies `nextTypeID
      ensures Valid() && nextTypeID == (old(nextTypeID) + num) % UINT32
      ensures old(Unwrapped()) && 0 <= num && old(nextTypeID) + num < UINT32 ==> Unwrapped()
    {
      nextTypeID := (nextTypeID + num % UINT32) % UINT32;
    }

    /** Numbers keep their types as long as the count has not wrapped around. */
    method RegisterType(t: Ty) returns (ok: bool)
      requires Valid()
      modifies this
      ensures Valid() && ok == (t !in old(reg.idOf))
      ensures !ok ==> reg == old(reg) && nextTypeID == old(nextTypeID)
      ensures ok ==> reg == Put(old(reg), old(nextTypeID), t) && nextTypeID == (old(nextTypeID) + 1) % UINT32
      ensures ok ==> (Extends(old(reg), reg) <==> old(nextTypeID) !in old(reg.typeOf))
      ensures ok && old(Unwrapped()) ==> Extends(old(reg), reg) && (old(nextTypeID) + 1 < UINT32 ==> Unwrapped())
    {
      if t in reg.idOf { return false; }
      PutExtends(reg, nextTypeID, t);
      reg := Put(reg, nextTypeID, t);
      nextTypeID := (nextTypeID + 1) % UINT32;
      return true;
    }
  }

  // ---------- the hierarchical registry ----------

  class HierarchyCodec {
    var currentGroupID: nat
    var nextTypeID: nat
    var reg: Registry

    ghost predicate Valid()
      reads this
    {
      currentGroupID < UINT16 && nextTypeID < UINT16 && reg.Valid()
    }

    ghost function Next(): nat
      reads this
    {
      currentGroupID * UINT16 + nextTypeID
    }

    ghost predicate Unwrapped()
      reads this
    {
      forall id :: id in reg.typeOf ==> id < Next()
    }

    constructor (implements: set<(Ty, nat)>)
      ensures Valid() && Unwrapped() && Next() == 0 && reg == Registry(map[], map[], implements)
    {
      currentGroupID := 0;
      nextTypeID := 0;
      reg := Registry(map[], map[], implements);
    }

    method SkipRegistrations(num: int)
      requires Valid()
      modifies `nextTypeID
      ensures Valid() && nextTypeID == (old(nextTypeID) + num) % UINT16
      ensures old(Unwrapped()) && 0 <= num && old(nextTypeID) + num < UINT16 ==> Unwrapped()
    {
      nextTypeID := (nextTypeID + num % UINT16) % UINT16;
    }

    method NextGroup()
      requires Valid()
      modifies `currentGroupID, `nextTypeID
      ensures Valid() && currentGroupID == (old(currentGroupID) + 1) % UINT16 && nextTypeID == 0
      ensures old(Unwrapped()) && old(currentGroupID) + 1 < UINT16 ==> Unwrapped()
    {
      currentGroupID := (currentGroupID + 1) % UINT16;
      nextTypeID := 0;
    }

    method RegisterType(t: Ty) returns (ok: bool)
      requires Valid()
      modifies this
      ensures Valid() && ok == (t !in old(reg.idOf)) && currentGroupID == old(currentGroupID)
      ensures !ok ==> reg == old(reg) && nextTypeID == old(nextTypeID)
      ensures ok ==> reg == Put(old(reg), old(Next()), t) && nextTypeID == (old(nextTypeID) + 1) % UINT16
      ensures ok ==> (Extends(old(reg), reg) <==> old(Next()) !in old(reg.typeOf))
      ensures ok && old(Unwrapped()) ==> Extends(old(reg), reg) && (old(nextTypeID) + 1 < UINT16 ==> Unwrapped())
    {
      if t in reg.idOf { return false; }
      var id := currentGroupID * UINT16 + nextTypeID;
      nextTypeID := (nextTypeID + 1) % UINT16;
      PutExtends(reg, id, t);
      reg := Put(reg, id, t);
      return true;
    }
  }

  /** The two shorts of a hierarchical prefix are the four bytes of the combined number. */
  lemma PrefixBytes(group: nat, id: nat)
    requires group < UINT16 && id < UINT16
    ensures group < Pow256(2) && id < Pow256(2) && group * UINT16 + id < Pow256(4)
    ensures ToBE(group, 2) + ToBE(id, 2) == ToBE(group * UINT16 + id, 4)
  {
    Pow256Values();
    var n := group * UINT16 + id;
    assert Pow256(3) == 0x100_0000;
    assert ToBE(n, 4) == ToBE(n / 256, 3) + [n % 256];
    assert ToBE(n / 256, 3) == ToBE(n / 256 / 256, 2) + [n / 256 % 256];
    assert n / 256 / 256 == group && n / 256 % 256 == id / 256 && n % 256 == id % 256;
    assert ToBE(id, 2) == ToBE(id / 256, 1) + [id % 256];
    assert ToBE(id / 256, 1) == [id / 256];
  }
}
