/**
 The reflection codec: the Go types and values it walks over, the bytes `marshal` produces for a
 value and what `unmarshal` reads back from bytes. `Marshalling`, `Unmarshalling` and `Sizing` hold the
 three walks as they are programmed, the first two over a mutable packer, and tie them to the functions here.
 */
module Codec {
  import opened Results
  import opened Bytes
  import opened KeyOrder

  const MAX_INT32: nat := 0x7FFF_FFFF
  const MAX_STRING_LEN: nat := 0xFFFF
  const BYTE_LEN: nat := 1
  const SHORT_LEN: nat := 2
  const INT_LEN: nat := 4

  datatype Error =
    | MarshalNil
    | MarshalZeroLength
    | UnmarshalZeroLength
    | MaxSliceLenExceeded
    | RecursiveInterfaceTypes
    | UnregisteredType
    | UnknownTypeID
    | DoesNotImplementInterface
    | InsufficientLength
    | InvalidInput
    | BadBool
    | KeysNotSorted
    | UnexportedField
    | UnsupportedKind
    | IllTyped  // no such Go value: the static type rules it out

  type Width = w: nat | w == 1 || w == 2 || w == 4 || w == 8 witness 1

  /** A field of a struct type: whether it carries the codec's tag, and whether it is exported. */
  datatype Field = Field(ty: Ty, tagged: bool, exported: bool)

  /** Go types as finite trees. Interface types are leaves; `Registry` says who implements them. */
  datatype Ty =
    | TInt(signed: bool, width: Width)
    | TBool
    | TString
    | TPtr(elem: Ty)
    | TIface(iface: nat)
    | TSlice(elem: Ty)
    | TArray(len: nat, elem: Ty)
    | TStruct(name: nat, fields: seq<Field>)
    | TMap(key: Ty, value: Ty)
    | TOther(kind: nat)  // floats, channels, functions, ...

  datatype Entry = Entry(key: Val, val: Val)

  /** Go values. A map lists its entries in the order in which `MapKeys` hands them out. */
  datatype Val =
    | VInt(n: int)
    | VBool(b: bool)
    | VStr(s: bytes)
    | VNil  // nil pointer, interface, slice or map
    | VPtr(target: Val)
    | VIface(dynamic: Ty, held: Val)
    | VSeq(vs: seq<Val>)  // elements of a slice or array, fields of a struct
    | VMap(entries: seq<Entry>)
    | VOther(k: nat)

  /** The registered concrete types, as the bimap of type IDs, and the interfaces each implements. */
  datatype Registry = Registry(typeOf: map<nat, Ty>, idOf: map<Ty, nat>, implements: set<(Ty, nat)>) {
    ghost predicate Valid() {
      && (forall id :: id in typeOf ==> id < 0x1_0000_0000 && typeOf[id] in idOf && idOf[typeOf[id]] == id)
      && (forall t :: t in idOf ==> idOf[t] in typeOf && typeOf[idOf[t]] == t)
    }

    function Types(): set<Ty> {
      idOf.Keys
    }
  }

  // ---------- integers ----------

  predicate InRange(signed: bool, w: Width, n: int) {
    if signed then -(Pow256(w) / 2) <= n < Pow256(w) / 2 else 0 <= n < Pow256(w)
  }

  /** The unsigned word that Go's conversion of `n` keeps. */
  function Wrap(w: Width, n: int): (u: nat)
    requires InRange(true, w, n) || InRange(false, w, n)
    ensures u < Pow256(w)
  {
    if n < 0 then n + Pow256(w) else n
  }

  /** Stores an unsigned word in an integer of the given signedness. */
  function Unwrap(signed: bool, w: Width, u: nat): (n: int)
    requires u < Pow256(w)
    ensures InRange(signed, w, n)
  {
    Pow256Values();
    if signed && u >= Pow256(w) / 2 then u - Pow256(w) else u
  }

  lemma UnwrapWrap(signed: bool, w: Width, n: int)
    requires InRange(signed, w, n)
    ensures Unwrap(signed, w, Wrap(w, n)) == n
  {
    Pow256Values();
  }

  lemma WrapUnwrap(signed: bool, w: Width, u: nat)
    requires u < Pow256(w)
    ensures Wrap(w, Unwrap(signed, w, u)) == u
  {
    Pow256Values();
  }

  // ---------- struct fields ----------

  /** `GetSerializedFields` succeeds: no tagged field is unexported. */
  predicate FieldsOk(fields: seq<Field>) {
    forall i :: 0 <= i < |fields| ==> fields[i].tagged ==> fields[i].exported
  }

  /** Go's zero value of a type. */
  function Zero(ty: Ty): Val
    decreases ty
  {
    match ty
    case TInt(_, _) => VInt(0)
    case TBool => VBool(false)
    case TString => VStr([])
    case TArray(n, elem) => var z := Zero(elem); VSeq(seq(n, _ => z))
    case TStruct(_, fields) => VSeq(ZeroFields(fields))
    case TOther(_) => VOther(0)
    case _ => VNil
  }

  function ZeroFields(fields: seq<Field>): (r: seq<Val>)
    ensures |r| == |fields|
    decreases fields
  {
    if fields == [] then [] else
      assert fields decreases to fields[0];
      [Zero(fields[0].ty)] + ZeroFields(fields[1..])
  }

  // ---------- encoding ----------

  /** Elements of a slice value; nil counts as empty. */
  function Elements(v: Val): (vs: Option<seq<Val>>)
    ensures vs.Some? && vs.value != [] ==> v == VSeq(vs.value)
  {
    match v
    case VSeq(vs) => Some(vs)
    case VNil => Some([])
    case _ => None
  }

  function Entries(v: Val): (es: Option<seq<Entry>>)
    ensures es.Some? && es.value != [] ==> v == VMap(es.value)
  {
    match v
    case VMap(es) => Some(es)
    case VNil => Some([])
    case _ => None
  }

  /** The bytes `marshal` appends for `v` of type `ty` below the interface types on `stack`. */
  function Encode(reg: Registry, ty: Ty, v: Val, stack: set<Ty>): (r: Result<bytes, Error>)
    requires reg.Valid()
    decreases v
  {
    match ty
    case TInt(signed, w) =>
      if v.VInt? && InRange(signed, w, v.n) then Ok(ToBE(Wrap(w, v.n), w)) else Err(IllTyped)
    case TBool => if v.VBool? then Ok([if v.b then 1 else 0]) else Err(IllTyped)
    case TString =>
      if !v.VStr? then Err(IllTyped)
      else if |v.s| > MAX_STRING_LEN then Err(InvalidInput)
      else Pow256Values(); Ok(ToBE(|v.s|, SHORT_LEN) + v.s)
    case TPtr(elem) =>
      if v.VNil? then Err(MarshalNil)
      else if v.VPtr? then Encode(reg, elem, v.target, stack)
      else Err(IllTyped)
    case TIface(i) =>
      if v.VNil? then Err(MarshalNil)
      else if !v.VIface? || (v.dynamic, i) !in reg.implements then Err(IllTyped)
      else if v.dynamic in stack then Err(RecursiveInterfaceTypes)
      else if v.dynamic !in reg.idOf then Err(UnregisteredType)
      else
        Pow256Values();
        var id := reg.idOf[v.dynamic];
        assert reg.typeOf[id] == v.dynamic;
        var b :- Encode(reg, v.dynamic, v.held, stack + {v.dynamic});
        Ok(ToBE(id, INT_LEN) + b)
    case TSlice(elem) =>
      var vs := Elements(v);
      if vs.None? then Err(IllTyped)
      else if |vs.value| > MAX_INT32 then Err(MaxSliceLenExceeded)
      else if vs.value == [] then Ok(ToBE(0, INT_LEN))
      else
        Pow256Values();
        var b :- EncodeElems(reg, elem, vs.value, stack, true);
        Ok(ToBE(|vs.value|, INT_LEN) + b)
    case TArray(n, elem) =>
      if v.VSeq? && |v.vs| == n then EncodeElems(reg, elem, v.vs, stack, false) else Err(IllTyped)
    case TStruct(_, fields) =>
      if !v.VSeq? || |v.vs| != |fields| then Err(IllTyped)
      else if !FieldsOk(fields) then Err(UnexportedField)
      else EncodeFields(reg, fields, v.vs, stack)
    case TMap(kt, vt) =>
      var es := Entries(v);
      if es.None? then Err(IllTyped)
      else if |es.value| > MAX_INT32 then Err(MaxSliceLenExceeded)
      else if es.value == [] then Ok(ToBE(0, INT_LEN))
      else
        Pow256Values();
        var keys :- EncodeKeys(reg, kt, es.value, stack);
        var vals := EncodeVals(reg, vt, es.value, stack);
        var b :- Flatten(Permute(keys, Order(keys)), Permute(vals, Order(keys)));
        Ok(ToBE(|es.value|, INT_LEN) + b)
    case TOther(_) => Err(UnsupportedKind)
  }

  /** Elements one after the other; in a slice (`nonZero`) each must take at least one byte. */
  function EncodeElems(reg: Registry, elem: Ty, vs: seq<Val>, stack: set<Ty>, nonZero: bool): (r: Result<bytes, Error>)
    requires reg.Valid()
    decreases vs
  {
    if vs == [] then Ok([]) else
      var b :- Encode(reg, elem, vs[0], stack);
      if nonZero && b == [] then Err(MarshalZeroLength) else
      var rest :- EncodeElems(reg, elem, vs[1..], stack, nonZero);
      Ok(b + rest)
  }

  function EncodeFields(reg: Registry, fields: seq<Field>, vs: seq<Val>, stack: set<Ty>): (r: Result<bytes, Error>)
    requires reg.Valid() && |vs| == |fields|
    decreases vs
  {
    if vs == [] then Ok([])
    else if !fields[0].tagged then EncodeFields(reg, fields[1..], vs[1..], stack)
    else
      var b :- Encode(reg, fields[0].ty, vs[0], stack);
      var rest :- EncodeFields(reg, fields[1..], vs[1..], stack);
      Ok(b + rest)
  }

  function EncodeKeys(reg: Registry, kt: Ty, es: seq<Entry>, stack: set<Ty>): (r: Result<seq<bytes>, Error>)
    requires reg.Valid()
    ensures r.Ok? ==> |r.value| == |es|
    decreases es
  {
    if es == [] then Ok([]) else
      assert es decreases to es[0];
      var k :- Encode(reg, kt, es[0].key, stack);
      var rest :- EncodeKeys(reg, kt, es[1..], stack);
      Ok([k] + rest)
  }

  function EncodeVals(reg: Registry, vt: Ty, es: seq<Entry>, stack: set<Ty>): (r: seq<Result<bytes, Error>>)
    requires reg.Valid()
    ensures |r| == |es|
    decreases es
  {
    if es == [] then [] else
      assert es decreases to es[0];
      [Encode(reg, vt, es[0].val, stack)] + EncodeVals(reg, vt, es[1..], stack)
  }

  /** Key and value bytes of the sorted entries, up to the first value that cannot be written. */
  function Flatten(keys: seq<bytes>, vals: seq<Result<bytes, Error>>): (r: Result<bytes, Error>)
    requires |keys| == |vals|
  {
    if keys == [] then Ok([]) else
      var v :- vals[0];
      if keys[0] + v == [] then Err(MarshalZeroLength) else
      var rest :- Flatten(keys[1..], vals[1..]);
      Ok(keys[0] + v + rest)
  }

  // ---------- decoding ----------

  datatype Read<T> = Read(val: T, used: nat)

  /** What `unmarshal` reads into a fresh value of type `ty` from the front of `s`. */
  function Decode(reg: Registry, ty: Ty, s: bytes, stack: set<Ty>): (r: Result<Read<Val>, Error>)
    requires reg.Valid()
    ensures r.Ok? ==> r.value.used <= |s|
    decreases |reg.Types() - stack|, ty
  {
    match ty
    case TInt(signed, w) =>
      if |s| < w then Err(InsufficientLength)
      else Ok(Read(VInt(Unwrap(signed, w, FromBE(s[..w]))), w))
    case TBool =>
      if |s| < 1 then Err(InsufficientLength)
      else if s[0] > 1 then Err(BadBool)
      else Ok(Read(VBool(s[0] == 1), BYTE_LEN))
    case TString =>
      if |s| < 2 then Err(InsufficientLength)
      else
        var n := FromBE(s[..2]);
        if |s| < 2 + n then Err(InsufficientLength) else Ok(Read(VStr(s[2..2 + n]), 2 + n))
    case TPtr(elem) =>
      var x :- Decode(reg, elem, s, stack);
      Ok(Read(VPtr(x.val), x.used))
    case TIface(i) =>
      var t :- DecodePrefix(reg, i, s);
      if t in stack then Err(RecursiveInterfaceTypes)
      else
        StackGrows(reg, t, stack);
        var x :- Decode(reg, t, s[4..], stack + {t});
        Ok(Read(VIface(t, x.val), 4 + x.used))
    case TSlice(_) =>
      var n :- DecodeCount(s);
      var x :- DecodeElems(reg, ty, n, s[4..], stack);
      Ok(Read(VSeq(x.val), 4 + x.used))
    case TArray(n, _) =>
      var x :- DecodeElems(reg, ty, n, s, stack);
      Ok(Read(VSeq(x.val), x.used))
    case TStruct(_, fields) =>
      if !FieldsOk(fields) then Err(UnexportedField)
      else
        var x :- DecodeFields(reg, fields, s, stack);
        Ok(Read(VSeq(x.val), x.used))
    case TMap(_, _) =>
      var n :- DecodeCount(s);
      var x :- DecodeEntries(reg, ty, n, s[4..], stack, None);
      Ok(Read(VMap(x.val), 4 + x.used))
    case TOther(_) => Err(UnsupportedKind)
  }

  /** `UnpackPrefix`: the registered type named by the first four bytes. */
  function DecodePrefix(reg: Registry, iface: nat, s: bytes): (r: Result<Ty, Error>)
    requires reg.Valid()
    ensures r.Ok? ==> |s| >= 4 && r.value in reg.idOf && (r.value, iface) in reg.implements
    ensures r.Ok? ==> s[..4] == ToBE(reg.idOf[r.value], 4)
  {
    if |s| < 4 then Err(InsufficientLength)
    else
      var id := FromBE(s[..4]);
      ToBEFromBE(s[..4]);
      if id !in reg.typeOf then Err(UnknownTypeID)
      else if (reg.typeOf[id], iface) !in reg.implements then Err(DoesNotImplementInterface)
      else Ok(reg.typeOf[id])
  }

  /** The element count in front of a slice or map. */
  function DecodeCount(s: bytes): (r: Result<nat, Error>)
    ensures r.Ok? ==> |s| >= 4 && r.value <= MAX_INT32 && r.value < Pow256(4) && s[..4] == ToBE(r.value, 4)
  {
    if |s| < 4 then Err(InsufficientLength)
    else
      ToBEFromBE(s[..4]);
      var n := FromBE(s[..4]);
      if n > MAX_INT32 then Err(MaxSliceLenExceeded) else Ok(n)
  }

  /** `n` elements of the slice or array type `ty`. */
  function DecodeElems(reg: Registry, ty: Ty, n: nat, s: bytes, stack: set<Ty>): (r: Result<Read<seq<Val>>, Error>)
    requires reg.Valid() && (ty.TSlice? || ty.TArray?)
    ensures r.Ok? ==> r.value.used <= |s| && |r.value.val| == n
    decreases |reg.Types() - stack|, ty, n
  {
    if n == 0 then Ok(Read([], 0)) else
      var x :- Decode(reg, ty.elem, s, stack);
      if ty.TSlice? && x.used == 0 then Err(UnmarshalZeroLength) else
      var rest :- DecodeElems(reg, ty, n - 1, s[x.used..], stack);
      Ok(Read([x.val] + rest.val, x.used + rest.used))
  }

  function DecodeFields(reg: Registry, fields: seq<Field>, s: bytes, stack: set<Ty>): (r: Result<Read<seq<Val>>, Error>)
    requires reg.Valid()
    ensures r.Ok? ==> r.value.used <= |s| && |r.value.val| == |fields|
    decreases |reg.Types() - stack|, fields
  {
    if fields == [] then Ok(Read([], 0))
    else if !fields[0].tagged then
      var rest :- DecodeFields(reg, fields[1..], s, stack);
      Ok(Read([Zero(fields[0].ty)] + rest.val, rest.used))
    else
      assert fields decreases to fields[0];
      var x :- Decode(reg, fields[0].ty, s, stack);
      var rest :- DecodeFields(reg, fields[1..], s[x.used..], stack);
      Ok(Read([x.val] + rest.val, x.used + rest.used))
  }

  /** `n` entries of the map type `ty`, whose key bytes must rise strictly from `prev` on. */
  function DecodeEntries(reg: Registry, ty: Ty, n: nat, s: bytes, stack: set<Ty>, prev: Option<bytes>)
    : (r: Result<Read<seq<Entry>>, Error>)
    requires reg.Valid() && ty.TMap?
    ensures r.Ok? ==> r.value.used <= |s| && |r.value.val| == n
    decreases |reg.Types() - stack|, ty, n
  {
    if n == 0 then Ok(Read([], 0)) else
      var k :- Decode(reg, ty.key, s, stack);
      if prev.Some? && !Less(prev.value, s[..k.used]) then Err(KeysNotSorted) else
      var v :- Decode(reg, ty.value, s[k.used..], stack);
      if k.used + v.used == 0 then Err(UnmarshalZeroLength) else
      var rest :- DecodeEntries(reg, ty, n - 1, s[k.used + v.used..], stack, Some(s[..k.used]));
      Ok(Read([Entry(k.val, v.val)] + rest.val, k.used + v.used + rest.used))
  }

  /** Each interface entered takes one registered type off those still allowed. */
  lemma StackGrows(reg: Registry, t: Ty, stack: set<Ty>)
    requires t in reg.Types() && t !in stack
    ensures |reg.Types() - (stack + {t})| < |reg.Types() - stack|
  {
    assert reg.Types() - (stack + {t}) == (reg.Types() - stack) - {t};
  }
}
