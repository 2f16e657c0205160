/**
 Which values marshal at all, told from the types and the values alone, and why the others do not.
 */
module Encodable {
  import opened Results
  import opened Bytes
  import opened KeyOrder
  import opened Codec
  import opened RoundTrip

  /** A value that is written as no bytes: arrays of nothing, structs without serialized data, pointers to such. */
  predicate TakesNothing(ty: Ty, v: Val)
    decreases v
  {
    match ty
    case TPtr(elem) => v.VPtr? && TakesNothing(elem, v.target)
    case TArray(_, elem) => v.VSeq? && forall i :: 0 <= i < |v.vs| ==> TakesNothing(elem, v.vs[i])
    case TStruct(_, fields) =>
      && v.VSeq?
      && forall i :: 0 <= i < |v.vs| && i < |fields| && fields[i].tagged ==> TakesNothing(fields[i].ty, v.vs[i])
    case _ => false
  }

  /** A value that marshals. */
  ghost predicate Marshals(reg: Registry, ty: Ty, v: Val, stack: set<Ty>)
    decreases v
  {
    match ty
    case TInt(signed, w) => v.VInt? && InRange(signed, w, v.n)
    case TBool => v.VBool?
    case TString => v.VStr? && |v.s| <= 0xFFFF
    case TPtr(elem) => v.VPtr? && Marshals(reg, elem, v.target, stack)
    case TIface(i) =>
      && v.VIface? && (v.dynamic, i) in reg.implements && v.dynamic in reg.idOf && v.dynamic !in stack
      && Marshals(reg, v.dynamic, v.held, stack + {v.dynamic})
    case TSlice(elem) =>
      || v.VNil?
      || (v.VSeq? && |v.vs| <= 0x7FFF_FFFF &&
          forall i :: 0 <= i < |v.vs| ==> Marshals(reg, elem, v.vs[i], stack) && !TakesNothing(elem, v.vs[i]))
    case TArray(n, elem) => v.VSeq? && |v.vs| == n && forall i :: 0 <= i < n ==> Marshals(reg, elem, v.vs[i], stack)
    case TStruct(_, fields) =>
      && v.VSeq? && |v.vs| == |fields|
      && (forall i :: 0 <= i < |fields| && fields[i].tagged ==> fields[i].exported)
      && (forall i :: 0 <= i < |fields| && fields[i].tagged ==> Marshals(reg, fields[i].ty, v.vs[i], stack))
    case TMap(kt, vt) =>
      || v.VNil?
      || (v.VMap? && |v.entries| <= 0x7FFF_FFFF &&
          forall i :: 0 <= i < |v.entries| ==> MarshalsEntry(reg, kt, vt, v.entries[i], stack))
    case TOther(_) => false
  }

  ghost predicate MarshalsEntry(reg: Registry, kt: Ty, vt: Ty, e: Entry, stack: set<Ty>)
    decreases e
  {
    && Marshals(reg, kt, e.key, stack) && Marshals(reg, vt, e.val, stack)
    && !(TakesNothing(kt, e.key) && TakesNothing(vt, e.val))
  }

  // ---------- empty encodings ----------

  /** The values written as no bytes are those. */
  lemma {:induction false} EmptyIff(reg: Registry, ty: Ty, v: Val, stack: set<Ty>)
    requires Encodes(reg, ty, v, stack)
    ensures Encode(reg, ty, v, stack).value == [] <==> TakesNothing(ty, v)
    decreases v
  {
    match ty
    case TPtr(elem) => EmptyIff(reg, elem, v.target, stack);
    case TArray(_, elem) => EmptyElems(reg, elem, v.vs, stack);
    case TStruct(_, fields) => EmptyFields(reg, fields, v.vs, stack);
    case _ =>
  }

  lemma {:induction false} EmptyElems(reg: Registry, elem: Ty, vs: seq<Val>, stack: set<Ty>)
    requires reg.Valid() && EncodeElems(reg, elem, vs, stack, false).Ok?
    ensures EncodeElems(reg, elem, vs, stack, false).value == [] <==>
            forall i :: 0 <= i < |vs| ==> TakesNothing(elem, vs[i])
    decreases vs
  {
    hide Encode, Registry.Valid, TakesNothing;
    if vs != [] {
      EmptyIff(reg, elem, vs[0], stack);
      EmptyElems(reg, elem, vs[1..], stack);
      assert forall i :: 0 < i < |vs| ==> vs[i] == vs[1..][i - 1];
      assert forall i :: 0 <= i < |vs[1..]| ==> vs[1..][i] == vs[i + 1];
    }
  }

  lemma {:induction false} EmptyFields(reg: Registry, fields: seq<Field>, vs: seq<Val>, stack: set<Ty>)
    requires reg.Valid() && |vs| == |fields| && EncodeFields(reg, fields, vs, stack).Ok?
    ensures EncodeFields(reg, fields, vs, stack).value == [] <==>
            forall i :: 0 <= i < |vs| && fields[i].tagged ==> TakesNothing(fields[i].ty, vs[i])
    decreases vs
  {
    hide Encode, Registry.Valid, TakesNothing;
    if vs != [] {
      if fields[0].tagged { EmptyIff(reg, fields[0].ty, vs[0], stack); }
      EmptyFields(reg, fields[1..], vs[1..], stack);
      assert forall i :: 0 < i < |vs| ==> vs[i] == vs[1..][i - 1] && fields[i] == fields[1..][i - 1];
      assert forall i :: 0 <= i < |vs[1..]| ==> vs[1..][i] == vs[i + 1] && fields[1..][i] == fields[i + 1];
    }
  }

  // ---------- which values marshal ----------

  lemma {:induction false} EncodesIff(reg: Registry, ty: Ty, v: Val, stack: set<Ty>)
    requires reg.Valid()
    ensures Encode(reg, ty, v, stack).Ok? <==> Marshals(reg, ty, v, stack)
    decreases v
  {
    hide Registry.Valid, EncodeElems, EncodeFields, EncodeKeys, EncodeVals, Flatten, Order, TakesNothing, InRange;
    match ty
    case TPtr(elem) => if v.VPtr? { EncodesIff(reg, elem, v.target, stack); }
    case TIface(_) => if v.VIface? { EncodesIff(reg, v.dynamic, v.held, stack + {v.dynamic}); }
    case TSlice(elem) => if v.VSeq? { ElemsIff(reg, elem, v.vs, stack, true); }
    case TArray(_, elem) => if v.VSeq? { ElemsIff(reg, elem, v.vs, stack, false); }
    case TStruct(_, fields) => if v.VSeq? && |v.vs| == |fields| { FieldsIff(reg, fields, v.vs, stack); }
    case TMap(_, _) => if v.VMap? && v.entries != [] { MapIff(reg, ty, v, stack); }
    case _ =>
  }

  lemma {:induction false} ElemsIff(reg: Registry, elem: Ty, vs: seq<Val>, stack: set<Ty>, nonZero: bool)
    requires reg.Valid()
    ensures EncodeElems(reg, elem, vs, stack, nonZero).Ok? <==>
            forall i :: 0 <= i < |vs| ==>
              Marshals(reg, elem, vs[i], stack) && (nonZero ==> !TakesNothing(elem, vs[i]))
    decreases vs
  {
    hide Encode, Registry.Valid, TakesNothing, Marshals;
    if vs != [] {
      EncodesIff(reg, elem, vs[0], stack);
      if Encode(reg, elem, vs[0], stack).Ok? { EmptyIff(reg, elem, vs[0], stack); }
      ElemsIff(reg, elem, vs[1..], stack, nonZero);
      assert forall i :: 0 < i < |vs| ==> vs[i] == vs[1..][i - 1];
      assert forall i :: 0 <= i < |vs[1..]| ==> vs[1..][i] == vs[i + 1];
    }
  }

  lemma {:induction false} FieldsIff(reg: Registry, fields: seq<Field>, vs: seq<Val>, stack: set<Ty>)
    requires reg.Valid() && |vs| == |fields|
    ensures EncodeFields(reg, fields, vs, stack).Ok? <==>
            forall i :: 0 <= i < |vs| && fields[i].tagged ==> Marshals(reg, fields[i].ty, vs[i], stack)
    decreases vs
  {
    hide Encode, Registry.Valid, Marshals;
    if vs != [] {
      if fields[0].tagged { EncodesIff(reg, fields[0].ty, vs[0], stack); }
      FieldsIff(reg, fields[1..], vs[1..], stack);
      assert forall i :: 0 < i < |vs| ==> vs[i] == vs[1..][i - 1] && fields[i] == fields[1..][i - 1];
      assert forall i :: 0 <= i < |vs[1..]| ==> vs[1..][i] == vs[i + 1] && fields[1..][i] == fields[i + 1];
    }
  }

  lemma {:induction false} KeysIff(reg: Registry, kt: Ty, es: seq<Entry>, stack: set<Ty>)
    requires reg.Valid()
    ensures EncodeKeys(reg, kt, es, stack).Ok? <==>
            forall i :: 0 <= i < |es| ==> Marshals(reg, kt, es[i].key, stack)
    decreases es, 0
  {
    hide Encode, Registry.Valid, Marshals;
    if es != [] {
      assert es decreases to es[0];
      EncodesIff(reg, kt, es[0].key, stack);
      KeysIff(reg, kt, es[1..], stack);
      assert forall i :: 0 < i < |es| ==> es[i] == es[1..][i - 1];
      assert forall i :: 0 <= i < |es[1..]| ==> es[1..][i] == es[i + 1];
    }
  }

  lemma {:induction false} FlattenIff(keys: seq<bytes>, vals: seq<Result<bytes, Error>>)
    requires |keys| == |vals|
    ensures Flatten(keys, vals).Ok? <==> forall i :: 0 <= i < |keys| ==> vals[i].Ok? && keys[i] + vals[i].value != []
  {
    if keys != [] {
      FlattenIff(keys[1..], vals[1..]);
      assert forall i :: 0 < i < |keys| ==> keys[i] == keys[1..][i - 1] && vals[i] == vals[1..][i - 1];
      assert forall i :: 0 <= i < |keys[1..]| ==> keys[1..][i] == keys[i + 1] && vals[1..][i] == vals[i + 1];
    }
  }

  /** One entry of a map whose keys marshal. */
  lemma {:induction false} EntryIff(reg: Registry, ty: Ty, es: seq<Entry>, stack: set<Ty>, i: nat)
    requires reg.Valid() && ty.TMap? && i < |es| && EncodeKeys(reg, ty.key, es, stack).Ok?
    ensures var k, v := EncodeKeys(reg, ty.key, es, stack).value[i], EncodeVals(reg, ty.value, es, stack)[i];
            v.Ok? && k + v.value != [] <==> MarshalsEntry(reg, ty.key, ty.value, es[i], stack)
    decreases es, 0
  {
    hide Encode, Registry.Valid, Marshals, TakesNothing;
    assert es decreases to es[i];
    EncodeKeysAt(reg, ty.key, es, stack, i);
    EncodeValsAt(reg, ty.value, es, stack, i);
    EncodesIff(reg, ty.key, es[i].key, stack);
    EncodesIff(reg, ty.value, es[i].val, stack);
    EmptyIff(reg, ty.key, es[i].key, stack);
    if Encode(reg, ty.value, es[i].val, stack).Ok? { EmptyIff(reg, ty.value, es[i].val, stack); }
  }

  lemma {:induction false} MapIff(reg: Registry, ty: Ty, v: Val, stack: set<Ty>)
    requires reg.Valid() && ty.TMap? && v.VMap? && v.entries != []
    ensures Encode(reg, ty, v, stack).Ok? <==> Marshals(reg, ty, v, stack)
    decreases v, 0
  {
    var es := v.entries;
    KeysIff(reg, ty.key, es, stack);
    hide Registry.Valid, EncodeKeys, EncodeVals, Flatten, Order, TakesNothing;
    if EncodeKeys(reg, ty.key, es, stack).Ok? {
      SortedIff(reg, ty, es, stack);
    }
  }

  /** Whether the sorted entries can be written does not depend on the sorting. */
  lemma {:induction false} SortedIff(reg: Registry, ty: Ty, es: seq<Entry>, stack: set<Ty>)
    requires reg.Valid() && ty.TMap? && EncodeKeys(reg, ty.key, es, stack).Ok?
    ensures var keys, vals := EncodeKeys(reg, ty.key, es, stack).value, EncodeVals(reg, ty.value, es, stack);
            Flatten(Permute(keys, Order(keys)), Permute(vals, Order(keys))).Ok? <==>
            forall i :: 0 <= i < |es| ==> MarshalsEntry(reg, ty.key, ty.value, es[i], stack)
    decreases es, 1
  {
    hide Registry.Valid, EncodeKeys, EncodeVals, Flatten, Order, MarshalsEntry;
    var keys, vals := EncodeKeys(reg, ty.key, es, stack).value, EncodeVals(reg, ty.value, es, stack);
    var o := Order(keys);
    OrderSorts(keys);
    FlattenIff(Permute(keys, o), Permute(vals, o));
    forall i | 0 <= i < |es|
      ensures vals[i].Ok? && keys[i] + vals[i].value != [] <==> MarshalsEntry(reg, ty.key, ty.value, es[i], stack)
    {
      EntryIff(reg, ty, es, stack, i);
    }
    if Flatten(Permute(keys, o), Permute(vals, o)).Ok? {
      forall i | 0 <= i < |es| ensures MarshalsEntry(reg, ty.key, ty.value, es[i], stack) {
        assert i in o;
        var j :| 0 <= j < |o| && o[j] == i;
        assert Permute(keys, o)[j] == keys[i] && Permute(vals, o)[j] == vals[i];
      }
    }
    if forall i :: 0 <= i < |es| ==> MarshalsEntry(reg, ty.key, ty.value, es[i], stack) {
      forall j | 0 <= j < |o| ensures Permute(vals, o)[j].Ok? && Permute(keys, o)[j] + Permute(vals, o)[j].value != [] {
        assert MarshalsEntry(reg, ty.key, ty.value, es[o[j]], stack);
      }
    }
  }

  /** A nil slice and a nil map are written as the count of nothing. */
  lemma NilIsEmpty(reg: Registry, elem: Ty, kt: Ty, vt: Ty, stack: set<Ty>)
    requires reg.Valid()
    ensures Encode(reg, TSlice(elem), VNil, stack) == Ok([0, 0, 0, 0])
    ensures Encode(reg, TMap(kt, vt), VNil, stack) == Ok([0, 0, 0, 0])
  {
    assert ToBE(0, 1) == [0] && ToBE(0, 2) == [0, 0] && ToBE(0, 3) == [0, 0, 0] && ToBE(0, 4) == [0, 0, 0, 0];
  }

  // ---------- why a value does not marshal ----------

  /** What is wrong with this value itself, whatever it holds. */
  ghost predicate WrongHere(reg: Registry, ty: Ty, v: Val, stack: set<Ty>, x: Error) {
    match x
    case MarshalNil => (ty.TPtr? || ty.TIface?) && v.VNil?
    case InvalidInput => ty.TString? && v.VStr? && |v.s| > 0xFFFF
    case RecursiveInterfaceTypes => ty.TIface? && v.VIface? && v.dynamic in stack
    case UnregisteredType => ty.TIface? && v.VIface? && v.dynamic !in stack && v.dynamic !in reg.idOf
    case MaxSliceLenExceeded =>
      (ty.TSlice? && v.VSeq? && |v.vs| > 0x7FFF_FFFF) || (ty.TMap? && v.VMap? && |v.entries| > 0x7FFF_FFFF)
    case MarshalZeroLength =>
      || (ty.TSlice? && v.VSeq? && exists i :: 0 <= i < |v.vs| && TakesNothing(ty.elem, v.vs[i]))
      || (ty.TMap? && v.VMap? && exists i :: 0 <= i < |v.entries| && TakesNothing(ty.key, v.entries[i].key)
                                             && TakesNothing(ty.value, v.entries[i].val))
    case UnexportedField =>
      ty.TStruct? && exists i :: 0 <= i < |ty.fields| && ty.fields[i].tagged && !ty.fields[i].exported
    case UnsupportedKind => ty.TOther?
    case IllTyped => !Fits(reg, ty, v)
    case _ => false
  }

  /** The value is one of its type, as far as its own shape goes; every value of a Go program is. */
  predicate Fits(reg: Registry, ty: Ty, v: Val) {
    match ty
    case TInt(signed, w) => v.VInt? && InRange(signed, w, v.n)
    case TBool => v.VBool?
    case TString => v.VStr?
    case TPtr(_) => v.VNil? || v.VPtr?
    case TIface(i) => v.VNil? || (v.VIface? && (v.dynamic, i) in reg.implements)
    case TSlice(_) => v.VNil? || v.VSeq?
    case TArray(n, _) => v.VSeq? && |v.vs| == n
    case TStruct(_, fields) => v.VSeq? && |v.vs| == |fields|
    case TMap(_, _) => v.VNil? || v.VMap?
    case TOther(_) => true
  }

  /** Somewhere in the value, in what is serialized of it, this is wrong. */
  ghost predicate Wrong(reg: Registry, ty: Ty, v: Val, stack: set<Ty>, x: Error)
    decreases v
  {
    || WrongHere(reg, ty, v, stack, x)
    || match ty
       case TPtr(elem) => v.VPtr? && Wrong(reg, elem, v.target, stack, x)
       case TIface(_) => v.VIface? && Wrong(reg, v.dynamic, v.held, stack + {v.dynamic}, x)
       case TSlice(elem) => v.VSeq? && exists i :: 0 <= i < |v.vs| && Wrong(reg, elem, v.vs[i], stack, x)
       case TArray(_, elem) => v.VSeq? && exists i :: 0 <= i < |v.vs| && Wrong(reg, elem, v.vs[i], stack, x)
       case TStruct(_, fields) =>
         v.VSeq? &&
         exists i :: 0 <= i < |v.vs| && i < |fields| && fields[i].tagged && Wrong(reg, fields[i].ty, v.vs[i], stack, x)
       case TMap(kt, vt) =>
         v.VMap? && exists i :: 0 <= i < |v.entries| && WrongEntry(reg, kt, vt, v.entries[i], stack, x)
       case _ => false
  }

  ghost predicate WrongEntry(reg: Registry, kt: Ty, vt: Ty, e: Entry, stack: set<Ty>, x: Error)
    decreases e
  {
    Wrong(reg, kt, e.key, stack, x) || Wrong(reg, vt, e.val, stack, x)
  }

  /** The error is about something that is wrong with the value. */
  lemma {:induction false} ErrorIsReason(reg: Registry, ty: Ty, v: Val, stack: set<Ty>)
    requires reg.Valid() && Encode(reg, ty, v, stack).Err?
    ensures Wrong(reg, ty, v, stack, Encode(reg, ty, v, stack).error)
    decreases v
  {
    hide Registry.Valid, EncodeElems, EncodeFields, EncodeKeys, EncodeVals, Flatten, Order, TakesNothing, InRange;
    match ty
    case TPtr(elem) => if v.VPtr? { ErrorIsReason(reg, elem, v.target, stack); }
    case TIface(i) =>
      if v.VIface? && (v.dynamic, i) in reg.implements && v.dynamic !in stack && v.dynamic in reg.idOf {
        ErrorIsReason(reg, v.dynamic, v.held, stack + {v.dynamic});
      }
    case TSlice(elem) =>
      if v.VSeq? && |v.vs| <= MAX_INT32 && v.vs != [] { var i := ElemsReason(reg, elem, v.vs, stack, true); }
    case TArray(n, elem) => if v.VSeq? && |v.vs| == n { var i := ElemsReason(reg, elem, v.vs, stack, false); }
    case TStruct(_, fields) =>
      if v.VSeq? && |v.vs| == |fields| && FieldsOk(fields) { var i := FieldsReason(reg, fields, v.vs, stack); }
    case TMap(_, _) => if v.VMap? && |v.entries| <= MAX_INT32 && v.entries != [] { MapReason(reg, ty, v, stack); }
    case _ =>
  }

  lemma {:induction false} ElemsReason(reg: Registry, elem: Ty, vs: seq<Val>, stack: set<Ty>, nonZero: bool)
    returns (i: nat)
    requires reg.Valid() && EncodeElems(reg, elem, vs, stack, nonZero).Err?
    ensures i < |vs|
    ensures var x := EncodeElems(reg, elem, vs, stack, nonZero).error;
            Wrong(reg, elem, vs[i], stack, x) || (nonZero && x == MarshalZeroLength && TakesNothing(elem, vs[i]))
    decreases vs
  {
    hide Encode, Registry.Valid, TakesNothing, Wrong;
    var d := Encode(reg, elem, vs[0], stack);
    i := 0;
    if d.Err? {
      ErrorIsReason(reg, elem, vs[0], stack);
    } else if nonZero && d.value == [] {
      EmptyIff(reg, elem, vs[0], stack);
    } else {
      i := ElemsReason(reg, elem, vs[1..], stack, nonZero);
      i := i + 1;
    }
  }

  lemma {:induction false} FieldsReason(reg: Registry, fields: seq<Field>, vs: seq<Val>, stack: set<Ty>)
    returns (i: nat)
    requires reg.Valid() && |vs| == |fields| && EncodeFields(reg, fields, vs, stack).Err?
    ensures i < |vs| && fields[i].tagged
    ensures Wrong(reg, fields[i].ty, vs[i], stack, EncodeFields(reg, fields, vs, stack).error)
    decreases vs
  {
    hide Encode, Registry.Valid, Wrong;
    i := 0;
    if fields[0].tagged && Encode(reg, fields[0].ty, vs[0], stack).Err? {
      ErrorIsReason(reg, fields[0].ty, vs[0], stack);
    } else {
      i := FieldsReason(reg, fields[1..], vs[1..], stack);
      i := i + 1;
    }
  }

  lemma {:induction false} KeysReason(reg: Registry, kt: Ty, es: seq<Entry>, stack: set<Ty>) returns (i: nat)
    requires reg.Valid() && EncodeKeys(reg, kt, es, stack).Err?
    ensures i < |es| && Wrong(reg, kt, es[i].key, stack, EncodeKeys(reg, kt, es, stack).error)
    decreases es, 0
  {
    hide Encode, Registry.Valid, Wrong;
    assert es decreases to es[0];
    i := 0;
    if Encode(reg, kt, es[0].key, stack).Err? {
      ErrorIsReason(reg, kt, es[0].key, stack);
    } else {
      i := KeysReason(reg, kt, es[1..], stack);
      i := i + 1;
    }
  }

  lemma {:induction false} FlattenReason(keys: seq<bytes>, vals: seq<Result<bytes, Error>>) returns (i: nat)
    requires |keys| == |vals| && Flatten(keys, vals).Err?
    ensures i < |keys|
    ensures vals[i] == Flatten(keys, vals) ||
            (vals[i].Ok? && keys[i] + vals[i].value == [] && Flatten(keys, vals) == Err(MarshalZeroLength))
  {
    i := 0;
    if vals[0].Ok? && keys[0] + vals[0].value != [] {
      i := FlattenReason(keys[1..], vals[1..]);
      i := i + 1;
    }
  }

  lemma {:induction false} MapReason(reg: Registry, ty: Ty, v: Val, stack: set<Ty>)
    requires reg.Valid() && ty.TMap? && v.VMap? && |v.entries| <= MAX_INT32 && v.entries != []
    requires Encode(reg, ty, v, stack).Err?
    ensures Wrong(reg, ty, v, stack, Encode(reg, ty, v, stack).error)
    decreases v, 0
  {
    var es := v.entries;
    hide Registry.Valid, EncodeKeys, EncodeVals, Flatten, Order, TakesNothing;
    if EncodeKeys(reg, ty.key, es, stack).Err? {
      var i := KeysReason(reg, ty.key, es, stack);
      assert WrongEntry(reg, ty.key, ty.value, es[i], stack, Encode(reg, ty, v, stack).error);
    } else {
      var i := EntryReason(reg, ty, es, stack);
    }
  }

  /** Which entry is to blame, when the keys can be written. */
  lemma {:induction false} EntryReason(reg: Registry, ty: Ty, es: seq<Entry>, stack: set<Ty>) returns (i: nat)
    requires reg.Valid() && ty.TMap? && EncodeKeys(reg, ty.key, es, stack).Ok?
    requires var keys := EncodeKeys(reg, ty.key, es, stack).value;
             Flatten(Permute(keys, Order(keys)), Permute(EncodeVals(reg, ty.value, es, stack), Order(keys))).Err?
    ensures i < |es|
    ensures var keys := EncodeKeys(reg, ty.key, es, stack).value;
            var vals := EncodeVals(reg, ty.value, es, stack);
            var x := Flatten(Permute(keys, Order(keys)), Permute(vals, Order(keys))).error;
            || WrongEntry(reg, ty.key, ty.value, es[i], stack, x)
            || (x == MarshalZeroLength && TakesNothing(ty.key, es[i].key) && TakesNothing(ty.value, es[i].val))
    decreases es, 1
  {
    hide Encode, Registry.Valid, EncodeKeys, EncodeVals, Flatten, Order, Wrong, TakesNothing;
    var keys, vals := EncodeKeys(reg, ty.key, es, stack).value, EncodeVals(reg, ty.value, es, stack);
    var o := Order(keys);
    var j := FlattenReason(Permute(keys, o), Permute(vals, o));
    i := o[j];
    assert es decreases to es[i];
    EncodeKeysAt(reg, ty.key, es, stack, i);
    EncodeValsAt(reg, ty.value, es, stack, i);
    if vals[i].Err? {
      ErrorIsReason(reg, ty.value, es[i].val, stack);
    } else {
      EmptyIff(reg, ty.key, es[i].key, stack);
      EmptyIff(reg, ty.value, es[i].val, stack);
    }
  }
}
