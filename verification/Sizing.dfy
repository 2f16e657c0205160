/** `Size`: how many bytes a value takes, without writing them. */
module Sizing {
  import opened Results
  import opened Bytes
  import opened KeyOrder
  import opened Codec
  import opened RoundTrip
  import opened Marshalling

  /** Whether all values of a type take the same number of bytes. */
  predicate IsConst(ty: Ty) {
    match ty
    case TInt(_, _) => true
    case TBool => true
    case TPtr(elem) => IsConst(elem)
    case TArray(n, elem) => n == 0 || IsConst(elem)
    case TStruct(_, fields) => AllConst(fields)
    case _ => false
  }

  predicate AllConst(fields: seq<Field>) {
    if fields == [] then true else
      assert fields decreases to fields[0];
      (fields[0].tagged ==> IsConst(fields[0].ty)) && AllConst(fields[1..])
  }

  ghost function ConstLen(ty: Ty): nat
    requires IsConst(ty)
    decreases ty
  {
    match ty
    case TInt(_, w) => w
    case TBool => BYTE_LEN
    case TPtr(elem) => ConstLen(elem)
    case TArray(n, elem) => if n == 0 then 0 else n * ConstLen(elem)
    case TStruct(_, fields) => ConstFields(fields)
  }

  ghost function ConstFields(fields: seq<Field>): nat
    requires AllConst(fields)
    decreases fields
  {
    if fields == [] then 0 else
      assert fields decreases to fields[0];
      (if fields[0].tagged then ConstLen(fields[0].ty) else 0) + ConstFields(fields[1..])
  }

  /** A constant size is one: it depends on the type alone. */
  lemma {:induction false} ConstLength(reg: Registry, ty: Ty, v: Val, stack: set<Ty>)
    requires Encodes(reg, ty, v, stack) && IsConst(ty)
    ensures |Encode(reg, ty, v, stack).value| == ConstLen(ty)
    decreases v
  {
    match ty
    case TPtr(elem) => ConstLength(reg, elem, v.target, stack);
    case TArray(n, elem) => if n > 0 { ConstElems(reg, elem, v.vs, stack, false); }
    case TStruct(_, fields) => ConstFieldsLength(reg, fields, v.vs, stack);
    case _ =>
  }

  lemma {:induction false} ConstElems(reg: Registry, elem: Ty, vs: seq<Val>, stack: set<Ty>, nonZero: bool)
    requires reg.Valid() && IsConst(elem) && EncodeElems(reg, elem, vs, stack, nonZero).Ok?
    ensures |EncodeElems(reg, elem, vs, stack, nonZero).value| == |vs| * ConstLen(elem)
    decreases vs
  {
    hide Encode, Registry.Valid, IsConst, ConstLen;
    if vs != [] {
      ConstLength(reg, elem, vs[0], stack);
      ConstElems(reg, elem, vs[1..], stack, nonZero);
      OneMore(|vs|, ConstLen(elem));
    }
  }

  lemma OneMore(n: nat, c: nat)
    requires n > 0
    ensures c + (n - 1) * c == n * c
  {
  }

  lemma {:induction false} ConstFieldsLength(reg: Registry, fields: seq<Field>, vs: seq<Val>, stack: set<Ty>)
    requires reg.Valid() && |vs| == |fields| && AllConst(fields) && EncodeFields(reg, fields, vs, stack).Ok?
    ensures |EncodeFields(reg, fields, vs, stack).value| == ConstFields(fields)
    decreases vs
  {
    hide Encode, Registry.Valid, IsConst, ConstLen;
    if vs != [] {
      if fields[0].tagged {
        ConstLength(reg, fields[0].ty, vs[0], stack);
      }
      ConstFieldsLength(reg, fields[1..], vs[1..], stack);
    }
  }

  lemma {:induction false} ConstConcat(ks: seq<bytes>, c: nat)
    requires forall i :: 0 <= i < |ks| ==> |ks[i]| == c
    ensures |Concat(ks)| == |ks| * c
  {
    if ks != [] {
      ConstConcat(ks[..|ks| - 1], c);
      OneMore(|ks|, c);
    }
  }

  datatype Sized = Sized(size: nat, constant: bool)

  /** `size` and `marshal` agree: the count of bytes is that of the bytes written. */
  ghost predicate Agrees(enc: Result<bytes, Error>, constant: bool, r: Result<Sized, Error>) {
    enc.Ok? ==> r == Ok(Sized(|enc.value|, constant))
  }

  method Size(reg: Registry, ty: Ty, v: Val, stack: set<Ty>) returns (r: Result<Sized, Error>)
    requires reg.Valid()
    ensures Agrees(Encode(reg, ty, v, stack), IsConst(ty), r)
    decreases v
  {
    match ty
    case TInt(_, w) => return Ok(Sized(w, true));
    case TBool => return Ok(Sized(BYTE_LEN, true));
    case TString =>
      if !v.VStr? { return Err(IllTyped); }
      return Ok(Sized(SHORT_LEN + |v.s|, false));
    case TPtr(elem) =>
      if v.VNil? { return Err(MarshalNil); }
      if !v.VPtr? { return Err(IllTyped); }
      r := Size(reg, elem, v.target, stack);
    case TIface(_) =>
      if v.VNil? { return Err(MarshalNil); }
      if !v.VIface? { return Err(IllTyped); }
      if v.dynamic in stack { return Err(RecursiveInterfaceTypes); }
      var inner := Size(reg, v.dynamic, v.held, stack + {v.dynamic});
      if inner.Err? { return inner; }
      return Ok(Sized(INT_LEN + inner.value.size, false));
    case TSlice(elem) =>
      if Elements(v).None? { return Err(IllTyped); }
      if |Elements(v).value| == 0 { return Ok(Sized(INT_LEN, false)); }
      var inner := SizeElems(reg, elem, v.vs, stack, true);
      if inner.Err? { return inner; }
      return Ok(Sized(INT_LEN + inner.value.size, false));
    case TArray(n, elem) =>
      if !v.VSeq? || |v.vs| != n { return Err(IllTyped); }
      if n == 0 { return Ok(Sized(0, true)); }
      r := SizeElems(reg, elem, v.vs, stack, false);
    case TStruct(_, fields) =>
      if !v.VSeq? || |v.vs| != |fields| { return Err(IllTyped); }
      if !FieldsOk(fields) { return Err(UnexportedField); }
      r := SizeFields(reg, fields, v.vs, stack);
    case TMap(_, _) =>
      r := SizeMap(reg, ty, v, stack);
    case TOther(_) =>
      return Err(UnsupportedKind);
  }

  /** Elements of a slice or array: only the first is measured if all have the same size. */
  method SizeElems(reg: Registry, elem: Ty, vs: seq<Val>, stack: set<Ty>, nonZero: bool)
    returns (r: Result<Sized, Error>)
    requires reg.Valid() && vs != []
    ensures Agrees(EncodeElems(reg, elem, vs, stack, nonZero), IsConst(elem), r)
    decreases vs
  {
    hide Encode, Registry.Valid, EncodeElems, IsConst, ConstLen;
    ghost var whole := EncodeElems(reg, elem, vs, stack, nonZero);
    ElemsStart(reg, elem, vs, stack, nonZero);
    ElemsStep(reg, elem, vs, stack, nonZero, 0, []);
    var first := Size(reg, elem, vs[0], stack);
    if first.Err? { return first; }
    var size: nat := first.value.size;
    if nonZero && size == 0 { return Err(MarshalZeroLength); }
    if first.value.constant {
      if whole.Ok? {
        ConstLength(reg, elem, vs[0], stack);
        ConstElems(reg, elem, vs, stack, nonZero);
      }
      return Ok(Sized(|vs| * size, true));
    }
    ghost var done := if whole.Ok? then Encode(reg, elem, vs[0], stack).value else [];
    assert whole.Ok? ==> [] + done == done;
    for i := 1 to |vs|
      invariant whole.Ok? ==> size == |done| && whole == After(done, EncodeElems(reg, elem, vs[i..], stack, nonZero))
    {
      if whole.Ok? {
        ElemsStep(reg, elem, vs, stack, nonZero, i, done);
      }
      var inner := Size(reg, elem, vs[i], stack);
      if inner.Err? { return inner; }
      size := size + inner.value.size;
      done := if whole.Ok? then done + Encode(reg, elem, vs[i], stack).value else [];
    }
    ElemsEnd(reg, elem, vs, stack, nonZero, done);
    return Ok(Sized(size, false));
  }

  method SizeFields(reg: Registry, fields: seq<Field>, vs: seq<Val>, stack: set<Ty>) returns (r: Result<Sized, Error>)
    requires reg.Valid() && |vs| == |fields|
    ensures Agrees(EncodeFields(reg, fields, vs, stack), AllConst(fields), r)
    decreases vs
  {
    hide Encode, Registry.Valid, EncodeFields, IsConst, AllConst;
    ghost var whole := EncodeFields(reg, fields, vs, stack);
    FieldsStart(reg, fields, vs, stack);
    var size: nat, constSize := 0, true;
    ghost var done: bytes := [];
    assert fields[0..] == fields;
    for i := 0 to |vs|
      invariant whole.Ok? ==> size == |done| && whole == After(done, EncodeFields(reg, fields[i..], vs[i..], stack))
      invariant whole.Ok? ==> AllConst(fields) == (constSize && AllConst(fields[i..]))
    {
      if whole.Ok? {
        FieldsStep(reg, fields, vs, stack, i, done);
      }
      AllConstStep(fields, i);
      if fields[i].tagged {
        var inner := Size(reg, fields[i].ty, vs[i], stack);
        if inner.Err? { return inner; }
        size := size + inner.value.size;
        constSize := constSize && inner.value.constant;
        done := if whole.Ok? then done + Encode(reg, fields[i].ty, vs[i], stack).value else [];
      } else {
        assert done + [] == done;
      }
    }
    FieldsEnd(reg, fields, vs, stack, done);
    NoFields();
    assert fields[|vs|..] == [];
    return Ok(Sized(size, constSize));
  }

  lemma AllConstStep(fields: seq<Field>, i: nat)
    requires i < |fields|
    ensures AllConst(fields[i..]) == ((fields[i].tagged ==> IsConst(fields[i].ty)) && AllConst(fields[i + 1..]))
  {
    assert fields[i..][1..] == fields[i + 1..];
  }

  lemma NoFields()
    ensures AllConst([])
  {
  }

  // ---------- maps ----------

  /** The bytes of each key and of each value of a map that marshals. */
  ghost predicate Texted(reg: Registry, ty: Ty, es: seq<Entry>, stack: set<Ty>, keys: seq<bytes>, vals: seq<bytes>)
    requires reg.Valid() && ty.TMap?
  {
    && |keys| == |vals| == |es|
    && forall i :: 0 <= i < |es| ==>
         && Encode(reg, ty.key, es[i].key, stack) == Ok(keys[i])
         && Encode(reg, ty.value, es[i].val, stack) == Ok(vals[i])
         && keys[i] + vals[i] != []
  }

  lemma MapTexted(reg: Registry, ty: Ty, v: Val, stack: set<Ty>) returns (keys: seq<bytes>, vals: seq<bytes>)
    requires ty.TMap? && Encodes(reg, ty, v, stack) && v.VMap? && v.entries != []
    ensures Texted(reg, ty, v.entries, stack, keys, vals)
    ensures |Encode(reg, ty, v, stack).value| == INT_LEN + |Concat(keys)| + |Concat(vals)|
  {
    hide Encode, Registry.Valid, EncodeKeys, EncodeVals, Flatten, Concat;
    UnfoldMapBytes(reg, ty, v, stack);
    var es := v.entries;
    keys := EncodeKeys(reg, ty.key, es, stack).value;
    var rs := EncodeVals(reg, ty.value, es, stack);
    vals := Texts(rs);
    SortedLength(keys, rs);
    var o := Order(keys);
    OrderSorts(keys);
    forall i | 0 <= i < |es|
      ensures Encode(reg, ty.key, es[i].key, stack) == Ok(keys[i])
      ensures Encode(reg, ty.value, es[i].val, stack) == Ok(vals[i]) && keys[i] + vals[i] != []
    {
      EncodeKeysAt(reg, ty.key, es, stack, i);
      EncodeValsAt(reg, ty.value, es, stack, i);
      assert i in o;
      var j :| 0 <= j < |o| && o[j] == i;
      FlattenAllNonZero(Permute(keys, o), Permute(rs, o), j);
    }
  }

  lemma {:induction false} FlattenAllNonZero(keys: seq<bytes>, vals: seq<Result<bytes, Error>>, i: nat)
    requires |keys| == |vals| && Flatten(keys, vals).Ok? && i < |vals|
    ensures vals[i].Ok? && keys[i] + vals[i].value != []
  {
    if i > 0 {
      FlattenAllNonZero(keys[1..], vals[1..], i - 1);
    }
  }

  /** Keys of a constant size need measuring once; likewise values. */
  lemma ConstKeys(reg: Registry, ty: Ty, es: seq<Entry>, stack: set<Ty>, keys: seq<bytes>, vals: seq<bytes>)
    requires reg.Valid() && ty.TMap? && Texted(reg, ty, es, stack, keys, vals) && es != []
    ensures IsConst(ty.key) ==> |Concat(keys)| == |es| * |keys[0]|
    ensures IsConst(ty.value) ==> |Concat(vals)| == |es| * |vals[0]|
  {
    hide Encode, Registry.Valid, IsConst, ConstLen, Concat;
    if IsConst(ty.key) {
      forall i | 0 <= i < |keys| ensures |keys[i]| == ConstLen(ty.key) {
        ConstLength(reg, ty.key, es[i].key, stack);
      }
      ConstConcat(keys, |keys[0]|);
    }
    if IsConst(ty.value) {
      forall i | 0 <= i < |vals| ensures |vals[i]| == ConstLen(ty.value) {
        ConstLength(reg, ty.value, es[i].val, stack);
      }
      ConstConcat(vals, |vals[0]|);
    }
  }

  lemma ConcatNext(ks: seq<bytes>, i: nat)
    requires i < |ks|
    ensures |Concat(ks[..i + 1])| == |Concat(ks[..i])| + |ks[i]|
    ensures Concat(ks[..0]) == [] && Concat(ks[..|ks|]) == Concat(ks)
  {
    assert ks[..i + 1][..i] == ks[..i];
    assert ks[..|ks|] == ks;
  }

  /** The four cases of a map: keys or values of a constant size are measured once and multiplied. */
  method SizeMap(reg: Registry, ty: Ty, v: Val, stack: set<Ty>) returns (r: Result<Sized, Error>)
    requires reg.Valid() && ty.TMap?
    ensures Agrees(Encode(reg, ty, v, stack), IsConst(ty), r)
    decreases v, 0
  {
    if Entries(v).None? { return Err(IllTyped); }
    if |Entries(v).value| == 0 { return Ok(Sized(INT_LEN, false)); }
    var inner := SizeEntries(reg, ty, v.entries, stack, v);
    if inner.Err? { return Err(inner.error); }
    return Ok(Sized(INT_LEN + inner.value, false));
  }

  method SizeEntries(reg: Registry, ty: Ty, es: seq<Entry>, stack: set<Ty>, ghost v: Val)
    returns (r: Result<nat, Error>)
    requires reg.Valid() && ty.TMap? && v == VMap(es) && es != []
    ensures Encode(reg, ty, v, stack).Ok? ==> r == Ok(|Encode(reg, ty, v, stack).value| - INT_LEN)
    decreases es
  {
    hide Encode, Registry.Valid, IsConst, Concat, ConstLen;
    ghost var ok := Encodes(reg, ty, v, stack);
    ghost var keys, vals := [], [];
    if ok {
      keys, vals := MapTexted(reg, ty, v, stack);
      ConstKeys(reg, ty, es, stack, keys, vals);
      ConcatNext(keys, 0);
      ConcatNext(vals, 0);
    }
    assert es decreases to es[0];
    var key := Size(reg, ty.key, es[0].key, stack);
    if key.Err? { return Err(key.error); }
    var val := Size(reg, ty.value, es[0].val, stack);
    if val.Err? { return Err(val.error); }
    if key.value.size == 0 && val.value.size == 0 { return Err(MarshalZeroLength); }
    var keyConst, valConst := key.value.constant, val.value.constant;
    var totalKey: nat, totalVal: nat, numElts: nat := key.value.size, val.value.size, 1;
    if keyConst && valConst {
      return Ok(|es| * key.value.size + |es| * val.value.size);
    }
    for i := 1 to |es|
      invariant numElts == i
      invariant ok ==>
                  (!keyConst ==> totalKey == |Concat(keys[..i])|) && (!valConst ==> totalVal == |Concat(vals[..i])|)
    {
      assert es decreases to es[i];
      if ok {
        ConcatNext(keys, i);
        ConcatNext(vals, i);
      }
      if !keyConst {
        var k := Size(reg, ty.key, es[i].key, stack);
        if k.Err? { return Err(k.error); }
        totalKey := totalKey + k.value.size;
      }
      if !valConst {
        var w := Size(reg, ty.value, es[i].val, stack);
        if w.Err? { return Err(w.error); }
        totalVal := totalVal + w.value.size;
      }
      numElts := numElts + 1;
    }
    return Ok((if keyConst then numElts * key.value.size else totalKey) +
              (if valConst then numElts * val.value.size else totalVal));
  }
}
