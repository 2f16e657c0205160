/**
 The wire format: where in the bytes each part of a value stands, and where and why reading stops when
 the bytes are not those of a value.
 */
module Wire {
  import opened Results
  import opened Bytes
  import opened KeyOrder
  import opened Codec
  import opened RoundTrip

  // ---------- what is written ----------

  /** Integers are two's complement, most significant byte first, in exactly the width of their type. */
  lemma IntBytes(reg: Registry, signed: bool, w: Width, n: int, stack: set<Ty>)
    requires reg.Valid() && Encodes(reg, TInt(signed, w), VInt(n), stack)
    ensures var b := Encode(reg, TInt(signed, w), VInt(n), stack).value;
            && |b| == w
            && forall i :: 0 <= i < w ==>
                 b[i] == (if n < 0 then n + Pow256(w) else n) / Pow256(w - 1 - i) % 256
  {
    var u := Wrap(w, n);
    forall i | 0 <= i < w ensures ToBE(u, w)[i] == u / Pow256(w - 1 - i) % 256 { WordAt(u, w, i); }
  }

  /** A bool is one byte, and a string its length in two bytes and then its own bytes. */
  lemma LeafBytes(reg: Registry, f: bool, s: bytes, stack: set<Ty>)
    requires reg.Valid()
    ensures Encode(reg, TBool, VBool(f), stack) == Ok(if f then [1] else [0])
    ensures |s| < 0x1_0000 ==> Encode(reg, TString, VStr(s), stack) == Ok([|s| / 256, |s| % 256] + s)
  {
    if |s| < 0x1_0000 {
      assert Pow256(2) == 0x1_0000 && Pow256(1) == 256 && Pow256(0) == 1;
      var b := ToBE(|s|, 2);
      WordAt(|s|, 2, 0);
      WordAt(|s|, 2, 1);
      assert b == [b[0], b[1]];
    }
  }

  /** A pointer is written as its target; an interface value as the ID of its type in four bytes, then the value. */
  lemma HeldBytes(reg: Registry, ty: Ty, v: Val, stack: set<Ty>)
    requires Encodes(reg, ty, v, stack)
    ensures ty.TPtr? ==> v.VPtr? && Encode(reg, ty.elem, v.target, stack) == Encode(reg, ty, v, stack)
    ensures ty.TIface? ==> v.VIface? && v.dynamic in reg.idOf && |Encode(reg, ty, v, stack).value| >= 4
    ensures ty.TIface? ==>
              && FromBE(Encode(reg, ty, v, stack).value[..4]) == reg.idOf[v.dynamic]
              && Encode(reg, v.dynamic, v.held, stack + {v.dynamic}) == Ok(Encode(reg, ty, v, stack).value[4..])
  {
    Pow256Values();
    if ty.TIface? {
      var id := reg.idOf[v.dynamic];
      assert reg.typeOf[id] == v.dynamic;
      FromBEToBE(id, 4);
      var b := Encode(reg, v.dynamic, v.held, stack + {v.dynamic}).value;
      assert (ToBE(id, 4) + b)[..4] == ToBE(id, 4) && (ToBE(id, 4) + b)[4..] == b;
    }
  }

  /** Part `i` of the bytes is element `i`. */
  ghost predicate ElemParts(reg: Registry, elem: Ty, vs: seq<Val>, stack: set<Ty>, parts: seq<bytes>)
    requires reg.Valid()
  {
    |parts| == |vs| && forall i :: 0 <= i < |vs| ==> Encode(reg, elem, vs[i], stack) == Ok(parts[i])
  }

  lemma {:induction false} ElemsAre(reg: Registry, elem: Ty, vs: seq<Val>, stack: set<Ty>, nonZero: bool)
    returns (parts: seq<bytes>)
    requires reg.Valid() && EncodeElems(reg, elem, vs, stack, nonZero).Ok?
    ensures ElemParts(reg, elem, vs, stack, parts)
    ensures EncodeElems(reg, elem, vs, stack, nonZero).value == Concat(parts)
    decreases vs
  {
    hide Encode, Registry.Valid;
    parts := [];
    if vs != [] {
      var rest := ElemsAre(reg, elem, vs[1..], stack, nonZero);
      parts := [Encode(reg, elem, vs[0], stack).value] + rest;
      ConcatAppend([parts[0]], rest);
      assert Concat([parts[0]]) == parts[0];
      forall i | 0 <= i < |vs| ensures Encode(reg, elem, vs[i], stack) == Ok(parts[i]) {
        if i > 0 { assert vs[i] == vs[1..][i - 1]; }
      }
    }
  }

  /** An array is its elements in order; a slice has their number in four bytes in front. */
  lemma SeqBytes(reg: Registry, ty: Ty, vs: seq<Val>, stack: set<Ty>) returns (parts: seq<bytes>)
    requires Encodes(reg, ty, VSeq(vs), stack) && (ty.TSlice? || ty.TArray?)
    ensures ElemParts(reg, ty.elem, vs, stack, parts)
    ensures ty.TArray? ==> Encode(reg, ty, VSeq(vs), stack) == Ok(Concat(parts))
    ensures ty.TSlice? ==> var b := Encode(reg, ty, VSeq(vs), stack).value;
                           |b| >= 4 && FromBE(b[..4]) == |vs| && b[4..] == Concat(parts)
  {
    hide Registry.Valid, EncodeElems;
    Pow256Values();
    if ty.TSlice? {
      FromBEToBE(|vs|, 4);
      if vs == [] {
        parts := [];
        assert ToBE(0, 4)[..4] == ToBE(0, 4) && ToBE(0, 4)[4..] == [];
      } else {
        parts := ElemsAre(reg, ty.elem, vs, stack, true);
        var c := ToBE(|vs|, 4);
        assert (c + Concat(parts))[..4] == c && (c + Concat(parts))[4..] == Concat(parts);
      }
    } else {
      parts := ElemsAre(reg, ty.elem, vs, stack, false);
    }
  }

  /** Part `i` of the bytes is field `i`, or nothing where the field is not serialized. */
  ghost predicate FieldParts(reg: Registry, fields: seq<Field>, vs: seq<Val>, stack: set<Ty>, parts: seq<bytes>)
    requires reg.Valid() && |fields| == |vs|
  {
    && |parts| == |vs|
    && forall i :: 0 <= i < |vs| ==>
         if fields[i].tagged then Encode(reg, fields[i].ty, vs[i], stack) == Ok(parts[i]) else parts[i] == []
  }

  /** A struct is its serialized fields in the order of their declaration. */
  lemma {:induction false} FieldsAre(reg: Registry, fields: seq<Field>, vs: seq<Val>, stack: set<Ty>)
    returns (parts: seq<bytes>)
    requires reg.Valid() && |fields| == |vs| && EncodeFields(reg, fields, vs, stack).Ok?
    ensures FieldParts(reg, fields, vs, stack, parts)
    ensures EncodeFields(reg, fields, vs, stack).value == Concat(parts)
    decreases vs
  {
    hide Encode, Registry.Valid;
    parts := [];
    if vs != [] {
      var rest := FieldsAre(reg, fields[1..], vs[1..], stack);
      var b := if fields[0].tagged then Encode(reg, fields[0].ty, vs[0], stack).value else [];
      parts := [b] + rest;
      ConcatAppend([parts[0]], rest);
      assert Concat([parts[0]]) == parts[0];
      forall i | 0 < i < |vs|
        ensures if fields[i].tagged then Encode(reg, fields[i].ty, vs[i], stack) == Ok(parts[i]) else parts[i] == []
      {
        assert vs[i] == vs[1..][i - 1] && fields[i] == fields[1..][i - 1];
      }
    }
  }

  lemma StructBytes(reg: Registry, ty: Ty, vs: seq<Val>, stack: set<Ty>) returns (parts: seq<bytes>)
    requires Encodes(reg, ty, VSeq(vs), stack) && ty.TStruct? && |ty.fields| == |vs|
    ensures FieldParts(reg, ty.fields, vs, stack, parts)
    ensures Encode(reg, ty, VSeq(vs), stack) == Ok(Concat(parts))
  {
    hide Registry.Valid, EncodeFields;
    parts := FieldsAre(reg, ty.fields, vs, stack);
  }

  /** Part `j` of the bytes is the entry at place `o[j]` of the map: its key and then its value. */
  ghost predicate EntryParts(reg: Registry, ty: Ty, es: seq<Entry>, stack: set<Ty>, o: seq<nat>, keys: seq<bytes>,
                             parts: seq<bytes>)
    requires reg.Valid() && ty.TMap?
  {
    && Indices(o, |es|) && |keys| == |parts| == |es|
    && forall j :: 0 <= j < |es| ==>
         && Encode(reg, ty.key, es[o[j]].key, stack) == Ok(keys[j])
         && Encode(reg, ty.value, es[o[j]].val, stack).Ok?
         && parts[j] == keys[j] + Encode(reg, ty.value, es[o[j]].val, stack).value
  }

  lemma {:induction false} FlattenIs(keys: seq<bytes>, vals: seq<Result<bytes, Error>>) returns (parts: seq<bytes>)
    requires |keys| == |vals| && Flatten(keys, vals).Ok?
    ensures |parts| == |keys|
    ensures forall j :: 0 <= j < |keys| ==> vals[j].Ok? && parts[j] == keys[j] + vals[j].value
    ensures Flatten(keys, vals).value == Concat(parts)
  {
    parts := [];
    if keys != [] {
      var rest := FlattenIs(keys[1..], vals[1..]);
      parts := [keys[0] + vals[0].value] + rest;
      ConcatAppend([parts[0]], rest);
      assert Concat([parts[0]]) == parts[0];
      forall j | 0 < j < |keys| ensures vals[j].Ok? && parts[j] == keys[j] + vals[j].value {
        assert keys[j] == keys[1..][j - 1] && vals[j] == vals[1..][j - 1] && parts[j] == rest[j - 1];
      }
    }
  }

  /** A map is the number of its entries and then the entries, each once, none after one with larger key bytes. */
  lemma MapBytes(reg: Registry, ty: Ty, es: seq<Entry>, stack: set<Ty>)
    returns (o: seq<nat>, keys: seq<bytes>, parts: seq<bytes>)
    requires Encodes(reg, ty, VMap(es), stack) && ty.TMap?
    ensures EntryParts(reg, ty, es, stack, o, keys, parts)
    ensures forall i, j :: 0 <= i < j < |keys| ==> !Less(keys[j], keys[i])
    ensures var b := Encode(reg, ty, VMap(es), stack).value;
            |b| >= 4 && FromBE(b[..4]) == |es| && b[4..] == Concat(parts)
  {
    hide Registry.Valid, EncodeKeys, EncodeVals, Flatten, Order;
    Pow256Values();
    FromBEToBE(|es|, 4);
    if es == [] {
      o, keys, parts := [], [], [];
      assert ToBE(0, 4)[..4] == ToBE(0, 4) && ToBE(0, 4)[4..] == [];
    } else {
      o, keys, parts := SortedParts(reg, ty, es, stack);
      var c := ToBE(|es|, 4);
      assert (c + Concat(parts))[..4] == c && (c + Concat(parts))[4..] == Concat(parts);
    }
  }

  lemma SortedParts(reg: Registry, ty: Ty, es: seq<Entry>, stack: set<Ty>)
    returns (o: seq<nat>, keys: seq<bytes>, parts: seq<bytes>)
    requires reg.Valid() && ty.TMap? && EncodeKeys(reg, ty.key, es, stack).Ok?
    requires var ks := EncodeKeys(reg, ty.key, es, stack).value;
             Flatten(Permute(ks, Order(ks)), Permute(EncodeVals(reg, ty.value, es, stack), Order(ks))).Ok?
    ensures EntryParts(reg, ty, es, stack, o, keys, parts)
    ensures forall i, j :: 0 <= i < j < |keys| ==> !Less(keys[j], keys[i])
    ensures var ks := EncodeKeys(reg, ty.key, es, stack).value;
            Flatten(Permute(ks, Order(ks)), Permute(EncodeVals(reg, ty.value, es, stack), Order(ks)))
            == Ok(Concat(parts))
  {
    hide Registry.Valid, Encode, EncodeKeys, EncodeVals, Flatten, Order;
    var ks, vals := EncodeKeys(reg, ty.key, es, stack).value, EncodeVals(reg, ty.value, es, stack);
    o := Order(ks);
    OrderSorts(ks);
    keys := Permute(ks, o);
    parts := FlattenIs(keys, Permute(vals, o));
    forall j | 0 <= j < |es|
      ensures Encode(reg, ty.key, es[o[j]].key, stack) == Ok(keys[j])
      ensures Encode(reg, ty.value, es[o[j]].val, stack) == Permute(vals, o)[j]
    {
      EncodeKeysAt(reg, ty.key, es, stack, o[j]);
      EncodeValsAt(reg, ty.value, es, stack, o[j]);
    }
  }

  // ---------- values that are not serialized ----------

  /** Go's zero values: no number, no text, no reference, and zeroes in every place of an array or struct. */
  ghost predicate IsZero(ty: Ty, v: Val)
    decreases v
  {
    match v
    case VInt(n) => ty.TInt? && n == 0
    case VBool(b) => ty.TBool? && !b
    case VStr(s) => ty.TString? && |s| == 0
    case VNil => ty.TPtr? || ty.TIface? || ty.TSlice? || ty.TMap?
    case VSeq(vs) =>
      || (ty.TArray? && |vs| == ty.len && forall i :: 0 <= i < |vs| ==> IsZero(ty.elem, vs[i]))
      || (ty.TStruct? && |vs| == |ty.fields| && forall i :: 0 <= i < |vs| ==> IsZero(ty.fields[i].ty, vs[i]))
    case VOther(k) => ty.TOther? && k == 0
    case _ => false
  }

  lemma {:induction false} ZeroIs(ty: Ty)
    ensures IsZero(ty, Zero(ty))
    decreases ty
  {
    match ty
    case TArray(_, elem) => ZeroIs(elem);
    case TStruct(_, fields) => ZeroFieldsAre(fields);
    case _ =>
  }

  lemma {:induction false} ZeroFieldsAre(fields: seq<Field>)
    ensures forall i :: 0 <= i < |fields| ==> IsZero(fields[i].ty, ZeroFields(fields)[i])
    decreases fields
  {
    if fields != [] {
      assert fields decreases to fields[0];
      ZeroIs(fields[0].ty);
      ZeroFieldsAre(fields[1..]);
      assert forall i :: 0 < i < |fields| ==> fields[i] == fields[1..][i - 1];
    }
  }

  /** A field that is not serialized reads back as its zero value. */
  lemma {:induction false} UntaggedReadZero(reg: Registry, fields: seq<Field>, s: bytes, stack: set<Ty>, i: nat)
    requires reg.Valid() && DecodeFields(reg, fields, s, stack).Ok? && i < |fields| && !fields[i].tagged
    ensures IsZero(fields[i].ty, DecodeFields(reg, fields, s, stack).value.val[i])
    decreases fields
  {
    hide Decode, Registry.Valid, Zero, IsZero;
    if i == 0 {
      ZeroIs(fields[0].ty);
    } else {
      var n := if fields[0].tagged then Decode(reg, fields[0].ty, s, stack).value.used else 0;
      UntaggedReadZero(reg, fields[1..], s[n..], stack, i - 1);
    }
  }

  // ---------- why reading stops ----------

  /** Integers, bools and strings: too few bytes, or a byte that is no bool. */
  lemma LeafErrors(reg: Registry, ty: Ty, s: bytes, stack: set<Ty>)
    requires reg.Valid()
    ensures ty.TInt? ==> (Decode(reg, ty, s, stack).Err? <==> |s| < ty.width)
    ensures ty.TBool? ==> (Decode(reg, ty, s, stack).Err? <==> s == [] || s[0] > 1)
    ensures ty.TString? ==>
              (Decode(reg, ty, s, stack).Err? <==> |s| < 2 || |s| < 2 + (s[0] as int) * 256 + (s[1] as int))
    ensures (ty.TInt? || ty.TString? || (ty.TBool? && s == [])) && Decode(reg, ty, s, stack).Err? ==>
              Decode(reg, ty, s, stack) == Err(InsufficientLength)
    ensures ty.TBool? && s != [] && Decode(reg, ty, s, stack).Err? ==> Decode(reg, ty, s, stack) == Err(BadBool)
    ensures ty.TOther? ==> Decode(reg, ty, s, stack) == Err(UnsupportedKind)
  {
    if ty.TString? && |s| >= 2 { TwoBytes(s[..2]); }
  }

  lemma TwoBytes(s: bytes)
    requires |s| == 2
    ensures FromBE(s) == (s[0] as int) * 256 + (s[1] as int)
  {
    assert s[..1] == [s[0]] && s[..1][..0] == [];
    assert FromBE(s[..1]) == FromBE([]) * 256 + s[0];
  }

  /** An interface value: its ID is cut off, unknown, of a type that does not implement it, or being read. */
  lemma IfaceErrors(reg: Registry, iface: nat, s: bytes, stack: set<Ty>)
    requires reg.Valid()
    ensures var r := Decode(reg, TIface(iface), s, stack);
            if |s| < 4 then r == Err(InsufficientLength)
            else
              var id := FromBE(s[..4]);
              if id !in reg.typeOf then r == Err(UnknownTypeID)
              else if (reg.typeOf[id], iface) !in reg.implements then r == Err(DoesNotImplementInterface)
              else if reg.typeOf[id] in stack then r == Err(RecursiveInterfaceTypes)
              else
                var t := reg.typeOf[id];
                var x := Decode(reg, t, s[4..], stack + {t});
                if x.Err? then r == Err(x.error) else r == Ok(Read(VIface(t, x.value.val), 4 + x.value.used))
  {
  }

  /** A pointer, array or struct adds no error of its own, except that a struct may hide a serialized field. */
  lemma InnerErrors(reg: Registry, ty: Ty, s: bytes, stack: set<Ty>)
    requires reg.Valid() && Decode(reg, ty, s, stack).Err?
    ensures ty.TPtr? ==> Decode(reg, ty.elem, s, stack) == Decode(reg, ty, s, stack)
    ensures ty.TArray? ==> DecodeElems(reg, ty, ty.len, s, stack) == Err(Decode(reg, ty, s, stack).error)
    ensures ty.TStruct? ==>
              if exists i :: 0 <= i < |ty.fields| && ty.fields[i].tagged && !ty.fields[i].exported
              then Decode(reg, ty, s, stack) == Err(UnexportedField)
              else DecodeFields(reg, ty.fields, s, stack) == Err(Decode(reg, ty, s, stack).error)
  {
    hide Registry.Valid, DecodeElems, DecodeFields;
  }

  /** The number in front of a slice or map is cut off or too large, and nothing else is wrong with it. */
  lemma CountErrors(reg: Registry, ty: Ty, s: bytes, stack: set<Ty>)
    requires reg.Valid() && (ty.TSlice? || ty.TMap?)
    ensures |s| < 4 ==> Decode(reg, ty, s, stack) == Err(InsufficientLength)
    ensures |s| >= 4 && FromBE(s[..4]) > 0x7FFF_FFFF ==> Decode(reg, ty, s, stack) == Err(MaxSliceLenExceeded)
    ensures |s| >= 4 && FromBE(s[..4]) <= 0x7FFF_FFFF && Decode(reg, ty, s, stack).Err? ==>
              var n, x := FromBE(s[..4]), Decode(reg, ty, s, stack).error;
              if ty.TSlice? then DecodeElems(reg, ty, n, s[4..], stack) == Err(x)
              else DecodeEntries(reg, ty, n, s[4..], stack, None) == Err(x)
  {
    hide Registry.Valid, DecodeElems, DecodeEntries;
  }

  /** Reading elements stops at the first one that cannot be read or, in a slice, that takes no bytes. */
  lemma {:induction false} ElemsStop(reg: Registry, ty: Ty, n: nat, s: bytes, stack: set<Ty>) returns (i: nat, p: nat)
    requires reg.Valid() && (ty.TSlice? || ty.TArray?) && DecodeElems(reg, ty, n, s, stack).Err?
    ensures i < n && p <= |s|
    ensures DecodeElems(reg, ty, i, s, stack).Ok? && DecodeElems(reg, ty, i, s, stack).value.used == p
    ensures var x, d := DecodeElems(reg, ty, n, s, stack).error, Decode(reg, ty.elem, s[p..], stack);
            d == Err(x) || (d.Ok? && ty.TSlice? && d.value.used == 0 && x == UnmarshalZeroLength)
    decreases n
  {
    hide Decode, Registry.Valid;
    var d := Decode(reg, ty.elem, s, stack);
    i, p := 0, 0;
    assert s[0..] == s;
    if d.Ok? && !(ty.TSlice? && d.value.used == 0) {
      var q := d.value.used;
      i, p := ElemsStop(reg, ty, n - 1, s[q..], stack);
      assert s[q..][p..] == s[q + p..];
      i, p := i + 1, q + p;
    }
  }

  /** Reading a struct stops at the first serialized field that cannot be read. */
  lemma {:induction false} FieldsStop(reg: Registry, fields: seq<Field>, s: bytes, stack: set<Ty>)
    returns (i: nat, p: nat)
    requires reg.Valid() && DecodeFields(reg, fields, s, stack).Err?
    ensures i < |fields| && p <= |s| && fields[i].tagged
    ensures DecodeFields(reg, fields[..i], s, stack).Ok? && DecodeFields(reg, fields[..i], s, stack).value.used == p
    ensures Decode(reg, fields[i].ty, s[p..], stack) == Err(DecodeFields(reg, fields, s, stack).error)
    decreases fields
  {
    hide Decode, Registry.Valid, Zero;
    i, p := 0, 0;
    assert s[0..] == s;
    if !fields[0].tagged || Decode(reg, fields[0].ty, s, stack).Ok? {
      var q := if fields[0].tagged then Decode(reg, fields[0].ty, s, stack).value.used else 0;
      i, p := FieldsStop(reg, fields[1..], s[q..], stack);
      assert s[q..][p..] == s[q + p..];
      assert fields[..i + 1][1..] == fields[1..][..i];
      i, p := i + 1, q + p;
    }
  }

  /** Why an entry at `s` behind the key `prev` is not read. */
  ghost predicate BadEntry(reg: Registry, ty: Ty, s: bytes, stack: set<Ty>, prev: Option<bytes>, x: Error)
    requires reg.Valid() && ty.TMap?
  {
    var k := Decode(reg, ty.key, s, stack);
    || k == Err(x)
    || (k.Ok? &&
        var at := k.value.used;
        var v := Decode(reg, ty.value, s[at..], stack);
        if prev.Some? && !Less(prev.value, s[..at]) then x == KeysNotSorted
        else v == Err(x) || (v.Ok? && at == v.value.used == 0 && x == UnmarshalZeroLength))
  }

  /** The key bytes of the last of the first `i` entries at `s`. */
  ghost function LastKey(reg: Registry, ty: Ty, i: nat, s: bytes, stack: set<Ty>, prev: Option<bytes>)
    : (last: Option<bytes>)
    requires reg.Valid() && ty.TMap?
  {
    if i == 0 then prev else
      var before := DecodeEntries(reg, ty, i - 1, s, stack, prev);
      if before.Err? then None else
        var at := s[before.value.used..];
        var k := Decode(reg, ty.key, at, stack);
        if k.Err? then None else Some(at[..k.value.used])
  }

  /** One entry that is read, and then the rest. */
  lemma EntriesNext(reg: Registry, ty: Ty, n: nat, s: bytes, stack: set<Ty>, prev: Option<bytes>)
    returns (k: nat, q: nat)
    requires reg.Valid() && ty.TMap? && n > 0
    requires forall x :: !BadEntry(reg, ty, s, stack, prev, x)
    ensures Decode(reg, ty.key, s, stack).Ok? && k == Decode(reg, ty.key, s, stack).value.used <= q <= |s|
    ensures Decode(reg, ty.value, s[k..], stack).Ok? && q == k + Decode(reg, ty.value, s[k..], stack).value.used
    ensures forall i: nat :: 0 < i <= n ==>
              var r, rest := DecodeEntries(reg, ty, i, s, stack, prev),
                             DecodeEntries(reg, ty, i - 1, s[q..], stack, Some(s[..k]));
              if rest.Err? then r == Err(rest.error)
              else r.Ok? && r.value.used == q + rest.value.used
  {
    hide Decode, Registry.Valid, Less;
    var dk := Decode(reg, ty.key, s, stack);
    assert dk.Err? ==> BadEntry(reg, ty, s, stack, prev, dk.error);
    k := dk.value.used;
    assert !BadEntry(reg, ty, s, stack, prev, KeysNotSorted);
    var dv := Decode(reg, ty.value, s[k..], stack);
    assert dv.Err? ==> BadEntry(reg, ty, s, stack, prev, dv.error);
    assert !BadEntry(reg, ty, s, stack, prev, UnmarshalZeroLength);
    q := k + dv.value.used;
  }

  lemma EntriesHead(reg: Registry, ty: Ty, n: nat, s: bytes, stack: set<Ty>, prev: Option<bytes>, x: Error)
    requires reg.Valid() && ty.TMap? && n > 0 && BadEntry(reg, ty, s, stack, prev, x)
    ensures DecodeEntries(reg, ty, n, s, stack, prev) == Err(x)
  {
    hide Decode, Registry.Valid, Less, DecodeEntries;
    DecodeEntriesSome(reg, ty, n, s, stack, prev);
  }

  lemma LastKeyNext(reg: Registry, ty: Ty, i: nat, s: bytes, stack: set<Ty>, prev: Option<bytes>)
    requires reg.Valid() && ty.TMap?
    requires forall x :: !BadEntry(reg, ty, s, stack, prev, x)
    requires DecodeEntries(reg, ty, i + 1, s, stack, prev).Ok?
    ensures Decode(reg, ty.key, s, stack).Ok?
    ensures var k := Decode(reg, ty.key, s, stack).value.used;
            var v := Decode(reg, ty.value, s[k..], stack);
            v.Ok? && k + v.value.used <= |s| &&
            LastKey(reg, ty, i + 1, s, stack, prev) == LastKey(reg, ty, i, s[k + v.value.used..], stack, Some(s[..k]))
  {
    hide Decode, Registry.Valid, Less, BadEntry, DecodeEntries;
    var k, q := EntriesNext(reg, ty, i + 1, s, stack, prev);
    if i == 0 {
      DecodeEntriesNone(reg, ty, s, stack, prev);
      assert s[0..] == s;
    } else {
      var rest := DecodeEntries(reg, ty, i - 1, s[q..], stack, Some(s[..k]));
      if rest.Ok? { assert s[q..][rest.value.used..] == s[q + rest.value.used..]; }
    }
  }

  /** Reading a map stops at the first entry that is not read behind the key of the one before it. */
  lemma {:induction false} EntriesStop(reg: Registry, ty: Ty, n: nat, s: bytes, stack: set<Ty>, prev: Option<bytes>)
    returns (i: nat, p: nat)
    requires reg.Valid() && ty.TMap? && DecodeEntries(reg, ty, n, s, stack, prev).Err?
    ensures i < n && p <= |s|
    ensures DecodeEntries(reg, ty, i, s, stack, prev).Ok? && DecodeEntries(reg, ty, i, s, stack, prev).value.used == p
    ensures BadEntry(reg, ty, s[p..], stack, LastKey(reg, ty, i, s, stack, prev),
                     DecodeEntries(reg, ty, n, s, stack, prev).error)
    decreases n
  {
    hide Decode, Registry.Valid, Less, BadEntry, DecodeEntries, LastKey;
    DecodeEntriesNone(reg, ty, s, stack, prev);
    i, p := 0, 0;
    if x :| BadEntry(reg, ty, s, stack, prev, x) {
      EntriesHead(reg, ty, n, s, stack, prev, x);
      assert s[0..] == s;
      assert LastKey(reg, ty, 0, s, stack, prev) == prev by { LastKeyNone(reg, ty, s, stack, prev); }
    } else {
      var k, q := EntriesNext(reg, ty, n, s, stack, prev);
      i, p := EntriesStop(reg, ty, n - 1, s[q..], stack, Some(s[..k]));
      assert s[q..][p..] == s[q + p..];
      LastKeyNext(reg, ty, i, s, stack, prev);
      i, p := i + 1, q + p;
    }
  }

  lemma LastKeyNone(reg: Registry, ty: Ty, s: bytes, stack: set<Ty>, prev: Option<bytes>)
    requires reg.Valid() && ty.TMap?
    ensures LastKey(reg, ty, 0, s, stack, prev) == prev
  {
  }
}
