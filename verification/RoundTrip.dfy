/**
 Unmarshalling undoes marshalling, exactly for the values in which no map has two keys with the
 same serialized data; what comes back is the value with its unserialized parts reset.
 */
module RoundTrip {
  import opened Results
  import opened Bytes
  import opened KeyOrder
  import opened Codec

  ghost predicate Encodes(reg: Registry, ty: Ty, v: Val, stack: set<Ty>) {
    reg.Valid() && Encode(reg, ty, v, stack).Ok?
  }

  ghost predicate EntryEncodes(reg: Registry, kt: Ty, vt: Ty, e: Entry, stack: set<Ty>) {
    Encodes(reg, kt, e.key, stack) && Encodes(reg, vt, e.val, stack)
  }

  // ---------- the value as it is read back ----------

  /** `v` with nil slices and maps empty, unserialized fields zero and map entries sorted by key bytes. */
  ghost function Norm(reg: Registry, ty: Ty, v: Val, stack: set<Ty>): Val
    requires Encodes(reg, ty, v, stack)
    decreases v
  {
    match ty
    case TPtr(elem) => VPtr(Norm(reg, elem, v.target, stack))
    case TIface(_) => VIface(v.dynamic, Norm(reg, v.dynamic, v.held, stack + {v.dynamic}))
    case TSlice(elem) =>
      if Elements(v).value == [] then VSeq([]) else VSeq(NormElems(reg, elem, v.vs, stack, true))
    case TArray(_, elem) => VSeq(NormElems(reg, elem, v.vs, stack, false))
    case TStruct(_, fields) => VSeq(NormFields(reg, fields, v.vs, stack))
    case TMap(kt, vt) =>
      if Entries(v).value == [] then VMap([]) else
        MapEntriesEncode(reg, ty, v, stack);
        var keys := EncodeKeys(reg, kt, v.entries, stack).value;
        VMap(Permute(NormEntries(reg, kt, vt, v.entries, stack), Order(keys)))
    case _ => v
  }

  ghost function NormElems(reg: Registry, elem: Ty, vs: seq<Val>, stack: set<Ty>, nonZero: bool): (r: seq<Val>)
    requires reg.Valid() && EncodeElems(reg, elem, vs, stack, nonZero).Ok?
    ensures |r| == |vs|
    decreases vs
  {
    if vs == [] then [] else
      [Norm(reg, elem, vs[0], stack)] + NormElems(reg, elem, vs[1..], stack, nonZero)
  }

  ghost function NormFields(reg: Registry, fields: seq<Field>, vs: seq<Val>, stack: set<Ty>): (r: seq<Val>)
    requires reg.Valid() && |vs| == |fields| && EncodeFields(reg, fields, vs, stack).Ok?
    ensures |r| == |vs|
    decreases vs
  {
    if vs == [] then []
    else if !fields[0].tagged then [Zero(fields[0].ty)] + NormFields(reg, fields[1..], vs[1..], stack)
    else [Norm(reg, fields[0].ty, vs[0], stack)] + NormFields(reg, fields[1..], vs[1..], stack)
  }

  ghost function NormEntry(reg: Registry, kt: Ty, vt: Ty, e: Entry, stack: set<Ty>): Entry
    requires EntryEncodes(reg, kt, vt, e, stack)
    decreases e
  {
    Entry(Norm(reg, kt, e.key, stack), Norm(reg, vt, e.val, stack))
  }

  ghost function NormEntries(reg: Registry, kt: Ty, vt: Ty, es: seq<Entry>, stack: set<Ty>): (r: seq<Entry>)
    requires forall i :: 0 <= i < |es| ==> EntryEncodes(reg, kt, vt, es[i], stack)
    ensures |r| == |es|
    decreases es
  {
    if es == [] then [] else
      [NormEntry(reg, kt, vt, es[0], stack)] + NormEntries(reg, kt, vt, es[1..], stack)
  }

  lemma {:induction false} NormEntriesAt(reg: Registry, kt: Ty, vt: Ty, es: seq<Entry>, stack: set<Ty>, i: nat)
    requires forall i :: 0 <= i < |es| ==> EntryEncodes(reg, kt, vt, es[i], stack)
    requires i < |es|
    ensures NormEntries(reg, kt, vt, es, stack)[i] == NormEntry(reg, kt, vt, es[i], stack)
  {
    if i > 0 {
      NormEntriesAt(reg, kt, vt, es[1..], stack, i - 1);
    }
  }

  // ---------- when it can be read back ----------

  /** In every map inside `v`, no two keys carry the same serialized data. */
  ghost predicate DistinctKeys(reg: Registry, ty: Ty, v: Val, stack: set<Ty>)
    requires Encodes(reg, ty, v, stack)
    decreases v
  {
    match ty
    case TPtr(elem) => DistinctKeys(reg, elem, v.target, stack)
    case TIface(_) => DistinctKeys(reg, v.dynamic, v.held, stack + {v.dynamic})
    case TSlice(elem) => Elements(v).value == [] || DistinctElems(reg, elem, v.vs, stack, true)
    case TArray(_, elem) => DistinctElems(reg, elem, v.vs, stack, false)
    case TStruct(_, fields) => DistinctFields(reg, fields, v.vs, stack)
    case TMap(kt, vt) =>
      Entries(v).value == [] || (
        MapEntriesEncode(reg, ty, v, stack);
        && Unique(EncodeKeys(reg, kt, v.entries, stack).value)
        && DistinctEntries(reg, kt, vt, v.entries, stack))
    case _ => true
  }

  ghost predicate DistinctElems(reg: Registry, elem: Ty, vs: seq<Val>, stack: set<Ty>, nonZero: bool)
    requires reg.Valid() && EncodeElems(reg, elem, vs, stack, nonZero).Ok?
    decreases vs
  {
    vs == [] || (DistinctKeys(reg, elem, vs[0], stack) && DistinctElems(reg, elem, vs[1..], stack, nonZero))
  }

  ghost predicate DistinctFields(reg: Registry, fields: seq<Field>, vs: seq<Val>, stack: set<Ty>)
    requires reg.Valid() && |vs| == |fields| && EncodeFields(reg, fields, vs, stack).Ok?
    decreases vs
  {
    vs == [] || (
      && (fields[0].tagged ==> DistinctKeys(reg, fields[0].ty, vs[0], stack))
      && DistinctFields(reg, fields[1..], vs[1..], stack))
  }

  ghost predicate DistinctEntry(reg: Registry, kt: Ty, vt: Ty, e: Entry, stack: set<Ty>)
    requires EntryEncodes(reg, kt, vt, e, stack)
    decreases e
  {
    DistinctKeys(reg, kt, e.key, stack) && DistinctKeys(reg, vt, e.val, stack)
  }

  ghost predicate DistinctEntries(reg: Registry, kt: Ty, vt: Ty, es: seq<Entry>, stack: set<Ty>)
    requires forall i :: 0 <= i < |es| ==> EntryEncodes(reg, kt, vt, es[i], stack)
    decreases es
  {
    es == [] || (DistinctEntry(reg, kt, vt, es[0], stack) && DistinctEntries(reg, kt, vt, es[1..], stack))
  }

  lemma {:induction false} DistinctEntriesAll(reg: Registry, kt: Ty, vt: Ty, es: seq<Entry>, stack: set<Ty>)
    requires forall i :: 0 <= i < |es| ==> EntryEncodes(reg, kt, vt, es[i], stack)
    ensures DistinctEntries(reg, kt, vt, es, stack) <==>
            forall i :: 0 <= i < |es| ==> DistinctEntry(reg, kt, vt, es[i], stack)
  {
    hide Encodes, DistinctEntry;
    if es != [] {
      DistinctEntriesAll(reg, kt, vt, es[1..], stack);
      if DistinctEntries(reg, kt, vt, es, stack) {
        forall i | 0 <= i < |es| ensures DistinctEntry(reg, kt, vt, es[i], stack) {
          if i > 0 {
            assert es[i] == es[1..][i - 1];
          }
        }
      }
    }
  }

  // ---------- encoded maps ----------

  lemma {:induction false} EncodeKeysAt(reg: Registry, kt: Ty, es: seq<Entry>, stack: set<Ty>, i: nat)
    requires reg.Valid() && EncodeKeys(reg, kt, es, stack).Ok? && i < |es|
    ensures Encode(reg, kt, es[i].key, stack) == Ok(EncodeKeys(reg, kt, es, stack).value[i])
  {
    if i > 0 {
      EncodeKeysAt(reg, kt, es[1..], stack, i - 1);
    }
  }

  lemma {:induction false} EncodeValsAt(reg: Registry, vt: Ty, es: seq<Entry>, stack: set<Ty>, i: nat)
    requires reg.Valid() && i < |es|
    ensures EncodeVals(reg, vt, es, stack)[i] == Encode(reg, vt, es[i].val, stack)
  {
    if i > 0 {
      EncodeValsAt(reg, vt, es[1..], stack, i - 1);
    }
  }

  lemma {:induction false} FlattenAllOk(keys: seq<bytes>, vals: seq<Result<bytes, Error>>, i: nat)
    requires |keys| == |vals| && Flatten(keys, vals).Ok? && i < |vals|
    ensures vals[i].Ok?
  {
    if i > 0 {
      FlattenAllOk(keys[1..], vals[1..], i - 1);
    }
  }

  /** If a map marshals, so do each of its keys and values. */
  lemma MapEntriesEncode(reg: Registry, ty: Ty, v: Val, stack: set<Ty>)
    requires ty.TMap? && Encodes(reg, ty, v, stack) && v.VMap? && v.entries != []
    ensures EncodeKeys(reg, ty.key, v.entries, stack).Ok?
    ensures forall i :: 0 <= i < |v.entries| ==> EntryEncodes(reg, ty.key, ty.value, v.entries[i], stack)
  {
    var es := v.entries;
    var keys := EncodeKeys(reg, ty.key, es, stack).value;
    var vals := EncodeVals(reg, ty.value, es, stack);
    var o := Order(keys);
    OrderSorts(keys);
    forall i | 0 <= i < |es| ensures EntryEncodes(reg, ty.key, ty.value, es[i], stack) {
      EncodeKeysAt(reg, ty.key, es, stack, i);
      EncodeValsAt(reg, ty.value, es, stack, i);
      assert i in o;
      var j :| 0 <= j < |o| && o[j] == i;
      FlattenAllOk(Permute(keys, o), Permute(vals, o), j);
    }
  }

  // ---------- round trip ----------

  /**
   What `unmarshal` makes of the bytes of `v` followed by anything: the value as it is read back,
   stopping right after those bytes, or an unsorted-keys error if some map repeats a key.
   */
  ghost function ReadBack(reg: Registry, ty: Ty, v: Val, stack: set<Ty>): Result<Read<Val>, Error>
    requires Encodes(reg, ty, v, stack)
  {
    if DistinctKeys(reg, ty, v, stack)
    then Ok(Read(Norm(reg, ty, v, stack), |Encode(reg, ty, v, stack).value|))
    else Err(KeysNotSorted)
  }

  lemma {:induction false} DecodeEncode(reg: Registry, ty: Ty, v: Val, stack: set<Ty>, rest: bytes)
    requires Encodes(reg, ty, v, stack)
    ensures Decode(reg, ty, Encode(reg, ty, v, stack).value + rest, stack) == ReadBack(reg, ty, v, stack)
    decreases v
  {
    match ty
    case TPtr(elem) => DecodeEncode(reg, elem, v.target, stack, rest);
    case TIface(_) => DecodeEncodeIface(reg, ty, v, stack, rest);
    case TSlice(_) => DecodeEncodeSlice(reg, ty, v, stack, rest);
    case TArray(_, _) => DecodeEncodeElems(reg, ty, v.vs, stack, rest);
    case TStruct(_, fields) => DecodeEncodeFields(reg, fields, v.vs, stack, rest);
    case TMap(_, _) => DecodeEncodeMap(reg, ty, v, stack, rest);
    case _ => DecodeEncodeBasic(reg, ty, v, stack, rest);
  }

  lemma DecodeEncodeBasic(reg: Registry, ty: Ty, v: Val, stack: set<Ty>, rest: bytes)
    requires (ty.TInt? || ty.TBool? || ty.TString?) && Encodes(reg, ty, v, stack)
    ensures Decode(reg, ty, Encode(reg, ty, v, stack).value + rest, stack) == ReadBack(reg, ty, v, stack)
  {
    var b := Encode(reg, ty, v, stack).value;
    match ty
    case TInt(signed, w) =>
      assert (b + rest)[..w] == b;
      FromBEToBE(Wrap(w, v.n), w);
      UnwrapWrap(signed, w, v.n);
    case TBool =>
    case TString =>
      Pow256Values();
      FromBEToBE(|v.s|, 2);
      assert (b + rest)[..2] == ToBE(|v.s|, 2);
      assert (b + rest)[2..2 + |v.s|] == v.s;
  }

  lemma DecodeEncodeSlice(reg: Registry, ty: Ty, v: Val, stack: set<Ty>, rest: bytes)
    requires ty.TSlice? && Encodes(reg, ty, v, stack)
    ensures Decode(reg, ty, Encode(reg, ty, v, stack).value + rest, stack) == ReadBack(reg, ty, v, stack)
    decreases v, 0
  {
    var b := Encode(reg, ty, v, stack).value;
    var vs := Elements(v).value;
    CountReads(|vs|, b, rest);
    if vs != [] {
      DecodeEncodeElems(reg, ty, vs, stack, rest);
      assert (b + rest)[4..] == b[4..] + rest;
    }
  }

  lemma DecodeEncodeIface(reg: Registry, ty: Ty, v: Val, stack: set<Ty>, rest: bytes)
    requires ty.TIface? && Encodes(reg, ty, v, stack)
    ensures Decode(reg, ty, Encode(reg, ty, v, stack).value + rest, stack) == ReadBack(reg, ty, v, stack)
    decreases v, 0
  {
    var t := v.dynamic;
    var id := reg.idOf[t];
    assert reg.typeOf[id] == t;
    Pow256Values();
    var inner := Encode(reg, t, v.held, stack + {t}).value;
    var s := Encode(reg, ty, v, stack).value + rest;
    assert s[..4] == ToBE(id, 4);
    assert s[4..] == inner + rest;
    FromBEToBE(id, 4);
    DecodeEncode(reg, t, v.held, stack + {t}, rest);
  }

  lemma CountReads(n: nat, b: bytes, rest: bytes)
    requires n <= MAX_INT32 && n < Pow256(4) && |b| >= 4 && b[..4] == ToBE(n, 4)
    ensures DecodeCount(b + rest) == Ok(n)
  {
    assert (b + rest)[..4] == b[..4];
    FromBEToBE(n, 4);
  }

  lemma {:induction false} DecodeEncodeElems(reg: Registry, ty: Ty, vs: seq<Val>, stack: set<Ty>, rest: bytes)
    requires reg.Valid() && (ty.TSlice? || ty.TArray?)
    requires EncodeElems(reg, ty.elem, vs, stack, ty.TSlice?).Ok?
    ensures var b := EncodeElems(reg, ty.elem, vs, stack, ty.TSlice?).value;
            DecodeElems(reg, ty, |vs|, b + rest, stack) ==
            if DistinctElems(reg, ty.elem, vs, stack, ty.TSlice?)
            then Ok(Read(NormElems(reg, ty.elem, vs, stack, ty.TSlice?), |b|))
            else Err(KeysNotSorted)
    decreases vs
  {
    hide Encode, Decode, DistinctKeys, Norm, Registry.Valid;
    if vs != [] {
      var b0 := Encode(reg, ty.elem, vs[0], stack).value;
      var bs := EncodeElems(reg, ty.elem, vs[1..], stack, ty.TSlice?).value;
      Splits(b0, bs, rest);
      DecodeEncode(reg, ty.elem, vs[0], stack, bs + rest);
      DecodeEncodeElems(reg, ty, vs[1..], stack, rest);
    }
  }

  lemma {:induction false} DecodeEncodeFields(reg: Registry, fields: seq<Field>, vs: seq<Val>, stack: set<Ty>,
                                              rest: bytes)
    requires reg.Valid() && |vs| == |fields| && EncodeFields(reg, fields, vs, stack).Ok?
    ensures var b := EncodeFields(reg, fields, vs, stack).value;
            DecodeFields(reg, fields, b + rest, stack) ==
            if DistinctFields(reg, fields, vs, stack)
            then Ok(Read(NormFields(reg, fields, vs, stack), |b|))
            else Err(KeysNotSorted)
    decreases vs
  {
    hide Encode, Decode, DistinctKeys, Norm, Registry.Valid;
    if vs == [] {
    } else if !fields[0].tagged {
      DecodeEncodeFields(reg, fields[1..], vs[1..], stack, rest);
    } else {
      var b0 := Encode(reg, fields[0].ty, vs[0], stack).value;
      var bs := EncodeFields(reg, fields[1..], vs[1..], stack).value;
      Splits(b0, bs, rest);
      DecodeEncode(reg, fields[0].ty, vs[0], stack, bs + rest);
      DecodeEncodeFields(reg, fields[1..], vs[1..], stack, rest);
    }
  }

  /** Keys rise strictly, starting above `prev`. */
  ghost predicate Chain(prev: Option<bytes>, keys: seq<bytes>)
    decreases keys
  {
    keys == [] || ((prev.Some? ==> Less(prev.value, keys[0])) && Chain(Some(keys[0]), keys[1..]))
  }

  lemma {:induction false} ChainIsStrict(prev: Option<bytes>, keys: seq<bytes>)
    ensures Chain(prev, keys) <==>
            Strict(keys) && forall i :: prev.Some? && 0 <= i < |keys| ==> Less(prev.value, keys[i])
    decreases keys
  {
    if keys != [] {
      ChainIsStrict(Some(keys[0]), keys[1..]);
      if Chain(prev, keys) {
        forall i | prev.Some? && 0 < i < |keys| ensures Less(prev.value, keys[i]) {
          assert keys[i] == keys[1..][i - 1];
          LessTransitive(prev.value, keys[0], keys[i]);
        }
        forall i, j | 0 <= i < j < |keys| ensures Less(keys[i], keys[j]) {
          assert keys[j] == keys[1..][j - 1];
          if i > 0 {
            assert keys[i] == keys[1..][i - 1];
          }
        }
      }
    }
  }

  /** The entries `es` of the map `v`, in any order, with their key bytes and value bytes. */
  ghost predicate Rows(reg: Registry, ty: Ty, v: Val, es: seq<Entry>, keys: seq<bytes>,
                       vals: seq<Result<bytes, Error>>, stack: set<Ty>) {
    && reg.Valid() && ty.TMap? && v.VMap? && |es| == |keys| == |vals|
    && forall i :: 0 <= i < |es| ==>
         && es[i] in v.entries
         && EntryEncodes(reg, ty.key, ty.value, es[i], stack)
         && Encode(reg, ty.key, es[i].key, stack) == Ok(keys[i])
         && Encode(reg, ty.value, es[i].val, stack) == vals[i]
  }

  lemma SplitsTwice(a: bytes, b: bytes, c: bytes, rest: bytes)
    ensures (a + b + c) + rest == a + (b + (c + rest))
    ensures (a + (b + (c + rest)))[..|a|] == a
    ensures (a + (b + (c + rest)))[|a|..] == b + (c + rest)
    ensures (a + (b + (c + rest)))[|a| + |b|..] == c + rest
  {
  }

  lemma RowsHead(reg: Registry, ty: Ty, v: Val, es: seq<Entry>, keys: seq<bytes>, vals: seq<Result<bytes, Error>>,
                 stack: set<Ty>)
    requires Rows(reg, ty, v, es, keys, vals, stack) && es != []
    ensures Rows(reg, ty, v, es[1..], keys[1..], vals[1..], stack)
    ensures v decreases to es[0].key
    ensures v decreases to es[0].val
    ensures EntryEncodes(reg, ty.key, ty.value, es[0], stack)
    ensures Encode(reg, ty.key, es[0].key, stack) == Ok(keys[0]) && Encode(reg, ty.value, es[0].val, stack) == vals[0]
  {
    hide Encode, Encodes, Registry.Valid;
    assert es[0] in v.entries;
    var j :| 0 <= j < |v.entries| && v.entries[j] == es[0];
    assert v decreases to v.entries[j];
  }

  lemma {:induction false} DecodeEncodeRows(
    reg: Registry, ty: Ty, v: Val, es: seq<Entry>, keys: seq<bytes>, vals: seq<Result<bytes, Error>>,
    stack: set<Ty>, rest: bytes, prev: Option<bytes>)
    requires Rows(reg, ty, v, es, keys, vals, stack) && Flatten(keys, vals).Ok?
    ensures var b := Flatten(keys, vals).value;
            DecodeEntries(reg, ty, |es|, b + rest, stack, prev) ==
            if Chain(prev, keys) && DistinctEntries(reg, ty.key, ty.value, es, stack)
            then Ok(Read(NormEntries(reg, ty.key, ty.value, es, stack), |b|))
            else Err(KeysNotSorted)
    decreases v, |es|
  {
    hide Encode, Decode, DistinctKeys, Norm, Less, Registry.Valid, DecodeEntries, Encodes;
    if es == [] {
      assert Flatten(keys, vals).value + rest == rest;
      DecodeEntriesNone(reg, ty, rest, stack, prev);
    } else {
      RowsHead(reg, ty, v, es, keys, vals, stack);
      var kb, vb := keys[0], vals[0].value;
      var tail := Flatten(keys[1..], vals[1..]).value;
      SplitsTwice(kb, vb, tail, rest);
      var s := kb + (vb + (tail + rest));
      DecodeEncode(reg, ty.key, es[0].key, stack, vb + (tail + rest));
      DecodeEncode(reg, ty.value, es[0].val, stack, tail + rest);
      DecodeEncodeRows(reg, ty, v, es[1..], keys[1..], vals[1..], stack, rest, Some(kb));
      DecodeEntriesSome(reg, ty, |es|, s, stack, prev);
    }
  }

  lemma DecodeEntriesNone(reg: Registry, ty: Ty, s: bytes, stack: set<Ty>, prev: Option<bytes>)
    requires reg.Valid() && ty.TMap?
    ensures DecodeEntries(reg, ty, 0, s, stack, prev) == Ok(Read([], 0))
  {
  }

  lemma DecodeEntriesSome(reg: Registry, ty: Ty, n: nat, s: bytes, stack: set<Ty>, prev: Option<bytes>)
    requires reg.Valid() && ty.TMap? && n > 0
    ensures var k := Decode(reg, ty.key, s, stack);
            var r := DecodeEntries(reg, ty, n, s, stack, prev);
            if k.Err? then r == Err(k.error)
            else if prev.Some? && !Less(prev.value, s[..k.value.used]) then r == Err(KeysNotSorted)
            else
              var v := Decode(reg, ty.value, s[k.value.used..], stack);
              if v.Err? then r == Err(v.error)
              else if k.value.used + v.value.used == 0 then r == Err(UnmarshalZeroLength)
              else
                var rest := DecodeEntries(reg, ty, n - 1, s[k.value.used + v.value.used..], stack,
                                          Some(s[..k.value.used]));
                if rest.Err? then r == Err(rest.error)
                else r == Ok(Read([Entry(k.value.val, v.value.val)] + rest.value.val,
                                  k.value.used + v.value.used + rest.value.used))
  {
    hide Decode, Less;
  }

  /** A non-empty map, one level deep: its bytes, and what reading bytes with its count does. */
  lemma UnfoldMapBytes(reg: Registry, ty: Ty, v: Val, stack: set<Ty>)
    requires ty.TMap? && Encodes(reg, ty, v, stack) && v.VMap? && v.entries != []
    ensures EncodeKeys(reg, ty.key, v.entries, stack).Ok?
    ensures var keys := EncodeKeys(reg, ty.key, v.entries, stack).value;
            var vals := EncodeVals(reg, ty.value, v.entries, stack);
            var b := Flatten(Permute(keys, Order(keys)), Permute(vals, Order(keys)));
            && |v.entries| < Pow256(4)
            && b.Ok? && Encode(reg, ty, v, stack) == Ok(ToBE(|v.entries|, 4) + b.value)
  {
    hide EncodeKeys, EncodeVals, Flatten, Registry.Valid;
  }

  lemma UnfoldMapRead(reg: Registry, ty: Ty, n: nat, s: bytes, stack: set<Ty>)
    requires ty.TMap? && reg.Valid() && DecodeCount(s) == Ok(n)
    ensures var x := DecodeEntries(reg, ty, n, s[4..], stack, None);
            Decode(reg, ty, s, stack) == if x.Ok? then Ok(Read(VMap(x.value.val), 4 + x.value.used)) else Err(x.error)
  {
    hide DecodeEntries, DecodeCount, Registry.Valid;
  }

  lemma UnfoldMapNorm(reg: Registry, ty: Ty, v: Val, stack: set<Ty>)
    requires ty.TMap? && Encodes(reg, ty, v, stack) && v.VMap? && v.entries != []
    ensures EncodeKeys(reg, ty.key, v.entries, stack).Ok?
    ensures forall i :: 0 <= i < |v.entries| ==> EntryEncodes(reg, ty.key, ty.value, v.entries[i], stack)
    ensures var keys := EncodeKeys(reg, ty.key, v.entries, stack).value;
            && (DistinctKeys(reg, ty, v, stack) <==>
                Unique(keys) && DistinctEntries(reg, ty.key, ty.value, v.entries, stack))
            && Norm(reg, ty, v, stack) ==
               VMap(Permute(NormEntries(reg, ty.key, ty.value, v.entries, stack), Order(keys)))
  {
    MapEntriesEncode(reg, ty, v, stack);
    hide Encodes, Encode, EncodeKeys, Unique, DistinctEntries, NormEntries, Registry.Valid;
  }

  lemma DecodeEncodeMap(reg: Registry, ty: Ty, v: Val, stack: set<Ty>, rest: bytes)
    requires ty.TMap? && Encodes(reg, ty, v, stack)
    ensures Decode(reg, ty, Encode(reg, ty, v, stack).value + rest, stack) == ReadBack(reg, ty, v, stack)
    decreases v, |Entries(v).value| + 1
  {
    var b := Encode(reg, ty, v, stack).value;
    CountReads(|Entries(v).value|, b, rest);
    UnfoldMapRead(reg, ty, |Entries(v).value|, b + rest, stack);
    if Entries(v).value != [] {
      DecodeEncodeEntries(reg, ty, v, stack, rest);
    }
  }

  lemma DecodeEncodeEntries(reg: Registry, ty: Ty, v: Val, stack: set<Ty>, rest: bytes)
    requires ty.TMap? && Encodes(reg, ty, v, stack) && v.VMap? && v.entries != []
    requires DecodeCount(Encode(reg, ty, v, stack).value + rest) == Ok(|v.entries|)
    ensures Decode(reg, ty, Encode(reg, ty, v, stack).value + rest, stack) == ReadBack(reg, ty, v, stack)
    decreases v, |v.entries| + 1, 0
  {
    hide Encode, Decode, DistinctKeys, Norm, Registry.Valid, EncodeKeys, EncodeVals, DecodeEntries, DistinctEntries,
         NormEntries, Strict, Unique;
    var es := v.entries;
    UnfoldMapBytes(reg, ty, v, stack);
    UnfoldMapRead(reg, ty, |es|, Encode(reg, ty, v, stack).value + rest, stack);
    UnfoldMapNorm(reg, ty, v, stack);
    var keys := EncodeKeys(reg, ty.key, es, stack).value;
    var vals := EncodeVals(reg, ty.value, es, stack);
    var o := Order(keys);
    OrderSorts(keys);
    SortedRows(reg, ty, v, stack, keys, o);
    var ks, vs := Permute(keys, o), Permute(vals, o);
    DecodeEncodeRows(reg, ty, v, Permute(es, o), ks, vs, stack, rest, None);
    Splits(ToBE(|es|, 4), Flatten(ks, vs).value, rest);
    ChainIsStrict(None, ks);
    OrderStrict(keys);
    SortedEntriesAgree(reg, ty.key, ty.value, es, stack, o);
  }

  lemma SortedRows(reg: Registry, ty: Ty, v: Val, stack: set<Ty>, keys: seq<bytes>, o: seq<nat>)
    requires reg.Valid() && ty.TMap? && v.VMap? && EncodeKeys(reg, ty.key, v.entries, stack) == Ok(keys)
    requires forall i :: 0 <= i < |v.entries| ==> EntryEncodes(reg, ty.key, ty.value, v.entries[i], stack)
    requires Indices(o, |v.entries|)
    ensures Rows(reg, ty, v, Permute(v.entries, o), Permute(keys, o),
                 Permute(EncodeVals(reg, ty.value, v.entries, stack), o), stack)
  {
    hide Encode, Encodes, Registry.Valid, EncodeKeys, EncodeVals;
    var es := v.entries;
    forall i | 0 <= i < |o| ensures Encode(reg, ty.key, es[o[i]].key, stack) == Ok(keys[o[i]]) {
      EncodeKeysAt(reg, ty.key, es, stack, o[i]);
    }
    forall i | 0 <= i < |o|
      ensures Encode(reg, ty.value, es[o[i]].val, stack) == EncodeVals(reg, ty.value, es, stack)[o[i]]
    {
      EncodeValsAt(reg, ty.value, es, stack, o[i]);
    }
  }

  /** Sorting entries changes neither whether they are distinct nor what each is read back as. */
  lemma SortedEntriesAgree(reg: Registry, kt: Ty, vt: Ty, es: seq<Entry>, stack: set<Ty>, o: seq<nat>)
    requires Indices(o, |es|)
    requires forall i :: 0 <= i < |es| ==> EntryEncodes(reg, kt, vt, es[i], stack)
    ensures DistinctEntries(reg, kt, vt, es, stack) <==> DistinctEntries(reg, kt, vt, Permute(es, o), stack)
    ensures NormEntries(reg, kt, vt, Permute(es, o), stack) == Permute(NormEntries(reg, kt, vt, es, stack), o)
  {
    hide Encodes, EntryEncodes, NormEntry, DistinctEntry, DistinctEntries, NormEntries;
    var sorted := Permute(es, o);
    DistinctEntriesAll(reg, kt, vt, es, stack);
    DistinctEntriesAll(reg, kt, vt, sorted, stack);
    if DistinctEntries(reg, kt, vt, sorted, stack) {
      forall i | 0 <= i < |es| ensures DistinctEntry(reg, kt, vt, es[i], stack) {
        assert i in o;
        var j :| 0 <= j < |o| && o[j] == i;
        assert sorted[j] == es[i];
      }
    }
    forall j | 0 <= j < |o|
      ensures NormEntries(reg, kt, vt, sorted, stack)[j] == NormEntries(reg, kt, vt, es, stack)[o[j]]
    {
      NormEntriesAt(reg, kt, vt, sorted, stack, j);
      NormEntriesAt(reg, kt, vt, es, stack, o[j]);
    }
  }
}
