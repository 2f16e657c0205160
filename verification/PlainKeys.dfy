/**
 When a value is sure to read back, by its type alone: every map in it has keys whose bytes tell them
 apart. And a value that does not, because its keys differ only where they are not serialized.
 */
module PlainKeys {
  import opened Results
  import opened Bytes
  import opened KeyOrder
  import opened Codec
  import opened RoundTrip
  import opened Canonical

  /** A key type all of whose data is serialized; `plain` are the interfaces it may use. */
  predicate PlainTy(ty: Ty, plain: set<nat>)
    decreases ty
  {
    match ty
    case TInt(_, _) => true
    case TBool => true
    case TString => true
    case TIface(i) => i in plain
    case TArray(_, elem) => PlainTy(elem, plain)
    case TStruct(_, fields) => PlainFields(fields, plain)
    case _ => false
  }

  predicate PlainFields(fields: seq<Field>, plain: set<nat>)
    decreases fields
  {
    fields == [] || (
      assert fields decreases to fields[0];
      fields[0].tagged && PlainTy(fields[0].ty, plain) && PlainFields(fields[1..], plain))
  }

  /** A type all of whose maps have plain keys; `open` are the interfaces it may use outside of keys. */
  predicate PlainMaps(ty: Ty, plain: set<nat>, open: set<nat>)
    decreases ty
  {
    match ty
    case TPtr(elem) => PlainMaps(elem, plain, open)
    case TIface(i) => i in open
    case TSlice(elem) => PlainMaps(elem, plain, open)
    case TArray(_, elem) => PlainMaps(elem, plain, open)
    case TStruct(_, fields) => PlainMapFields(fields, plain, open)
    case TMap(key, value) => PlainTy(key, plain) && PlainMaps(value, plain, open)
    case _ => true
  }

  predicate PlainMapFields(fields: seq<Field>, plain: set<nat>, open: set<nat>)
    decreases fields
  {
    fields == [] || (
      assert fields decreases to fields[0];
      (fields[0].tagged ==> PlainMaps(fields[0].ty, plain, open)) && PlainMapFields(fields[1..], plain, open))
  }

  /** The registered types behind those interfaces are of the same kind. */
  ghost predicate PlainRegistry(reg: Registry, plain: set<nat>, open: set<nat>) {
    && reg.Valid()
    && (forall t, i :: (t, i) in reg.implements && i in plain && t in reg.idOf ==> PlainTy(t, plain))
    && (forall t, i :: (t, i) in reg.implements && i in open && t in reg.idOf ==> PlainMaps(t, plain, open))
  }

  /** The keys of every map in the value are pairwise different, as those of a map always are. */
  ghost predicate RealMaps(v: Val)
    decreases v
  {
    match v
    case VPtr(target) => RealMaps(target)
    case VIface(_, held) => RealMaps(held)
    case VSeq(vs) => forall i :: 0 <= i < |vs| ==> RealMaps(vs[i])
    case VMap(es) => DifferentKeys(es) && forall i :: 0 <= i < |es| ==> RealEntry(es[i])
    case _ => true
  }

  ghost predicate RealEntry(e: Entry)
    decreases e
  {
    RealMaps(e.key) && RealMaps(e.val)
  }

  predicate DifferentKeys(es: seq<Entry>) {
    forall i, j :: 0 <= i < j < |es| ==> es[i].key != es[j].key
  }

  // ---------- plain keys read back as themselves ----------

  lemma {:induction false} PlainNorm(reg: Registry, ty: Ty, v: Val, stack: set<Ty>, plain: set<nat>, open: set<nat>)
    requires PlainRegistry(reg, plain, open) && PlainTy(ty, plain) && Encodes(reg, ty, v, stack)
    ensures Norm(reg, ty, v, stack) == v && DistinctKeys(reg, ty, v, stack)
    decreases v
  {
    match ty
    case TIface(i) => PlainNorm(reg, v.dynamic, v.held, stack + {v.dynamic}, plain, open);
    case TArray(_, elem) => PlainNormElems(reg, elem, v.vs, stack, plain, open);
    case TStruct(_, fields) => PlainNormFields(reg, fields, v.vs, stack, plain, open);
    case _ =>
  }

  lemma {:induction false} PlainNormElems(reg: Registry, elem: Ty, vs: seq<Val>, stack: set<Ty>, plain: set<nat>,
                                          open: set<nat>)
    requires PlainRegistry(reg, plain, open) && PlainTy(elem, plain) && EncodeElems(reg, elem, vs, stack, false).Ok?
    ensures NormElems(reg, elem, vs, stack, false) == vs && DistinctElems(reg, elem, vs, stack, false)
    decreases vs
  {
    hide PlainRegistry, PlainTy, Encode, Norm, DistinctKeys;
    if vs != [] {
      RegistryOk(reg, plain, open);
      PlainNorm(reg, elem, vs[0], stack, plain, open);
      PlainNormElems(reg, elem, vs[1..], stack, plain, open);
      assert vs == [vs[0]] + vs[1..];
    }
  }

  lemma {:induction false} PlainNormFields(reg: Registry, fields: seq<Field>, vs: seq<Val>, stack: set<Ty>,
                                           plain: set<nat>, open: set<nat>)
    requires PlainRegistry(reg, plain, open) && PlainFields(fields, plain)
    requires |vs| == |fields| && EncodeFields(reg, fields, vs, stack).Ok?
    ensures NormFields(reg, fields, vs, stack) == vs && DistinctFields(reg, fields, vs, stack)
    decreases vs
  {
    hide PlainRegistry, PlainTy, Encode, Norm, DistinctKeys;
    if vs != [] {
      RegistryOk(reg, plain, open);
      PlainNorm(reg, fields[0].ty, vs[0], stack, plain, open);
      PlainNormFields(reg, fields[1..], vs[1..], stack, plain, open);
      assert vs == [vs[0]] + vs[1..];
    }
  }

  lemma RegistryOk(reg: Registry, plain: set<nat>, open: set<nat>)
    requires PlainRegistry(reg, plain, open)
    ensures reg.Valid()
  {
  }

  /** Different plain keys have different bytes. */
  lemma PlainKeysDiffer(reg: Registry, kt: Ty, es: seq<Entry>, stack: set<Ty>, plain: set<nat>, open: set<nat>)
    requires PlainRegistry(reg, plain, open) && PlainTy(kt, plain)
    requires EncodeKeys(reg, kt, es, stack).Ok? && DifferentKeys(es)
    ensures Unique(EncodeKeys(reg, kt, es, stack).value)
  {
    hide PlainRegistry, PlainTy, Encode, EncodeKeys, Norm, DistinctKeys;
    RegistryOk(reg, plain, open);
    var ks := EncodeKeys(reg, kt, es, stack).value;
    forall i, j | 0 <= i < j < |ks| ensures ks[i] != ks[j] {
      EncodeKeysAt(reg, kt, es, stack, i);
      EncodeKeysAt(reg, kt, es, stack, j);
      PlainNorm(reg, kt, es[i].key, stack, plain, open);
      PlainNorm(reg, kt, es[j].key, stack, plain, open);
      SameBytesSameData(reg, kt, es[i].key, es[j].key, stack);
    }
  }

  // ---------- types decide ----------

  /** A value of a type all of whose maps have plain keys has no two keys with the same bytes, so it reads back. */
  lemma {:induction false} TypesDecide(reg: Registry, ty: Ty, v: Val, stack: set<Ty>, plain: set<nat>, open: set<nat>)
    requires PlainRegistry(reg, plain, open) && PlainMaps(ty, plain, open)
    requires Encodes(reg, ty, v, stack) && RealMaps(v)
    ensures DistinctKeys(reg, ty, v, stack)
    decreases v
  {
    match ty
    case TPtr(elem) => TypesDecide(reg, elem, v.target, stack, plain, open);
    case TIface(i) => TypesDecide(reg, v.dynamic, v.held, stack + {v.dynamic}, plain, open);
    case TSlice(elem) => if Elements(v).value != [] { TypesDecideElems(reg, elem, v.vs, stack, true, plain, open); }
    case TArray(_, elem) => TypesDecideElems(reg, elem, v.vs, stack, false, plain, open);
    case TStruct(_, fields) => TypesDecideFields(reg, fields, v.vs, stack, plain, open);
    case TMap(_, _) => if Entries(v).value != [] { TypesDecideMap(reg, ty, v, stack, plain, open); }
    case _ =>
  }

  lemma {:induction false} TypesDecideElems(reg: Registry, elem: Ty, vs: seq<Val>, stack: set<Ty>, nonZero: bool,
                                            plain: set<nat>, open: set<nat>)
    requires PlainRegistry(reg, plain, open) && PlainMaps(elem, plain, open)
    requires EncodeElems(reg, elem, vs, stack, nonZero).Ok? && forall i :: 0 <= i < |vs| ==> RealMaps(vs[i])
    ensures DistinctElems(reg, elem, vs, stack, nonZero)
    decreases vs
  {
    hide PlainRegistry, PlainMaps, Encode, DistinctKeys, RealMaps;
    if vs != [] {
      RegistryOk(reg, plain, open);
      TypesDecide(reg, elem, vs[0], stack, plain, open);
      assert forall i :: 0 <= i < |vs[1..]| ==> RealMaps(vs[1..][i]);
      TypesDecideElems(reg, elem, vs[1..], stack, nonZero, plain, open);
    }
  }

  lemma {:induction false} TypesDecideFields(reg: Registry, fields: seq<Field>, vs: seq<Val>, stack: set<Ty>,
                                             plain: set<nat>, open: set<nat>)
    requires PlainRegistry(reg, plain, open) && PlainMapFields(fields, plain, open) && |vs| == |fields|
    requires EncodeFields(reg, fields, vs, stack).Ok? && forall i :: 0 <= i < |vs| ==> RealMaps(vs[i])
    ensures DistinctFields(reg, fields, vs, stack)
    decreases vs
  {
    hide PlainRegistry, PlainMaps, Encode, DistinctKeys, RealMaps;
    if vs != [] {
      RegistryOk(reg, plain, open);
      if fields[0].tagged { TypesDecide(reg, fields[0].ty, vs[0], stack, plain, open); }
      assert forall i :: 0 <= i < |vs[1..]| ==> RealMaps(vs[1..][i]);
      TypesDecideFields(reg, fields[1..], vs[1..], stack, plain, open);
    }
  }

  lemma TypesDecideMap(reg: Registry, ty: Ty, v: Val, stack: set<Ty>, plain: set<nat>, open: set<nat>)
    requires PlainRegistry(reg, plain, open) && ty.TMap? && PlainMaps(ty, plain, open)
    requires Encodes(reg, ty, v, stack) && v.VMap? && v.entries != [] && RealMaps(v)
    ensures DistinctKeys(reg, ty, v, stack)
    decreases v, 0
  {
    var es := v.entries;
    MapEntriesEncode(reg, ty, v, stack);
    PlainKeysDiffer(reg, ty.key, es, stack, plain, open);
    forall i | 0 <= i < |es| ensures DistinctEntry(reg, ty.key, ty.value, es[i], stack) {
      assert RealEntry(es[i]);
      assert es decreases to es[i];
      PlainNorm(reg, ty.key, es[i].key, stack, plain, open);
      TypesDecide(reg, ty.value, es[i].val, stack, plain, open);
    }
    DistinctEntriesAll(reg, ty.key, ty.value, es, stack);
  }

  /** So such a value unmarshals to its data, from its bytes and any suffix. */
  lemma PlainReadsBack(reg: Registry, ty: Ty, v: Val, plain: set<nat>, open: set<nat>, rest: bytes)
    requires PlainRegistry(reg, plain, open) && PlainMaps(ty, plain, open) && Encodes(reg, ty, v, {}) && RealMaps(v)
    ensures var b := Encode(reg, ty, v, {}).value;
            Decode(reg, ty, b + rest, {}) == Ok(Read(Norm(reg, ty, v, {}), |b|))
  {
    hide PlainRegistry, PlainMaps, Encode, DistinctKeys, RealMaps, Norm, Decode;
    TypesDecide(reg, ty, v, {}, plain, open);
    DecodeEncode(reg, ty, v, {}, rest);
  }

  // ---------- a value that does not read back ----------

  const NOTHING_REGISTERED: Registry := Registry(map[], map[], {})

  /** Keys with a serialized and an unserialized field. */
  const HALF_KEY: Ty := TStruct(0, [Field(TBool, true, true), Field(TBool, false, true)])

  /** Two keys that differ only in the field that is not serialized: the map marshals and is refused on reading. */
  lemma CollidingKeys()
    ensures var ty := TMap(HALF_KEY, TBool);
            var v := VMap([Entry(VSeq([VBool(true), VBool(false)]), VBool(true)),
                           Entry(VSeq([VBool(true), VBool(true)]), VBool(false))]);
            && RealMaps(v) && Encodes(NOTHING_REGISTERED, ty, v, {})
            && Decode(NOTHING_REGISTERED, ty, Encode(NOTHING_REGISTERED, ty, v, {}).value, {}) == Err(KeysNotSorted)
  {
    hide Encode, Decode, DistinctKeys, Norm, EncodeKeys, RealMaps;
    var reg, ty := NOTHING_REGISTERED, TMap(HALF_KEY, TBool);
    var e := Entry(VSeq([VBool(true), VBool(false)]), VBool(true));
    var f := Entry(VSeq([VBool(true), VBool(true)]), VBool(false));
    var v := VMap([e, f]);
    HalfKeyBytes(true, false);
    HalfKeyBytes(true, true);
    BoolBytes();
    PairBytes(reg, HALF_KEY, TBool, e, f, [1], [1], [1], [0]);
    EqualKeysCollide(reg, ty, e, f, [1]);
    assert e.key.vs[1] != f.key.vs[1];
    SmallKeysReal(e, f);
    DecodeEncode(reg, ty, v, {}, []);
    assert Encode(reg, ty, v, {}).value + [] == Encode(reg, ty, v, {}).value;
  }

  lemma BoolBytes()
    ensures Encode(NOTHING_REGISTERED, TBool, VBool(true), {}) == Ok([1])
    ensures Encode(NOTHING_REGISTERED, TBool, VBool(false), {}) == Ok([0])
  {
  }

  lemma EqualKeysCollide(reg: Registry, ty: Ty, e: Entry, f: Entry, k: bytes)
    requires ty.TMap? && Encodes(reg, ty, VMap([e, f]), {}) && EncodeKeys(reg, ty.key, [e, f], {}) == Ok([k, k])
    ensures !DistinctKeys(reg, ty, VMap([e, f]), {})
  {
    hide Encode, EncodeKeys, DistinctEntries;
    var keys := EncodeKeys(reg, ty.key, [e, f], {}).value;
    assert keys[0] == keys[1];
  }

  lemma SmallKeysReal(e: Entry, f: Entry)
    requires e.key != f.key && e.val.VBool? && f.val.VBool?
    requires e.key.VSeq? && (forall i :: 0 <= i < |e.key.vs| ==> e.key.vs[i].VBool?)
    requires f.key.VSeq? && (forall i :: 0 <= i < |f.key.vs| ==> f.key.vs[i].VBool?)
    ensures RealMaps(VMap([e, f]))
  {
    assert RealMaps(e.key) && RealMaps(f.key);
    assert RealEntry(e) && RealEntry(f);
  }

  lemma HalfKeyBytes(a: bool, b: bool)
    ensures Encode(NOTHING_REGISTERED, HALF_KEY, VSeq([VBool(a), VBool(b)]), {}) == Ok([if a then 1 else 0])
  {
    var fields, vs := HALF_KEY.fields, [VBool(a), VBool(b)];
    var bit: bytes := [if a then 1 else 0];
    assert vs[1..] == [VBool(b)] && vs[1..][1..] == [] && fields[1..] == [fields[1]];
    assert EncodeFields(NOTHING_REGISTERED, fields[1..], vs[1..], {}) == Ok([]);
    assert Encode(NOTHING_REGISTERED, TBool, vs[0], {}) == Ok(bit);
    assert bit + [] == bit;
    assert EncodeFields(NOTHING_REGISTERED, fields, vs, {}) == Ok(bit);
  }

  /** A map of two entries marshals if its keys and values do. */
  lemma PairBytes(reg: Registry, kt: Ty, vt: Ty, e: Entry, f: Entry, k: bytes, l: bytes, x: bytes, y: bytes)
    requires reg.Valid() && k != [] && l != []
    requires Encode(reg, kt, e.key, {}) == Ok(k) && Encode(reg, kt, f.key, {}) == Ok(l)
    requires Encode(reg, vt, e.val, {}) == Ok(x) && Encode(reg, vt, f.val, {}) == Ok(y)
    ensures EncodeKeys(reg, kt, [e, f], {}) == Ok([k, l]) && Encode(reg, TMap(kt, vt), VMap([e, f]), {}).Ok?
  {
    hide EncodeKeys, EncodeVals, Flatten, Order, Permute, Registry.Valid;
    var es := [e, f];
    KeysPair(reg, kt, e, f, k, l);
    ValsPair(reg, vt, e, f);
    FlattenPair([k, l], EncodeVals(reg, vt, es, {}));
  }

  lemma KeysPair(reg: Registry, kt: Ty, e: Entry, f: Entry, k: bytes, l: bytes)
    requires reg.Valid() && Encode(reg, kt, e.key, {}) == Ok(k) && Encode(reg, kt, f.key, {}) == Ok(l)
    ensures EncodeKeys(reg, kt, [e, f], {}) == Ok([k, l])
  {
    hide Encode, Registry.Valid;
    var es := [e, f];
    assert es[0] == e && es[1..] == [f] && [f][1..] == [];
    assert EncodeKeys(reg, kt, [], {}) == Ok([]);
    assert EncodeKeys(reg, kt, [f], {}) == Ok([l] + []);
    assert [l] + [] == [l] && [k] + [l] == [k, l];
  }

  lemma ValsPair(reg: Registry, vt: Ty, e: Entry, f: Entry)
    requires reg.Valid()
    ensures EncodeVals(reg, vt, [e, f], {}) == [Encode(reg, vt, e.val, {}), Encode(reg, vt, f.val, {})]
  {
    hide Encode, Registry.Valid;
    EncodeValsAt(reg, vt, [e, f], {}, 0);
    EncodeValsAt(reg, vt, [e, f], {}, 1);
  }

  lemma FlattenPair(keys: seq<bytes>, vals: seq<Result<bytes, Error>>)
    requires |keys| == |vals| == 2 && keys[0] != [] && keys[1] != [] && vals[0].Ok? && vals[1].Ok?
    ensures Flatten(Permute(keys, Order(keys)), Permute(vals, Order(keys))).Ok?
  {
    OrderSorts(keys);
    var ks, vs := Permute(keys, Order(keys)), Permute(vals, Order(keys));
    assert |ks| == 2;
    assert Flatten(ks[1..][1..], vs[1..][1..]) == Ok([]);
    assert Flatten(ks[1..], vs[1..]).Ok?;
  }
}
