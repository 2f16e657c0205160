/**
 Encodings are canonical: the only bytes that unmarshal to a value are those the value marshals to.
 Together with the round trip this makes the encoding of a type prefix-free and injective on
 serialized data, and marshalling a map independent of the order in which its keys are handed out.
 */
module Canonical {
  import opened Results
  import opened Bytes
  import opened KeyOrder
  import opened Codec
  import opened RoundTrip

  ghost predicate Decodes(reg: Registry, ty: Ty, s: bytes, stack: set<Ty>) {
    reg.Valid() && Decode(reg, ty, s, stack).Ok?
  }

  lemma {:induction false} EncodeDecode(reg: Registry, ty: Ty, s: bytes, stack: set<Ty>)
    requires Decodes(reg, ty, s, stack)
    ensures var x := Decode(reg, ty, s, stack).value;
            Encode(reg, ty, x.val, stack) == Ok(s[..x.used])
    decreases |reg.Types() - stack|, ty
  {
    match ty
    case TPtr(elem) => EncodeDecode(reg, elem, s, stack);
    case TIface(_) => EncodeDecodeIface(reg, ty, s, stack);
    case TSlice(_) => EncodeDecodeSlice(reg, ty, s, stack);
    case TArray(n, _) => EncodeDecodeElems(reg, ty, n, s, stack);
    case TStruct(_, fields) => EncodeDecodeFields(reg, fields, s, stack);
    case TMap(_, _) => EncodeDecodeMap(reg, ty, s, stack);
    case _ => EncodeDecodeBasic(reg, ty, s, stack);
  }

  lemma EncodeDecodeBasic(reg: Registry, ty: Ty, s: bytes, stack: set<Ty>)
    requires (ty.TInt? || ty.TBool? || ty.TString?) && Decodes(reg, ty, s, stack)
    ensures var x := Decode(reg, ty, s, stack).value;
            Encode(reg, ty, x.val, stack) == Ok(s[..x.used])
  {
    match ty
    case TInt(signed, w) =>
      hide Unwrap, Pow256;
      ToBEFromBE(s[..w]);
      WrapUnwrap(signed, w, FromBE(s[..w]));
    case TBool =>
      assert s[..1] == [s[0]];
    case TString =>
      var n := FromBE(s[..2]);
      Pow256Values();
      ToBEFromBE(s[..2]);
      assert s[..2 + n] == s[..2] + s[2..2 + n];
  }

  lemma EncodeDecodeIface(reg: Registry, ty: Ty, s: bytes, stack: set<Ty>)
    requires ty.TIface? && Decodes(reg, ty, s, stack)
    ensures var x := Decode(reg, ty, s, stack).value;
            Encode(reg, ty, x.val, stack) == Ok(s[..x.used])
    decreases |reg.Types() - stack|, ty, 0
  {
    var t := DecodePrefix(reg, ty.iface, s).value;
    StackGrows(reg, t, stack);
    EncodeDecode(reg, t, s[4..], stack + {t});
    var x := Decode(reg, t, s[4..], stack + {t}).value;
    TakesTwo(s, 4, x.used);
  }

  lemma EncodeDecodeSlice(reg: Registry, ty: Ty, s: bytes, stack: set<Ty>)
    requires ty.TSlice? && Decodes(reg, ty, s, stack)
    ensures var x := Decode(reg, ty, s, stack).value;
            Encode(reg, ty, x.val, stack) == Ok(s[..x.used])
    decreases |reg.Types() - stack|, ty, 0, 0
  {
    hide DecodeElems, Registry.Valid;
    var n := DecodeCount(s).value;
    EncodeDecodeElems(reg, ty, n, s[4..], stack);
    var x := DecodeElems(reg, ty, n, s[4..], stack).value;
    TakesTwo(s, 4, x.used);
  }

  lemma {:induction false} EncodeDecodeElems(reg: Registry, ty: Ty, n: nat, s: bytes, stack: set<Ty>)
    requires reg.Valid() && (ty.TSlice? || ty.TArray?) && DecodeElems(reg, ty, n, s, stack).Ok?
    ensures var x := DecodeElems(reg, ty, n, s, stack).value;
            EncodeElems(reg, ty.elem, x.val, stack, ty.TSlice?) == Ok(s[..x.used])
    decreases |reg.Types() - stack|, ty, 0, 0, n
  {
    hide Encode, Decode, Registry.Valid;
    if n > 0 {
      var x := Decode(reg, ty.elem, s, stack).value;
      EncodeDecode(reg, ty.elem, s, stack);
      EncodeDecodeElems(reg, ty, n - 1, s[x.used..], stack);
      var rest := DecodeElems(reg, ty, n - 1, s[x.used..], stack).value;
      TakesTwo(s, x.used, rest.used);
      assert ([x.val] + rest.val)[1..] == rest.val;
    }
  }

  lemma TakesTwo(s: bytes, m: nat, n: nat)
    requires m + n <= |s|
    ensures s[..m] + s[m..][..n] == s[..m + n]
    ensures s[m..][n..] == s[m + n..]
  {
  }

  lemma {:induction false} EncodeDecodeFields(reg: Registry, fields: seq<Field>, s: bytes, stack: set<Ty>)
    requires reg.Valid() && DecodeFields(reg, fields, s, stack).Ok?
    ensures var x := DecodeFields(reg, fields, s, stack).value;
            EncodeFields(reg, fields, x.val, stack) == Ok(s[..x.used])
    decreases |reg.Types() - stack|, fields
  {
    hide Encode, Decode, Registry.Valid;
    if fields == [] {
    } else if !fields[0].tagged {
      EncodeDecodeFields(reg, fields[1..], s, stack);
      var rest := DecodeFields(reg, fields[1..], s, stack).value;
      assert ([Zero(fields[0].ty)] + rest.val)[1..] == rest.val;
    } else {
      assert fields decreases to fields[0];
      var x := Decode(reg, fields[0].ty, s, stack).value;
      EncodeDecode(reg, fields[0].ty, s, stack);
      EncodeDecodeFields(reg, fields[1..], s[x.used..], stack);
      var rest := DecodeFields(reg, fields[1..], s[x.used..], stack).value;
      TakesTwo(s, x.used, rest.used);
      assert ([x.val] + rest.val)[1..] == rest.val;
    }
  }

  /** The entries just read marshal, in that order, to the bytes they were read from. */
  lemma {:induction false} EncodeDecodeEntries(reg: Registry, ty: Ty, n: nat, s: bytes, stack: set<Ty>,
                                               prev: Option<bytes>)
    requires reg.Valid() && ty.TMap? && DecodeEntries(reg, ty, n, s, stack, prev).Ok?
    ensures var x := DecodeEntries(reg, ty, n, s, stack, prev).value;
            var keys := EncodeKeys(reg, ty.key, x.val, stack);
            && keys.Ok? && Chain(prev, keys.value)
            && Flatten(keys.value, EncodeVals(reg, ty.value, x.val, stack)) == Ok(s[..x.used])
    decreases |reg.Types() - stack|, ty, 0, 0, n
  {
    hide Encode, Decode, Less, Registry.Valid;
    if n > 0 {
      var k := Decode(reg, ty.key, s, stack).value;
      EncodeDecode(reg, ty.key, s, stack);
      var v := Decode(reg, ty.value, s[k.used..], stack).value;
      EncodeDecode(reg, ty.value, s[k.used..], stack);
      EncodeDecodeEntries(reg, ty, n - 1, s[k.used + v.used..], stack, Some(s[..k.used]));
      var rest := DecodeEntries(reg, ty, n - 1, s[k.used + v.used..], stack, Some(s[..k.used])).value;
      TakesTwo(s, k.used, v.used);
      TakesTwo(s, k.used + v.used, rest.used);
      var e := Entry(k.val, v.val);
      var keys := EncodeKeys(reg, ty.key, rest.val, stack).value;
      var vals := EncodeVals(reg, ty.value, rest.val, stack);
      assert ([e] + rest.val)[1..] == rest.val;
      assert ([s[..k.used]] + keys)[1..] == keys;
      assert ([Encode(reg, ty.value, v.val, stack)] + vals)[1..] == vals;
    }
  }

  lemma EncodeDecodeMap(reg: Registry, ty: Ty, s: bytes, stack: set<Ty>)
    requires ty.TMap? && Decodes(reg, ty, s, stack)
    ensures var x := Decode(reg, ty, s, stack).value;
            Encode(reg, ty, x.val, stack) == Ok(s[..x.used])
    decreases |reg.Types() - stack|, ty, 1
  {
    hide DecodeEntries, EncodeKeys, EncodeVals, Flatten, Registry.Valid, Encode;
    var n := DecodeCount(s).value;
    UnfoldMapRead(reg, ty, n, s, stack);
    EncodeDecodeEntries(reg, ty, n, s[4..], stack, None);
    var x := DecodeEntries(reg, ty, n, s[4..], stack, None).value;
    var keys := EncodeKeys(reg, ty.key, x.val, stack).value;
    var vals := EncodeVals(reg, ty.value, x.val, stack);
    ChainIsStrict(None, keys);
    OrderOfStrict(keys, |keys|);
    SortedMapBytes(reg, ty, x.val, stack);
    TakesTwo(s, 4, x.used);
  }

  /** A map whose keys come out sorted is written in that order. */
  lemma SortedMapBytes(reg: Registry, ty: Ty, es: seq<Entry>, stack: set<Ty>)
    requires reg.Valid() && ty.TMap? && |es| <= MAX_INT32 && |es| < Pow256(4)
    requires EncodeKeys(reg, ty.key, es, stack).Ok? && Strict(EncodeKeys(reg, ty.key, es, stack).value)
    ensures var b := Flatten(EncodeKeys(reg, ty.key, es, stack).value, EncodeVals(reg, ty.value, es, stack));
            b.Ok? ==> Encode(reg, ty, VMap(es), stack) == Ok(ToBE(|es|, 4) + b.value)
  {
    hide EncodeKeys, EncodeVals, Flatten, Registry.Valid;
    if es == [] {
      MapOfNothing(reg, ty, stack);
    } else {
      var keys := EncodeKeys(reg, ty.key, es, stack).value;
      var vals := EncodeVals(reg, ty.value, es, stack);
      OrderOfStrict(keys, |keys|);
      assert Permute(keys, Order(keys)) == keys;
      assert Permute(vals, Order(keys)) == vals;
    }
  }

  lemma MapOfNothing(reg: Registry, ty: Ty, stack: set<Ty>)
    requires reg.Valid() && ty.TMap?
    ensures EncodeKeys(reg, ty.key, [], stack) == Ok([])
    ensures Flatten([], EncodeVals(reg, ty.value, [], stack)) == Ok([])
    ensures Encode(reg, ty, VMap([]), stack) == Ok(ToBE(0, 4) + [])
  {
    assert ToBE(0, 4) + [] == ToBE(0, 4);
  }

  // ---------- consequences ----------

  /** What was read marshals back to the bytes it was read from, and reads back as itself. */
  lemma DecodedIsCanonical(reg: Registry, ty: Ty, s: bytes, stack: set<Ty>)
    requires Decodes(reg, ty, s, stack)
    ensures var v := Decode(reg, ty, s, stack).value.val;
            Encodes(reg, ty, v, stack) && DistinctKeys(reg, ty, v, stack) && Norm(reg, ty, v, stack) == v
  {
    var x := Decode(reg, ty, s, stack).value;
    EncodeDecode(reg, ty, s, stack);
    DecodeEncode(reg, ty, x.val, stack, s[x.used..]);
    assert s[..x.used] + s[x.used..] == s;
  }

  /** Resetting what is not serialized does not change the bytes. */
  lemma NormKeepsBytes(reg: Registry, ty: Ty, v: Val, stack: set<Ty>)
    requires Encodes(reg, ty, v, stack) && DistinctKeys(reg, ty, v, stack)
    ensures Encode(reg, ty, Norm(reg, ty, v, stack), stack) == Encode(reg, ty, v, stack)
  {
    hide Encode, Decode, DistinctKeys, Norm;
    var b := Encode(reg, ty, v, stack).value;
    DecodeEncode(reg, ty, v, stack, []);
    assert b + [] == b;
    EncodeDecode(reg, ty, b, stack);
    assert b[..|b|] == b;
  }

  /** Two values have the same bytes exactly when they read back as the same value. */
  lemma SameBytesSameData(reg: Registry, ty: Ty, v: Val, w: Val, stack: set<Ty>)
    requires Encodes(reg, ty, v, stack) && DistinctKeys(reg, ty, v, stack)
    requires Encodes(reg, ty, w, stack) && DistinctKeys(reg, ty, w, stack)
    ensures Encode(reg, ty, v, stack) == Encode(reg, ty, w, stack) <==>
            Norm(reg, ty, v, stack) == Norm(reg, ty, w, stack)
  {
    hide Encode, Decode, DistinctKeys, Norm;
    DecodeEncode(reg, ty, v, stack, []);
    DecodeEncode(reg, ty, w, stack, []);
    NormKeepsBytes(reg, ty, v, stack);
    NormKeepsBytes(reg, ty, w, stack);
  }

  /** No encoding of a type is a proper prefix of another. */
  lemma PrefixFree(reg: Registry, ty: Ty, v: Val, w: Val, stack: set<Ty>)
    requires Encodes(reg, ty, v, stack) && DistinctKeys(reg, ty, v, stack)
    requires Encodes(reg, ty, w, stack)
    requires Encode(reg, ty, v, stack).value <= Encode(reg, ty, w, stack).value
    ensures Encode(reg, ty, v, stack) == Encode(reg, ty, w, stack)
  {
    hide Encode, Decode, DistinctKeys, Norm;
    var a, b := Encode(reg, ty, v, stack).value, Encode(reg, ty, w, stack).value;
    DecodeEncode(reg, ty, v, stack, b[|a|..]);
    assert a + b[|a|..] == b + [] == b;
    DecodeEncode(reg, ty, w, stack, []);
  }

  /** What is written for a map whose `n` keys and values have the given bytes. */
  ghost function MapBytes(keys: seq<bytes>, vals: seq<Result<bytes, Error>>): Result<bytes, Error>
    requires |keys| == |vals|
  {
    if |keys| > MAX_INT32 then Err(MaxSliceLenExceeded) else
      Pow256Values();
      var b :- Flatten(Permute(keys, Order(keys)), Permute(vals, Order(keys)));
      Ok(ToBE(|keys|, 4) + b)
  }

  lemma EncodeIsMapBytes(reg: Registry, ty: Ty, es: seq<Entry>, stack: set<Ty>)
    requires reg.Valid() && ty.TMap? && EncodeKeys(reg, ty.key, es, stack).Ok?
    ensures Encode(reg, ty, VMap(es), stack) ==
            MapBytes(EncodeKeys(reg, ty.key, es, stack).value, EncodeVals(reg, ty.value, es, stack))
  {
    hide EncodeKeys, EncodeVals, Registry.Valid;
    if es == [] {
      assert ToBE(0, 4) + [] == ToBE(0, 4);
    }
  }

  /** The order in which a map hands out its keys does not show in its bytes. */
  lemma MapOrderIrrelevant(reg: Registry, ty: Ty, es: seq<Entry>, stack: set<Ty>, o: seq<nat>)
    requires reg.Valid() && ty.TMap? && Indices(o, |es|)
    requires EncodeKeys(reg, ty.key, es, stack).Ok? && Unique(EncodeKeys(reg, ty.key, es, stack).value)
    ensures Encode(reg, ty, VMap(Permute(es, o)), stack) == Encode(reg, ty, VMap(es), stack)
  {
    hide Encode, EncodeKeys, EncodeVals, Flatten, Registry.Valid;
    PermutedBytes(reg, ty, es, stack, o);
    EncodeIsMapBytes(reg, ty, es, stack);
    EncodeIsMapBytes(reg, ty, Permute(es, o), stack);
    SortedAlike(EncodeKeys(reg, ty.key, es, stack).value, EncodeVals(reg, ty.value, es, stack), o);
  }

  lemma PermutedBytes(reg: Registry, ty: Ty, es: seq<Entry>, stack: set<Ty>, o: seq<nat>)
    requires reg.Valid() && ty.TMap? && Indices(o, |es|) && EncodeKeys(reg, ty.key, es, stack).Ok?
    ensures EncodeKeys(reg, ty.key, Permute(es, o), stack) == Ok(Permute(EncodeKeys(reg, ty.key, es, stack).value, o))
    ensures EncodeVals(reg, ty.value, Permute(es, o), stack) == Permute(EncodeVals(reg, ty.value, es, stack), o)
  {
    hide Encode, EncodeKeys, EncodeVals, Registry.Valid;
    var ps := Permute(es, o);
    forall i | 0 <= i < |es|
      ensures Encode(reg, ty.key, ps[i].key, stack) == Ok(Permute(EncodeKeys(reg, ty.key, es, stack).value, o)[i])
    {
      EncodeKeysAt(reg, ty.key, es, stack, o[i]);
    }
    EncodeKeysFrom(reg, ty.key, ps, stack, Permute(EncodeKeys(reg, ty.key, es, stack).value, o));
    forall i | 0 <= i < |es|
      ensures EncodeVals(reg, ty.value, ps, stack)[i] == EncodeVals(reg, ty.value, es, stack)[o[i]]
    {
      EncodeValsAt(reg, ty.value, ps, stack, i);
      EncodeValsAt(reg, ty.value, es, stack, o[i]);
    }
  }

  lemma {:induction false} EncodeKeysFrom(reg: Registry, kt: Ty, es: seq<Entry>, stack: set<Ty>, keys: seq<bytes>)
    requires reg.Valid() && |keys| == |es|
    requires forall i :: 0 <= i < |es| ==> Encode(reg, kt, es[i].key, stack) == Ok(keys[i])
    ensures EncodeKeys(reg, kt, es, stack) == Ok(keys)
    decreases es
  {
    hide Encode, Registry.Valid;
    if es != [] {
      EncodeKeysFrom(reg, kt, es[1..], stack, keys[1..]);
      assert keys == [keys[0]] + keys[1..];
    }
  }

  /** Rearranging rows with pairwise different keys does not change the sorted rows. */
  lemma SortedAlike<T>(keys: seq<bytes>, vals: seq<T>, o: seq<nat>)
    requires |keys| == |vals| && Indices(o, |keys|) && Unique(keys)
    ensures var ks := Permute(keys, o);
            && Permute(ks, Order(ks)) == Permute(keys, Order(keys))
            && Permute(Permute(vals, o), Order(ks)) == Permute(vals, Order(keys))
  {
    var ks, vs := Permute(keys, o), Permute(vals, o);
    assert Unique(ks);
    OrderSorts(keys);
    OrderSorts(ks);
    OrderStrict(keys);
    OrderStrict(ks);
    var a, b := Permute(keys, Order(keys)), Permute(ks, Order(ks));
    PermuteMembers(keys, o);
    PermuteMembers(keys, Order(keys));
    PermuteMembers(ks, Order(ks));
    StrictUnique(b, a);
    forall i | 0 <= i < |keys| ensures vs[Order(ks)[i]] == vals[Order(keys)[i]] {
      var p, q := o[Order(ks)[i]], Order(keys)[i];
      assert keys[p] == b[i] && keys[q] == a[i];
    }
  }

  lemma PermuteMembers<T>(s: seq<T>, o: seq<nat>)
    requires Indices(o, |s|)
    ensures forall x :: x in Permute(s, o) <==> x in s
  {
    forall x | x in s ensures x in Permute(s, o) {
      var i :| 0 <= i < |s| && s[i] == x;
      assert i in o;
      var j :| 0 <= j < |o| && o[j] == i;
      assert Permute(s, o)[j] == x;
    }
  }
}
