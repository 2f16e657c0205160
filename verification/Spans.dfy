/**
 How much room the walk over a value that cannot be encoded takes up before it finds that out. With less room it runs
 out of space instead.
 */
module Spans {
  import opened Results
  import opened Bytes
  import opened KeyOrder
  import opened Codec

  ghost function Span(reg: Registry, ty: Ty, v: Val, stack: set<Ty>): nat
    requires reg.Valid()
    decreases v
  {
    match ty
    case TPtr(elem) => if v.VPtr? then Span(reg, elem, v.target, stack) else 0
    case TIface(i) =>
      if !v.VIface? || (v.dynamic, i) !in reg.implements || v.dynamic in stack || v.dynamic !in reg.idOf then 0
      else INT_LEN + Span(reg, v.dynamic, v.held, stack + {v.dynamic})
    case TSlice(elem) =>
      var vs := Elements(v);
      if vs.None? || |vs.value| > MAX_INT32 || vs.value == [] then 0
      else INT_LEN + SpanElems(reg, elem, vs.value, stack, true)
    case TArray(n, elem) => if v.VSeq? && |v.vs| == n then SpanElems(reg, elem, v.vs, stack, false) else 0
    case TStruct(_, fields) =>
      if v.VSeq? && |v.vs| == |fields| && FieldsOk(fields) then SpanFields(reg, fields, v.vs, stack) else 0
    case TMap(_, _) =>
      var es := Entries(v);
      if es.None? || |es.value| > MAX_INT32 || es.value == [] then 0
      else INT_LEN + SpanEntries(reg, ty, es.value, stack)
    case _ => 0
  }

  /** The elements before the one that fails, and what that one takes. */
  ghost function SpanElems(reg: Registry, elem: Ty, vs: seq<Val>, stack: set<Ty>, nonZero: bool): nat
    requires reg.Valid()
    decreases vs
  {
    if vs == [] then 0 else
      match Encode(reg, elem, vs[0], stack)
      case Err(_) => Span(reg, elem, vs[0], stack)
      case Ok(b) => if nonZero && b == [] then 0 else |b| + SpanElems(reg, elem, vs[1..], stack, nonZero)
  }

  ghost function SpanFields(reg: Registry, fields: seq<Field>, vs: seq<Val>, stack: set<Ty>): nat
    requires reg.Valid() && |vs| == |fields|
    decreases vs
  {
    if vs == [] then 0
    else if !fields[0].tagged then SpanFields(reg, fields[1..], vs[1..], stack)
    else
      match Encode(reg, fields[0].ty, vs[0], stack)
      case Err(_) => Span(reg, fields[0].ty, vs[0], stack)
      case Ok(b) => |b| + SpanFields(reg, fields[1..], vs[1..], stack)
  }

  ghost function SpanKeys(reg: Registry, kt: Ty, es: seq<Entry>, stack: set<Ty>): nat
    requires reg.Valid()
    decreases es, 0
  {
    if es == [] then 0 else
      assert es decreases to es[0];
      match Encode(reg, kt, es[0].key, stack)
      case Err(_) => Span(reg, kt, es[0].key, stack)
      case Ok(b) => |b| + SpanKeys(reg, kt, es[1..], stack)
  }

  ghost function SpanVals(reg: Registry, vt: Ty, es: seq<Entry>, stack: set<Ty>): (r: seq<nat>)
    requires reg.Valid()
    ensures |r| == |es|
    decreases es, 0
  {
    if es == [] then [] else
      assert es decreases to es[0];
      [Span(reg, vt, es[0].val, stack)] + SpanVals(reg, vt, es[1..], stack)
  }

  /** An entry that fails: its key and what its value takes, or nothing if it is empty. */
  function SpanEntry(key: bytes, val: Result<bytes, Error>, span: nat): nat {
    |key| + if val.Err? then span else 0
  }

  /** The sorted entries before the one that fails, and what that one takes. */
  function SpanFlat(keys: seq<bytes>, vals: seq<Result<bytes, Error>>, spans: seq<nat>): nat
    requires |keys| == |vals| == |spans|
  {
    if keys == [] then 0
    else if vals[0].Err? || keys[0] + vals[0].value == [] then SpanEntry(keys[0], vals[0], spans[0])
    else |keys[0]| + |vals[0].value| + SpanFlat(keys[1..], vals[1..], spans[1..])
  }

  /** The keys take up room in the first pass, and the sorted entries in the second, over the same place. */
  ghost function SpanEntries(reg: Registry, ty: Ty, es: seq<Entry>, stack: set<Ty>): nat
    requires reg.Valid() && ty.TMap?
    decreases es, 1
  {
    match EncodeKeys(reg, ty.key, es, stack)
    case Err(_) => SpanKeys(reg, ty.key, es, stack)
    case Ok(keys) =>
      var o := Order(keys);
      var second := SpanFlat(Permute(keys, o), Permute(EncodeVals(reg, ty.value, es, stack), o),
                             Permute(SpanVals(reg, ty.value, es, stack), o));
      if |Concat(keys)| < second then second else |Concat(keys)|
  }

  // ---------- one step of each loop ----------

  lemma SpanElemsStep(reg: Registry, elem: Ty, vs: seq<Val>, stack: set<Ty>, nonZero: bool, i: nat)
    requires reg.Valid() && i < |vs|
    ensures SpanElems(reg, elem, vs[i..], stack, nonZero) ==
            match Encode(reg, elem, vs[i], stack)
            case Err(_) => Span(reg, elem, vs[i], stack)
            case Ok(b) => if nonZero && b == [] then 0 else |b| + SpanElems(reg, elem, vs[i + 1..], stack, nonZero)
  {
    assert vs[i..][1..] == vs[i + 1..];
  }

  lemma SpanFieldsStep(reg: Registry, fields: seq<Field>, vs: seq<Val>, stack: set<Ty>, i: nat)
    requires reg.Valid() && |vs| == |fields| && i < |vs|
    ensures SpanFields(reg, fields[i..], vs[i..], stack) ==
            if !fields[i].tagged then SpanFields(reg, fields[i + 1..], vs[i + 1..], stack)
            else
              match Encode(reg, fields[i].ty, vs[i], stack)
              case Err(_) => Span(reg, fields[i].ty, vs[i], stack)
              case Ok(b) => |b| + SpanFields(reg, fields[i + 1..], vs[i + 1..], stack)
  {
    assert vs[i..][1..] == vs[i + 1..] && fields[i..][1..] == fields[i + 1..];
  }

  lemma SpanKeysStep(reg: Registry, kt: Ty, es: seq<Entry>, stack: set<Ty>, i: nat)
    requires reg.Valid() && i < |es|
    ensures SpanKeys(reg, kt, es[i..], stack) ==
            match Encode(reg, kt, es[i].key, stack)
            case Err(_) => Span(reg, kt, es[i].key, stack)
            case Ok(b) => |b| + SpanKeys(reg, kt, es[i + 1..], stack)
  {
    assert es[i..][1..] == es[i + 1..];
  }

  lemma {:induction false} SpanValsAt(reg: Registry, vt: Ty, es: seq<Entry>, stack: set<Ty>, i: nat)
    requires reg.Valid() && i < |es|
    ensures SpanVals(reg, vt, es, stack)[i] == Span(reg, vt, es[i].val, stack)
  {
    if i > 0 {
      SpanValsAt(reg, vt, es[1..], stack, i - 1);
    }
  }

  lemma SpanFlatStep(keys: seq<bytes>, vals: seq<Result<bytes, Error>>, spans: seq<nat>, j: nat)
    requires |keys| == |vals| == |spans| && j < |keys|
    ensures SpanFlat(keys[j..], vals[j..], spans[j..]) ==
            if vals[j].Err? || keys[j] + vals[j].value == [] then SpanEntry(keys[j], vals[j], spans[j])
            else |keys[j]| + |vals[j].value| + SpanFlat(keys[j + 1..], vals[j + 1..], spans[j + 1..])
  {
    assert keys[j..][1..] == keys[j + 1..] && vals[j..][1..] == vals[j + 1..] && spans[j..][1..] == spans[j + 1..];
  }
}
