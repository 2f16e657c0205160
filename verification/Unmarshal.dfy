/** `unmarshal`: the walk over a type that reads a value through the packer. */
module Unmarshalling {
  import opened Results
  import opened Bytes
  import opened KeyOrder
  import opened Codec
  import opened RoundTrip
  import opened Packing
  import opened Marshalling

  /** The reader got what `dec` says, and stands right behind it. */
  ghost predicate Got<T>(dec: Result<Read<T>, Error>, o0: nat, r: Result<T, Error>, o1: nat) {
    match dec
    case Err(e) => r == Err(e)
    case Ok(x) => r == Ok(x.val) && o1 == o0 + x.used
  }

  /** `xs` were read from the first `used` bytes; the remaining ones are read as `rest`. */
  ghost function AfterRead<T>(xs: seq<T>, used: nat, rest: Result<Read<seq<T>>, Error>): Result<Read<seq<T>>, Error> {
    if rest.Ok? then Ok(Read(xs + rest.value.val, used + rest.value.used)) else Err(rest.error)
  }

  lemma DropDrop(b: bytes, m: nat, n: nat)
    requires m + n <= |b|
    ensures b[m..][n..] == b[m + n..]
    ensures b[m..][0..] == b[m..]
  {
  }

  lemma AppendOne<T>(xs: seq<T>, x: T, ys: seq<T>)
    ensures xs + ([x] + ys) == xs + [x] + ys
  {
  }

  lemma ElemsRead(reg: Registry, ty: Ty, n: nat, s: bytes, stack: set<Ty>, i: nat, xs: seq<Val>, used: nat)
    requires reg.Valid() && (ty.TSlice? || ty.TArray?) && i < n && used <= |s|
    requires DecodeElems(reg, ty, n, s, stack) == AfterRead(xs, used, DecodeElems(reg, ty, n - i, s[used..], stack))
    ensures var x := Decode(reg, ty.elem, s[used..], stack);
            var whole := DecodeElems(reg, ty, n, s, stack);
            if x.Err? then whole == Err(x.error)
            else if ty.TSlice? && x.value.used == 0 then whole == Err(UnmarshalZeroLength)
            else whole == AfterRead(xs + [x.value.val], used + x.value.used,
                                    DecodeElems(reg, ty, n - (i + 1), s[used + x.value.used..], stack))
  {
    hide Decode, Registry.Valid;
    var x := Decode(reg, ty.elem, s[used..], stack);
    if x.Ok? {
      DropDrop(s, used, x.value.used);
      var rest := DecodeElems(reg, ty, n - (i + 1), s[used + x.value.used..], stack);
      if rest.Ok? {
        AppendOne(xs, x.value.val, rest.value.val);
      }
    }
  }

  lemma FieldsRead(reg: Registry, fields: seq<Field>, s: bytes, stack: set<Ty>, i: nat, xs: seq<Val>, used: nat)
    requires reg.Valid() && i < |fields| && used <= |s|
    requires DecodeFields(reg, fields, s, stack) ==
             AfterRead(xs, used, DecodeFields(reg, fields[i..], s[used..], stack))
    ensures var x := if fields[i].tagged then Decode(reg, fields[i].ty, s[used..], stack)
                     else Ok(Read(Zero(fields[i].ty), 0));
            var whole := DecodeFields(reg, fields, s, stack);
            if x.Err? then whole == Err(x.error)
            else whole == AfterRead(xs + [x.value.val], used + x.value.used,
                                    DecodeFields(reg, fields[i + 1..], s[used + x.value.used..], stack))
  {
    hide Decode, Registry.Valid, Zero;
    assert fields[i..][1..] == fields[i + 1..];
    var x := if fields[i].tagged then Decode(reg, fields[i].ty, s[used..], stack) else Ok(Read(Zero(fields[i].ty), 0));
    if x.Ok? {
      DropDrop(s, used, x.value.used);
      var rest := DecodeFields(reg, fields[i + 1..], s[used + x.value.used..], stack);
      if rest.Ok? {
        AppendOne(xs, x.value.val, rest.value.val);
      }
    }
  }

  /** One entry of a map, its key above `prev`. */
  ghost function DecodeEntry(reg: Registry, ty: Ty, s: bytes, stack: set<Ty>, prev: Option<bytes>):
      (r: Result<Read<(Entry, bytes)>, Error>)
    requires reg.Valid() && ty.TMap?
    ensures r.Ok? ==> r.value.used <= |s|
  {
    var k :- Decode(reg, ty.key, s, stack);
    if prev.Some? && !Less(prev.value, s[..k.used]) then Err(KeysNotSorted) else
    var v :- Decode(reg, ty.value, s[k.used..], stack);
    if k.used + v.used == 0 then Err(UnmarshalZeroLength) else
    Ok(Read((Entry(k.val, v.val), s[..k.used]), k.used + v.used))
  }

  lemma EntriesRead(reg: Registry, ty: Ty, n: nat, s: bytes, stack: set<Ty>, prev: Option<bytes>, i: nat,
                    xs: seq<Entry>, used: nat, at: Option<bytes>)
    requires reg.Valid() && ty.TMap? && i < n && used <= |s|
    requires DecodeEntries(reg, ty, n, s, stack, prev) ==
             AfterRead(xs, used, DecodeEntries(reg, ty, n - i, s[used..], stack, at))
    ensures var x := DecodeEntry(reg, ty, s[used..], stack, at);
            var whole := DecodeEntries(reg, ty, n, s, stack, prev);
            if x.Err? then whole == Err(x.error)
            else whole == AfterRead(xs + [x.value.val.0], used + x.value.used,
                                    DecodeEntries(reg, ty, n - (i + 1), s[used + x.value.used..], stack,
                                                  Some(x.value.val.1)))
  {
    hide Decode, Registry.Valid, Less, DecodeEntries;
    DecodeEntriesSome(reg, ty, n - i, s[used..], stack, at);
    var x := DecodeEntry(reg, ty, s[used..], stack, at);
    if x.Ok? {
      DropDrop(s, used, x.value.used);
      var rest := DecodeEntries(reg, ty, n - (i + 1), s[used + x.value.used..], stack, Some(x.value.val.1));
      if rest.Ok? {
        AppendOne(xs, x.value.val.0, rest.value.val);
      }
    }
  }

  // ---------- bytes of a []byte or an array of bytes ----------

  function ByteVals(d: bytes): (vs: seq<Val>)
    ensures |vs| == |d|
  {
    if d == [] then [] else [VInt(d[0])] + ByteVals(d[1..])
  }

  /** Bytes are read as they are, or not at all if there are too few. */
  lemma {:induction false} BytesDecode(reg: Registry, ty: Ty, n: nat, s: bytes, stack: set<Ty>)
    requires reg.Valid() && (ty.TSlice? || ty.TArray?) && ty.elem == TInt(false, 1)
    ensures DecodeElems(reg, ty, n, s, stack) ==
            if n <= |s| then Ok(Read(ByteVals(s[..n]), n)) else Err(InsufficientLength)
  {
    hide Registry.Valid, Decode;
    if n > 0 {
      ByteDecode(reg, s, stack);
      if |s| > 0 {
        BytesDecode(reg, ty, n - 1, s[1..], stack);
        if n <= |s| {
          assert s[..n][1..] == s[1..][..n - 1];
        }
      }
    }
  }

  lemma ByteDecode(reg: Registry, s: bytes, stack: set<Ty>)
    requires reg.Valid()
    ensures Decode(reg, TInt(false, 1), s, stack) ==
            if s == [] then Err(InsufficientLength) else Ok(Read(VInt(s[0]), 1))
  {
    Pow256Values();
    if s != [] {
      assert FromBE(s[..1]) == s[0];
    }
  }

  method Unmarshal(reg: Registry, ty: Ty, p: Packer, stack: set<Ty>) returns (r: Result<Val, Error>)
    requires reg.Valid() && p.Ready()
    modifies p`offset, p`err
    ensures p.offset <= |p.buf| && (r.Ok? ==> p.Ready())
    ensures Got(Decode(reg, ty, old(p.buf[p.offset..]), stack), old(p.offset), r, p.offset)
    decreases |reg.Types() - stack|, ty
  {
    hide Registry.Valid, DecodeElems, DecodeFields, DecodeEntries;
    ghost var s := p.buf[p.offset..];
    match ty
    case TPtr(elem) =>
      var x := Unmarshal(reg, elem, p, stack);
      if x.Err? { return x; }
      return Ok(VPtr(x.value));
    case TIface(_) =>
      r := UnmarshalIface(reg, ty, p, stack);
    case TSlice(elem) =>
      var n := UnmarshalCount(p);
      if n.Err? { return Err(n.error); }
      assert s[4..] == p.buf[p.offset..];
      var xs := UnmarshalElems(reg, ty, n.value, p, stack);
      if xs.Err? { return Err(xs.error); }
      return Ok(VSeq(xs.value));
    case TArray(n, elem) =>
      var xs := UnmarshalElems(reg, ty, n, p, stack);
      if xs.Err? { return Err(xs.error); }
      return Ok(VSeq(xs.value));
    case TStruct(_, fields) =>
      if !FieldsOk(fields) { return Err(UnexportedField); }
      var xs := UnmarshalFields(reg, fields, p, stack);
      if xs.Err? { return Err(xs.error); }
      return Ok(VSeq(xs.value));
    case TMap(_, _) =>
      var n := UnmarshalCount(p);
      if n.Err? { return Err(n.error); }
      assert s[4..] == p.buf[p.offset..];
      var es := UnmarshalEntries(reg, ty, n.value, p, stack);
      if es.Err? { return Err(es.error); }
      return Ok(VMap(es.value));
    case TOther(_) =>
      return Err(UnsupportedKind);
    case _ =>
      r := UnmarshalBasic(reg, ty, p, stack);
  }

  method UnmarshalBasic(reg: Registry, ty: Ty, p: Packer, ghost stack: set<Ty>) returns (r: Result<Val, Error>)
    requires reg.Valid() && p.Ready() && (ty.TInt? || ty.TBool? || ty.TString?)
    modifies p`offset, p`err
    ensures p.offset <= |p.buf| && (r.Ok? ==> p.Ready())
    ensures Got(Decode(reg, ty, old(p.buf[p.offset..]), stack), old(p.offset), r, p.offset)
  {
    ghost var s := p.buf[p.offset..];
    match ty
    case TInt(signed, w) =>
      var u := p.UnpackWord(w);
      if p.err.Some? { return Err(p.err.value); }
      assert s[..w] == p.buf[old(p.offset)..old(p.offset) + w];
      return Ok(VInt(Unwrap(signed, w, u)));
    case TBool =>
      var d := p.UnpackFixedBytes(1);
      if p.err.Some? { return Err(p.err.value); }
      assert d[0] == s[0];
      if d[0] > 1 { return Err(BadBool); }
      return Ok(VBool(d[0] == 1));
    case TString =>
      var n := p.UnpackWord(2);
      if p.err.Some? { return Err(p.err.value); }
      assert s[..2] == p.buf[old(p.offset)..old(p.offset) + 2];
      var d := p.UnpackFixedBytes(n);
      if p.err.Some? { return Err(p.err.value); }
      assert s[2..2 + n] == d;
      return Ok(VStr(d));
  }

  method UnmarshalCount(p: Packer) returns (r: Result<nat, Error>)
    requires p.Ready()
    modifies p`offset, p`err
    ensures p.offset <= |p.buf| && (r.Ok? ==> p.Ready() && p.offset == old(p.offset) + 4)
    ensures r == DecodeCount(old(p.buf[p.offset..]))
  {
    ghost var s := p.buf[p.offset..];
    var n := p.UnpackWord(4);
    if p.err.Some? { return Err(p.err.value); }
    assert s[..4] == p.buf[old(p.offset)..old(p.offset) + 4];
    if n > MAX_INT32 { return Err(MaxSliceLenExceeded); }
    return Ok(n);
  }

  method UnmarshalIface(reg: Registry, ty: Ty, p: Packer, stack: set<Ty>) returns (r: Result<Val, Error>)
    requires reg.Valid() && p.Ready() && ty.TIface?
    modifies p`offset, p`err
    ensures p.offset <= |p.buf| && (r.Ok? ==> p.Ready())
    ensures Got(Decode(reg, ty, old(p.buf[p.offset..]), stack), old(p.offset), r, p.offset)
    decreases |reg.Types() - stack|, ty, 0
  {
    ghost var s := p.buf[p.offset..];
    var id := p.UnpackWord(4);
    if p.err.Some? { return Err(p.err.value); }
    assert s[..4] == p.buf[old(p.offset)..old(p.offset) + 4];
    if id !in reg.typeOf { return Err(UnknownTypeID); }
    var t := reg.typeOf[id];
    if (t, ty.iface) !in reg.implements { return Err(DoesNotImplementInterface); }
    if t in stack { return Err(RecursiveInterfaceTypes); }
    StackGrows(reg, t, stack);
    assert s[4..] == p.buf[p.offset..];
    var x := Unmarshal(reg, t, p, stack + {t});
    if x.Err? { return x; }
    return Ok(VIface(t, x.value));
  }

  method UnmarshalElems(reg: Registry, ty: Ty, n: nat, p: Packer, stack: set<Ty>) returns (r: Result<seq<Val>, Error>)
    requires reg.Valid() && p.Ready() && (ty.TSlice? || ty.TArray?)
    modifies p`offset, p`err
    ensures p.offset <= |p.buf| && (r.Ok? ==> p.Ready())
    ensures Got(DecodeElems(reg, ty, n, old(p.buf[p.offset..]), stack), old(p.offset), r, p.offset)
    decreases |reg.Types() - stack|, ty, 0
  {
    hide Decode, Registry.Valid, DecodeElems;
    ghost var s, o0 := p.buf[p.offset..], p.offset;
    if ty.elem == TInt(false, 1) {
      r := UnmarshalBytes(reg, ty, n, p, stack);
      return;
    }
    var xs: seq<Val> := [];
    ghost var used: nat := 0;
    ReadStart(DecodeElems(reg, ty, n, s, stack));
    DropDrop(p.buf, o0, 0);
    for i := 0 to n
      invariant p.Ready() && p.offset == o0 + used
      invariant DecodeElems(reg, ty, n, s, stack) == AfterRead(xs, used, DecodeElems(reg, ty, n - i, s[used..], stack))
    {
      var startOffset := p.offset;
      ElemsRead(reg, ty, n, s, stack, i, xs, used);
      DropDrop(p.buf, o0, used);
      var x := Unmarshal(reg, ty.elem, p, stack);
      if x.Err? { return Err(x.error); }
      if ty.TSlice? && startOffset == p.offset { return Err(UnmarshalZeroLength); }
      used := p.offset - o0;
      xs := xs + [x.value];
    }
    ElemsReadAll(reg, ty, s[used..], stack, xs, used);
    return Ok(xs);
  }

  /** The shortcut for bytes: all at once. */
  method UnmarshalBytes(reg: Registry, ty: Ty, n: nat, p: Packer, ghost stack: set<Ty>)
    returns (r: Result<seq<Val>, Error>)
    requires reg.Valid() && p.Ready() && (ty.TSlice? || ty.TArray?) && ty.elem == TInt(false, 1)
    modifies p`offset, p`err
    ensures p.offset <= |p.buf| && (r.Ok? ==> p.Ready())
    ensures Got(DecodeElems(reg, ty, n, old(p.buf[p.offset..]), stack), old(p.offset), r, p.offset)
  {
    hide Registry.Valid, DecodeElems;
    ghost var s := p.buf[p.offset..];
    BytesDecode(reg, ty, n, s, stack);
    var d := p.UnpackFixedBytes(n);
    if p.err.Some? { return Err(p.err.value); }
    assert s[..n] == d;
    return Ok(ByteVals(d));
  }

  lemma ReadStart<T>(r: Result<Read<seq<T>>, Error>)
    ensures r == AfterRead([], 0, r)
  {
    if r.Ok? {
      assert [] + r.value.val == r.value.val;
    }
  }

  lemma ElemsReadAll(reg: Registry, ty: Ty, s: bytes, stack: set<Ty>, xs: seq<Val>, used: nat)
    requires reg.Valid() && (ty.TSlice? || ty.TArray?)
    ensures AfterRead(xs, used, DecodeElems(reg, ty, 0, s, stack)) == Ok(Read(xs, used))
  {
    assert xs + [] == xs;
  }

  method UnmarshalFields(reg: Registry, fields: seq<Field>, p: Packer, stack: set<Ty>)
    returns (r: Result<seq<Val>, Error>)
    requires reg.Valid() && p.Ready()
    modifies p`offset, p`err
    ensures p.offset <= |p.buf| && (r.Ok? ==> p.Ready())
    ensures Got(DecodeFields(reg, fields, old(p.buf[p.offset..]), stack), old(p.offset), r, p.offset)
    decreases |reg.Types() - stack|, fields
  {
    hide Decode, Registry.Valid, DecodeFields, Zero;
    ghost var s, o0 := p.buf[p.offset..], p.offset;
    var xs: seq<Val> := [];
    ghost var used: nat := 0;
    ReadStart(DecodeFields(reg, fields, s, stack));
    DropDrop(p.buf, o0, 0);
    assert fields[0..] == fields;
    for i := 0 to |fields|
      invariant p.Ready() && p.offset == o0 + used
      invariant DecodeFields(reg, fields, s, stack) ==
                AfterRead(xs, used, DecodeFields(reg, fields[i..], s[used..], stack))
    {
      FieldsRead(reg, fields, s, stack, i, xs, used);
      if fields[i].tagged {
        DropDrop(p.buf, o0, used);
        assert fields decreases to fields[i];
        var x := Unmarshal(reg, fields[i].ty, p, stack);
        if x.Err? { return Err(x.error); }
        xs := xs + [x.value];
        used := p.offset - o0;
      } else {
        xs := xs + [Zero(fields[i].ty)];
      }
    }
    FieldsReadAll(reg, s[used..], stack, xs, used);
    assert fields[|fields|..] == [];
    return Ok(xs);
  }

  lemma FieldsReadAll(reg: Registry, s: bytes, stack: set<Ty>, xs: seq<Val>, used: nat)
    requires reg.Valid()
    ensures AfterRead(xs, used, DecodeFields(reg, [], s, stack)) == Ok(Read(xs, used))
  {
    assert xs + [] == xs;
  }

  method UnmarshalEntries(reg: Registry, ty: Ty, n: nat, p: Packer, stack: set<Ty>)
    returns (r: Result<seq<Entry>, Error>)
    requires reg.Valid() && p.Ready() && ty.TMap?
    modifies p`offset, p`err
    ensures p.offset <= |p.buf| && (r.Ok? ==> p.Ready())
    ensures Got(DecodeEntries(reg, ty, n, old(p.buf[p.offset..]), stack, None), old(p.offset), r, p.offset)
    decreases |reg.Types() - stack|, ty, 1
  {
    hide Decode, Registry.Valid, DecodeEntries, DecodeEntry, Less;
    ghost var s, o0 := p.buf[p.offset..], p.offset;
    var es: seq<Entry> := [];
    var prev: Option<bytes> := None;
    ghost var used: nat := 0;
    ReadStart(DecodeEntries(reg, ty, n, s, stack, None));
    DropDrop(p.buf, o0, 0);
    for i := 0 to n
      invariant p.Ready() && p.offset == o0 + used
      invariant DecodeEntries(reg, ty, n, s, stack, None) ==
                AfterRead(es, used, DecodeEntries(reg, ty, n - i, s[used..], stack, prev))
    {
      EntriesRead(reg, ty, n, s, stack, None, i, es, used, prev);
      DropDrop(p.buf, o0, used);
      var x := UnmarshalEntry(reg, ty, p, stack, prev);
      if x.Err? { return Err(x.error); }
      es := es + [x.value.0];
      prev := Some(x.value.1);
      used := p.offset - o0;
    }
    EntriesReadAll(reg, ty, s[used..], stack, prev, es, used);
    return Ok(es);
  }

  lemma EntriesReadAll(reg: Registry, ty: Ty, s: bytes, stack: set<Ty>, prev: Option<bytes>, es: seq<Entry>, used: nat)
    requires reg.Valid() && ty.TMap?
    ensures AfterRead(es, used, DecodeEntries(reg, ty, 0, s, stack, prev)) == Ok(Read(es, used))
  {
    assert es + [] == es;
  }

  method UnmarshalEntry(reg: Registry, ty: Ty, p: Packer, stack: set<Ty>, prev: Option<bytes>)
    returns (r: Result<(Entry, bytes), Error>)
    requires reg.Valid() && p.Ready() && ty.TMap?
    modifies p`offset, p`err
    ensures p.offset <= |p.buf| && (r.Ok? ==> p.Ready())
    ensures Got(DecodeEntry(reg, ty, old(p.buf[p.offset..]), stack, prev), old(p.offset), r, p.offset)
    decreases |reg.Types() - stack|, ty, 0
  {
    hide Decode, Registry.Valid, Less;
    ghost var s := p.buf[p.offset..];
    var keyStartOffset := p.offset;
    var k := Unmarshal(reg, ty.key, p, stack);
    if k.Err? { return Err(k.error); }
    var keyBytes := p.buf[keyStartOffset..p.offset];
    assert keyBytes == s[..p.offset - keyStartOffset];
    if prev.Some? && !Less(prev.value, keyBytes) { return Err(KeysNotSorted); }
    assert s[p.offset - keyStartOffset..] == p.buf[p.offset..];
    var v := Unmarshal(reg, ty.value, p, stack);
    if v.Err? { return Err(v.error); }
    if keyStartOffset == p.offset { return Err(UnmarshalZeroLength); }
    return Ok((Entry(k.value, v.value), keyBytes));
  }
}
