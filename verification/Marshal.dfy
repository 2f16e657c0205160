/** `marshal`: the walk over a value that writes its bytes through the packer. */
module Marshalling {
  import opened Results
  import opened Bytes
  import opened KeyOrder
  import opened Codec
  import opened RoundTrip
  import opened Packing
  import opened Spans

  /**
   What marshalling a value does to a buffer. If there is an encoding, it is written over the buffer at the cursor, if
   it fits. Otherwise the walk fails with the reason, if it gets there; `span` is the room it needs for that. A value
   that no Go program can hold may be found out earlier.
   */
  ghost predicate Outcome(enc: Result<bytes, Error>, span: nat, maxSize: nat, b0: bytes, o0: nat, e: Option<Error>,
                          b1: bytes, o1: nat)
    requires o0 <= |b0|
  {
    match enc
    case Err(x) =>
      if o0 + span <= Limit(maxSize, b0) then e == Some(x)
      else e == Some(InsufficientLength) || (x == IllTyped && e == Some(IllTyped))
    case Ok(d) =>
      if o0 + |d| <= Limit(maxSize, b0)
      then e.None? && o1 == o0 + |d| && b1 == Overwrite(b0, o0, d)
      else e == Some(InsufficientLength)
  }

  /** The text `d` was written so far; what is left to encode is `rest`. */
  ghost function After(d: bytes, rest: Result<bytes, Error>): Result<bytes, Error> {
    if rest.Ok? then Ok(d + rest.value) else rest
  }

  /** The part already written is where the whole text begins. */
  ghost predicate Progress(p: Packer, b0: bytes, o0: nat, done: bytes)
    requires o0 <= |b0|
    reads p
  {
    && p.Ready() && o0 + |done| <= Limit(p.maxSize, b0)
    && p.offset == o0 + |done| && p.buf == Overwrite(b0, o0, done)
  }

  lemma NothingYet(maxSize: nat, b0: bytes, o0: nat)
    requires o0 <= |b0|
    ensures Overwrite(b0, o0, []) == b0 && o0 <= Limit(maxSize, b0)
    ensures Concat([]) == [] && Ranges([], o0, [])
  {
    OverwriteNothing(b0, o0);
  }

  lemma Advance(maxSize: nat, b0: bytes, o0: nat, done: bytes, d: bytes)
    requires o0 <= |b0| && o0 + |done| <= Limit(maxSize, b0)
    ensures var b := Overwrite(b0, o0, done);
            && Limit(maxSize, b) == Limit(maxSize, b0)
            && Overwrite(b, o0 + |done|, d) == Overwrite(b0, o0, done + d)
  {
    OverwriteTwice(b0, o0, done, d);
  }

  /** A prefix that was written, and then what is behind it. */
  lemma Prefixed(prefix: bytes, enc: Result<bytes, Error>, span: nat, maxSize: nat, b0: bytes, o0: nat,
                 e: Option<Error>, b1: bytes, o1: nat)
    requires o0 <= |b0| && o0 + |prefix| <= Limit(maxSize, b0)
    requires Outcome(enc, span, maxSize, Overwrite(b0, o0, prefix), o0 + |prefix|, e, b1, o1)
    ensures Outcome(After(prefix, enc), |prefix| + span, maxSize, b0, o0, e, b1, o1)
  {
    Advance(maxSize, b0, o0, prefix, if enc.Ok? then enc.value else []);
  }

  // ---------- loops over elements and fields ----------

  lemma ElemsStep(reg: Registry, elem: Ty, vs: seq<Val>, stack: set<Ty>, nonZero: bool, i: nat, done: bytes)
    requires reg.Valid() && i < |vs|
    requires EncodeElems(reg, elem, vs, stack, nonZero) == After(done, EncodeElems(reg, elem, vs[i..], stack, nonZero))
    ensures var d := Encode(reg, elem, vs[i], stack);
            var whole := EncodeElems(reg, elem, vs, stack, nonZero);
            if d.Err? then whole == d
            else if nonZero && d.value == [] then whole == Err(MarshalZeroLength)
            else
              && whole == After(done + d.value, EncodeElems(reg, elem, vs[i + 1..], stack, nonZero))
              && (whole.Ok? ==> |whole.value| >= |done + d.value|)
  {
    hide Encode, Registry.Valid;
    assert vs[i..][1..] == vs[i + 1..];
    var d := Encode(reg, elem, vs[i], stack);
    var rest := EncodeElems(reg, elem, vs[i + 1..], stack, nonZero);
    if d.Ok? && rest.Ok? {
      Splits(done, d.value, rest.value);
    }
  }

  lemma FieldsStep(reg: Registry, fields: seq<Field>, vs: seq<Val>, stack: set<Ty>, i: nat, done: bytes)
    requires reg.Valid() && |vs| == |fields| && i < |vs|
    requires EncodeFields(reg, fields, vs, stack) == After(done, EncodeFields(reg, fields[i..], vs[i..], stack))
    ensures var d := if fields[i].tagged then Encode(reg, fields[i].ty, vs[i], stack) else Ok([]);
            var whole := EncodeFields(reg, fields, vs, stack);
            if d.Err? then whole == d
            else
              && whole == After(done + d.value, EncodeFields(reg, fields[i + 1..], vs[i + 1..], stack))
              && (whole.Ok? ==> |whole.value| >= |done + d.value|)
  {
    hide Encode, Registry.Valid;
    assert vs[i..][1..] == vs[i + 1..] && fields[i..][1..] == fields[i + 1..];
    var d := if fields[i].tagged then Encode(reg, fields[i].ty, vs[i], stack) else Ok([]);
    var rest := EncodeFields(reg, fields[i + 1..], vs[i + 1..], stack);
    if d.Ok? && rest.Ok? {
      Splits(done, d.value, rest.value);
      assert done + [] == done;
    }
  }

  // ---------- bytes of a []byte ----------

  predicate IsByte(v: Val) {
    v.VInt? && 0 <= v.n < 256
  }

  function ByteOf(v: Val): byte
    requires IsByte(v)
  {
    v.n
  }

  function ByteText(vs: seq<Val>): (d: bytes)
    requires forall i :: 0 <= i < |vs| ==> IsByte(vs[i])
  {
    if vs == [] then [] else [ByteOf(vs[0])] + ByteText(vs[1..])
  }

  /** A slice of bytes is written as it is. */
  lemma {:induction false} BytesEncode(reg: Registry, vs: seq<Val>, stack: set<Ty>)
    requires reg.Valid() && forall i :: 0 <= i < |vs| ==> IsByte(vs[i])
    ensures EncodeElems(reg, TInt(false, 1), vs, stack, true) == Ok(ByteText(vs))
  {
    if vs != [] {
      BytesEncode(reg, vs[1..], stack);
      Pow256Values();
      assert ToBE(vs[0].n, 1) == [vs[0].n];
    }
  }

  lemma {:induction false} NonBytes(reg: Registry, vs: seq<Val>, stack: set<Ty>, i: nat)
    requires reg.Valid() && i < |vs| && !IsByte(vs[i])
    ensures EncodeElems(reg, TInt(false, 1), vs, stack, true) == Err(IllTyped)
  {
    Pow256Values();
    if i > 0 {
      NonBytes(reg, vs[1..], stack, i - 1);
    }
  }

  method Marshal(reg: Registry, ty: Ty, v: Val, p: Packer, stack: set<Ty>) returns (e: Option<Error>)
    requires reg.Valid() && p.Ready()
    modifies p
    ensures p.offset <= |p.buf| && (e.None? ==> p.Ready())
    ensures Outcome(Encode(reg, ty, v, stack), Span(reg, ty, v, stack), p.maxSize, old(p.buf), old(p.offset), e,
                    p.buf, p.offset)
    decreases v
  {
    match ty
    case TInt(signed, w) =>
      if !v.VInt? || !InRange(signed, w, v.n) { return Some(IllTyped); }
      p.PackWord(Wrap(w, v.n), w);
      return p.err;
    case TBool =>
      if !v.VBool? { return Some(IllTyped); }
      Pow256Values();
      p.PackWord(if v.b then 1 else 0, 1);
      assert ToBE(1, 1) == [1] && ToBE(0, 1) == [0];
      return p.err;
    case TString =>
      if !v.VStr? { return Some(IllTyped); }
      p.PackStr(v.s);
      return p.err;
    case TPtr(elem) =>
      if v.VNil? { return Some(MarshalNil); }
      if !v.VPtr? { return Some(IllTyped); }
      e := Marshal(reg, elem, v.target, p, stack);
    case TIface(i) =>
      if v.VNil? { return Some(MarshalNil); }
      if !v.VIface? || (v.dynamic, i) !in reg.implements { return Some(IllTyped); }
      e := MarshalIface(reg, ty, v, p, stack);
    case TSlice(_) =>
      e := MarshalSlice(reg, ty, v, p, stack);
    case TArray(n, elem) =>
      if !v.VSeq? || |v.vs| != n { return Some(IllTyped); }
      e := MarshalElems(reg, elem, v.vs, p, stack, false);
    case TStruct(_, fields) =>
      if !v.VSeq? || |v.vs| != |fields| { return Some(IllTyped); }
      if !FieldsOk(fields) { return Some(UnexportedField); }
      e := MarshalFields(reg, fields, v.vs, p, stack);
    case TMap(_, _) =>
      e := MarshalMap(reg, ty, v, p, stack);
    case TOther(_) =>
      return Some(UnsupportedKind);
  }

  method MarshalIface(reg: Registry, ty: Ty, v: Val, p: Packer, stack: set<Ty>) returns (e: Option<Error>)
    requires reg.Valid() && p.Ready() && ty.TIface? && v.VIface? && (v.dynamic, ty.iface) in reg.implements
    modifies p
    ensures p.offset <= |p.buf| && (e.None? ==> p.Ready())
    ensures Outcome(Encode(reg, ty, v, stack), Span(reg, ty, v, stack), p.maxSize, old(p.buf), old(p.offset), e,
                    p.buf, p.offset)
    decreases v, 0
  {
    var t := v.dynamic;
    if t in stack { return Some(RecursiveInterfaceTypes); }
    if t !in reg.idOf { return Some(UnregisteredType); }
    Pow256Values();
    assert reg.typeOf[reg.idOf[t]] == t;
    p.PackWord(reg.idOf[t], 4);
    if p.err.Some? { return p.err; }
    ghost var prefix := ToBE(reg.idOf[t], 4);
    e := Marshal(reg, t, v.held, p, stack + {t});
    ghost var inner := Encode(reg, t, v.held, stack + {t});
    Prefixed(prefix, inner, Span(reg, t, v.held, stack + {t}), p.maxSize, old(p.buf), old(p.offset), e, p.buf,
             p.offset);
  }

  method MarshalSlice(reg: Registry, ty: Ty, v: Val, p: Packer, stack: set<Ty>) returns (e: Option<Error>)
    requires reg.Valid() && p.Ready() && ty.TSlice?
    modifies p
    ensures p.offset <= |p.buf| && (e.None? ==> p.Ready())
    ensures Outcome(Encode(reg, ty, v, stack), Span(reg, ty, v, stack), p.maxSize, old(p.buf), old(p.offset), e,
                    p.buf, p.offset)
    decreases v, 1
  {
    hide Overwrite, EncodeElems, SpanElems, ToBE, Registry.Valid;
    if Elements(v).None? { return Some(IllTyped); }
    var vs := Elements(v).value;
    if |vs| > MAX_INT32 { return Some(MaxSliceLenExceeded); }
    Pow256Values();
    p.PackWord(|vs|, 4);
    if p.err.Some? { return p.err; }
    if |vs| == 0 { return None; }
    ghost var count := ToBE(|vs|, 4);
    if ty.elem == TInt(false, 1) {
      e := MarshalBytes(reg, vs, p, stack);
    } else {
      e := MarshalElems(reg, ty.elem, vs, p, stack, true);
    }
    ghost var inner := EncodeElems(reg, ty.elem, vs, stack, true);
    Prefixed(count, inner, SpanElems(reg, ty.elem, vs, stack, true), p.maxSize, old(p.buf), old(p.offset), e, p.buf,
             p.offset);
  }

  /** The shortcut for `[]byte`: all bytes at once. */
  method MarshalBytes(reg: Registry, vs: seq<Val>, p: Packer, stack: set<Ty>) returns (e: Option<Error>)
    requires reg.Valid() && p.Ready()
    modifies p
    ensures p.offset <= |p.buf| && (e.None? ==> p.Ready())
    ensures Outcome(EncodeElems(reg, TInt(false, 1), vs, stack, true), SpanElems(reg, TInt(false, 1), vs, stack, true),
                    p.maxSize, old(p.buf), old(p.offset), e, p.buf, p.offset)
  {
    if i: nat :| i < |vs| && !IsByte(vs[i]) {
      NonBytes(reg, vs, stack, i);
      return Some(IllTyped);
    }
    BytesEncode(reg, vs, stack);
    p.PackFixedBytes(ByteText(vs));
    return p.err;
  }

  method MarshalElems(reg: Registry, elem: Ty, vs: seq<Val>, p: Packer, stack: set<Ty>, nonZero: bool)
    returns (e: Option<Error>)
    requires reg.Valid() && p.Ready()
    modifies p
    ensures p.offset <= |p.buf| && (e.None? ==> p.Ready())
    ensures Outcome(EncodeElems(reg, elem, vs, stack, nonZero), SpanElems(reg, elem, vs, stack, nonZero),
                    p.maxSize, old(p.buf), old(p.offset), e, p.buf, p.offset)
    decreases vs
  {
    hide Encode, Registry.Valid, EncodeElems, Span, SpanElems, Overwrite, Limit;
    ghost var done: bytes := [];
    ghost var b0, o0 := p.buf, p.offset;
    assert vs[0..] == vs;
    ElemsStart(reg, elem, vs, stack, nonZero);
    NothingYet(p.maxSize, b0, o0);
    for i := 0 to |vs|
      invariant Progress(p, b0, o0, done)
      invariant EncodeElems(reg, elem, vs, stack, nonZero) ==
                After(done, EncodeElems(reg, elem, vs[i..], stack, nonZero))
      invariant SpanElems(reg, elem, vs, stack, nonZero) == |done| + SpanElems(reg, elem, vs[i..], stack, nonZero)
    {
      var startOffset := p.offset;
      ElemsStep(reg, elem, vs, stack, nonZero, i, done);
      SpanElemsStep(reg, elem, vs, stack, nonZero, i);
      ghost var d := Encode(reg, elem, vs[i], stack);
      e := Marshal(reg, elem, vs[i], p, stack);
      Advance(p.maxSize, b0, o0, done, if d.Ok? then d.value else []);
      if e.Some? { return e; }
      if nonZero && startOffset == p.offset { return Some(MarshalZeroLength); }
      done := done + d.value;
    }
    ElemsEnd(reg, elem, vs, stack, nonZero, done);
    return None;
  }

  lemma ElemsStart(reg: Registry, elem: Ty, vs: seq<Val>, stack: set<Ty>, nonZero: bool)
    requires reg.Valid()
    ensures EncodeElems(reg, elem, vs, stack, nonZero) == After([], EncodeElems(reg, elem, vs[0..], stack, nonZero))
  {
    assert vs[0..] == vs;
    var all := EncodeElems(reg, elem, vs, stack, nonZero);
    if all.Ok? {
      assert [] + all.value == all.value;
    }
  }

  lemma ElemsEnd(reg: Registry, elem: Ty, vs: seq<Val>, stack: set<Ty>, nonZero: bool, done: bytes)
    requires reg.Valid()
    ensures After(done, EncodeElems(reg, elem, vs[|vs|..], stack, nonZero)) == Ok(done)
  {
    assert done + [] == done;
  }

  method MarshalFields(reg: Registry, fields: seq<Field>, vs: seq<Val>, p: Packer, stack: set<Ty>)
    returns (e: Option<Error>)
    requires reg.Valid() && p.Ready() && |vs| == |fields|
    modifies p
    ensures p.offset <= |p.buf| && (e.None? ==> p.Ready())
    ensures Outcome(EncodeFields(reg, fields, vs, stack), SpanFields(reg, fields, vs, stack),
                    p.maxSize, old(p.buf), old(p.offset), e, p.buf, p.offset)
    decreases vs
  {
    hide Encode, Registry.Valid, EncodeFields, Span, SpanFields, Overwrite, Limit;
    ghost var done: bytes := [];
    ghost var b0, o0 := p.buf, p.offset;
    assert vs[0..] == vs && fields[0..] == fields;
    FieldsStart(reg, fields, vs, stack);
    NothingYet(p.maxSize, b0, o0);
    for i := 0 to |vs|
      invariant Progress(p, b0, o0, done)
      invariant EncodeFields(reg, fields, vs, stack) == After(done, EncodeFields(reg, fields[i..], vs[i..], stack))
      invariant SpanFields(reg, fields, vs, stack) == |done| + SpanFields(reg, fields[i..], vs[i..], stack)
    {
      FieldsStep(reg, fields, vs, stack, i, done);
      SpanFieldsStep(reg, fields, vs, stack, i);
      if fields[i].tagged {
        ghost var d := Encode(reg, fields[i].ty, vs[i], stack);
        e := Marshal(reg, fields[i].ty, vs[i], p, stack);
        Advance(p.maxSize, b0, o0, done, if d.Ok? then d.value else []);
        if e.Some? { return e; }
        done := done + d.value;
      } else {
        assert done + [] == done;
      }
    }
    FieldsEnd(reg, fields, vs, stack, done);
    return None;
  }

  lemma FieldsStart(reg: Registry, fields: seq<Field>, vs: seq<Val>, stack: set<Ty>)
    requires reg.Valid() && |vs| == |fields|
    ensures EncodeFields(reg, fields, vs, stack) == After([], EncodeFields(reg, fields[0..], vs[0..], stack))
  {
    assert vs[0..] == vs && fields[0..] == fields;
    var all := EncodeFields(reg, fields, vs, stack);
    if all.Ok? {
      assert [] + all.value == all.value;
    }
  }

  lemma FieldsEnd(reg: Registry, fields: seq<Field>, vs: seq<Val>, stack: set<Ty>, done: bytes)
    requires reg.Valid() && |vs| == |fields|
    ensures After(done, EncodeFields(reg, fields[|vs|..], vs[|vs|..], stack)) == Ok(done)
  {
    assert done + [] == done;
  }

  // ---------- maps ----------

  /** Where the `i`-th text lies. */
  lemma ConcatAt(ks: seq<bytes>, i: nat)
    requires i < |ks|
    ensures |Concat(ks[..i])| + |ks[i]| == |Concat(ks[..i + 1])| <= |Concat(ks)|
    ensures Concat(ks)[|Concat(ks[..i])|..|Concat(ks[..i + 1])|] == ks[i]
  {
    assert ks[..i + 1][..i] == ks[..i];
    ConcatAppend(ks[..i + 1], ks[i + 1..]);
    assert ks == ks[..i + 1] + ks[i + 1..];
  }

  /** Sorting moves texts around; together they stay as long. */
  lemma {:induction false} InsertLength(keys: seq<bytes>, ks: seq<bytes>, o: seq<nat>, k: nat)
    requires |keys| == |ks| && k < |keys| && forall i :: 0 <= i < |o| ==> o[i] < |keys|
    ensures |Concat(Permute(ks, Insert(keys, o, k)))| == |Concat(Permute(ks, o))| + |ks[k]|
  {
    hide Less;
    var r := Insert(keys, o, k);
    if o == [] || !Less(keys[k], keys[o[|o| - 1]]) {
      assert Permute(ks, r) == Permute(ks, o) + [ks[k]];
    } else {
      var n := |o| - 1;
      InsertLength(keys, ks, o[..n], k);
      assert Permute(ks, r)[..|r| - 1] == Permute(ks, Insert(keys, o[..n], k));
      assert Permute(ks, o)[..n] == Permute(ks, o[..n]);
    }
  }

  lemma {:induction false} OrderLength(keys: seq<bytes>, ks: seq<bytes>, n: nat)
    requires |keys| == |ks| && n <= |keys|
    ensures |Concat(Permute(ks, OrderPrefix(keys, n)))| == |Concat(ks[..n])|
  {
    hide Insert, Less;
    if n > 0 {
      OrderLength(keys, ks, n - 1);
      var o := OrderPrefix(keys, n - 1);
      InsertLength(keys, ks, o, n - 1);
      assert OrderPrefix(keys, n) == Insert(keys, o, n - 1);
      assert ks[..n][..n - 1] == ks[..n - 1];
      assert Concat(ks[..n]) == Concat(ks[..n - 1]) + ks[n - 1];
    }
  }

  ghost function Texts(vals: seq<Result<bytes, Error>>): (r: seq<bytes>)
    ensures |r| == |vals|
  {
    seq(|vals|, i requires 0 <= i < |vals| => if vals[i].Ok? then vals[i].value else [])
  }

  lemma {:induction false} FlattenLength(keys: seq<bytes>, vals: seq<Result<bytes, Error>>)
    requires |keys| == |vals| && Flatten(keys, vals).Ok?
    ensures |Flatten(keys, vals).value| == |Concat(keys)| + |Concat(Texts(vals))|
  {
    if keys != [] {
      FlattenLength(keys[1..], vals[1..]);
      ConcatAppend([keys[0]], keys[1..]);
      ConcatAppend([vals[0].value], Texts(vals)[1..]);
      assert keys == [keys[0]] + keys[1..];
      assert Texts(vals) == [vals[0].value] + Texts(vals)[1..];
      assert Texts(vals)[1..] == Texts(vals[1..]);
      assert Concat([keys[0]]) == keys[0] && Concat([vals[0].value]) == vals[0].value;
    }
  }

  /** A map's text is as long as its keys and values together, whatever their order. */
  lemma SortedLength(keys: seq<bytes>, vals: seq<Result<bytes, Error>>)
    requires |keys| == |vals|
    ensures var f := Flatten(Permute(keys, Order(keys)), Permute(vals, Order(keys)));
            f.Ok? ==> |f.value| == |Concat(keys)| + |Concat(Texts(vals))|
  {
    var o := Order(keys);
    var f := Flatten(Permute(keys, o), Permute(vals, o));
    if f.Ok? {
      FlattenLength(Permute(keys, o), Permute(vals, o));
      OrderLength(keys, keys, |keys|);
      OrderLength(keys, Texts(vals), |keys|);
      assert keys[..|keys|] == keys && Texts(vals)[..|keys|] == Texts(vals);
      assert Texts(Permute(vals, o)) == Permute(Texts(vals), o);
    }
  }

  /** The index range in the buffer that holds one key. */
  datatype Range = Range(start: nat, end: nat)

  ghost predicate Ranges(rs: seq<Range>, o: nat, ks: seq<bytes>) {
    |rs| == |ks| && forall i :: 0 <= i < |rs| ==> rs[i] == Range(o + |Concat(ks[..i])|, o + |Concat(ks[..i + 1])|)
  }

  ghost function AfterKeys(ks: seq<bytes>, rest: Result<seq<bytes>, Error>): Result<seq<bytes>, Error> {
    if rest.Ok? then Ok(ks + rest.value) else rest
  }

  lemma KeysStep(reg: Registry, kt: Ty, es: seq<Entry>, stack: set<Ty>, i: nat, ks: seq<bytes>)
    requires reg.Valid() && i < |es|
    requires EncodeKeys(reg, kt, es, stack) == AfterKeys(ks, EncodeKeys(reg, kt, es[i..], stack))
    ensures var d := Encode(reg, kt, es[i].key, stack);
            var whole := EncodeKeys(reg, kt, es, stack);
            if d.Err? then whole == Err(d.error)
            else
              && whole == AfterKeys(ks + [d.value], EncodeKeys(reg, kt, es[i + 1..], stack))
              && (whole.Ok? ==> |Concat(whole.value)| >= |Concat(ks)| + |d.value|)
  {
    hide Encode, Registry.Valid;
    assert es[i..][1..] == es[i + 1..];
    var d := Encode(reg, kt, es[i].key, stack);
    var rest := EncodeKeys(reg, kt, es[i + 1..], stack);
    if d.Ok? && rest.Ok? {
      assert ks + ([d.value] + rest.value) == ks + [d.value] + rest.value;
      ConcatAppend(ks + [d.value], rest.value);
      assert (ks + [d.value])[..|ks|] == ks;
    }
  }

  lemma RangesStep(rs: seq<Range>, o: nat, ks: seq<bytes>, d: bytes)
    requires Ranges(rs, o, ks)
    ensures Concat(ks + [d]) == Concat(ks) + d
    ensures Ranges(rs + [Range(o + |Concat(ks)|, o + |Concat(ks)| + |d|)], o, ks + [d])
  {
    var ks' := ks + [d];
    var rs' := rs + [Range(o + |Concat(ks)|, o + |Concat(ks)| + |d|)];
    assert ks'[..|ks|] == ks && ks'[..|ks| + 1] == ks';
    forall i | 0 <= i < |rs'| ensures rs'[i] == Range(o + |Concat(ks'[..i])|, o + |Concat(ks'[..i + 1])|) {
      PrefixOfAppend(ks, d, i);
      if i < |ks| {
        PrefixOfAppend(ks, d, i + 1);
      }
    }
  }

  lemma PrefixOfAppend<T>(s: seq<T>, x: T, i: nat)
    requires i <= |s|
    ensures (s + [x])[..i] == s[..i]
  {
  }

  /** First pass: every key in the order it is handed out, remembering where it went. */
  method MarshalKeys(reg: Registry, kt: Ty, es: seq<Entry>, p: Packer, stack: set<Ty>)
    returns (e: Option<Error>, rs: seq<Range>)
    requires reg.Valid() && p.Ready()
    modifies p
    ensures p.offset <= |p.buf| && (e.None? ==> p.Ready())
    ensures match EncodeKeys(reg, kt, es, stack)
            case Err(x) =>
              Outcome(Err(x), SpanKeys(reg, kt, es, stack), p.maxSize, old(p.buf), old(p.offset), e, p.buf, p.offset)
            case Ok(ks) =>
              Outcome(Ok(Concat(ks)), 0, p.maxSize, old(p.buf), old(p.offset), e, p.buf, p.offset)
              && (e.None? ==> Ranges(rs, old(p.offset), ks))
    decreases es, 0
  {
    hide Encode, Registry.Valid, EncodeKeys, Span, SpanKeys, Overwrite, Limit, Ranges;
    ghost var ks: seq<bytes> := [];
    assert es[0..] == es;
    ghost var b0, o0 := p.buf, p.offset;
    rs := [];
    KeysEnds(reg, kt, es, stack, ks);
    NothingYet(p.maxSize, b0, o0);
    var endOffset := p.offset;
    for i := 0 to |es|
      invariant Progress(p, b0, o0, Concat(ks)) && endOffset == p.offset
      invariant Ranges(rs, o0, ks)
      invariant EncodeKeys(reg, kt, es, stack) == AfterKeys(ks, EncodeKeys(reg, kt, es[i..], stack))
      invariant SpanKeys(reg, kt, es, stack) == |Concat(ks)| + SpanKeys(reg, kt, es[i..], stack)
    {
      assert es decreases to es[i];
      KeysStep(reg, kt, es, stack, i, ks);
      SpanKeysStep(reg, kt, es, stack, i);
      ghost var d := Encode(reg, kt, es[i].key, stack);
      e := Marshal(reg, kt, es[i].key, p, stack);
      Advance(p.maxSize, b0, o0, Concat(ks), if d.Ok? then d.value else []);
      if d.Ok? { RangesStep(rs, o0, ks, d.value); }
      if e.Some? { return; }
      rs := rs + [Range(endOffset, p.offset)];
      endOffset := p.offset;
      ks := ks + [d.value];
    }
    KeysEnds(reg, kt, es, stack, ks);
    e := None;
  }

  lemma KeysEnds(reg: Registry, kt: Ty, es: seq<Entry>, stack: set<Ty>, ks: seq<bytes>)
    requires reg.Valid()
    ensures EncodeKeys(reg, kt, es, stack) == AfterKeys([], EncodeKeys(reg, kt, es[0..], stack))
    ensures AfterKeys(ks, EncodeKeys(reg, kt, es[|es|..], stack)) == Ok(ks)
  {
    hide Encode;
    assert es[0..] == es;
    var all := EncodeKeys(reg, kt, es, stack);
    if all.Ok? {
      assert [] + all.value == all.value;
    }
    assert ks + [] == ks;
  }

  /** Cutting the remembered ranges out of the key text gives the keys back. */
  lemma RangesCut(rs: seq<Range>, o: nat, ks: seq<bytes>)
    requires Ranges(rs, o, ks)
    ensures forall i :: 0 <= i < |rs| ==> o <= rs[i].start <= rs[i].end <= o + |Concat(ks)|
    ensures forall i :: 0 <= i < |rs| ==> Concat(ks)[rs[i].start - o..rs[i].end - o] == ks[i]
  {
    forall i | 0 <= i < |rs|
      ensures o <= rs[i].start <= rs[i].end <= o + |Concat(ks)|
      ensures Concat(ks)[rs[i].start - o..rs[i].end - o] == ks[i]
    {
      ConcatAt(ks, i);
    }
  }

  /** One entry of a map: it must take at least one byte. */
  ghost function EntryText(key: bytes, val: Result<bytes, Error>): Result<bytes, Error> {
    var v :- val;
    if key + v == [] then Err(MarshalZeroLength) else Ok(key + v)
  }

  lemma EntryOk(key: bytes, val: Result<bytes, Error>)
    ensures EntryText(key, val).Err? <==> val.Err? || key + val.value == []
    ensures EntryText(key, val).Ok? ==> |EntryText(key, val).value| == |key| + |val.value|
  {
  }

  lemma FlattenStep(keys: seq<bytes>, vals: seq<Result<bytes, Error>>, j: nat, done: bytes)
    requires |keys| == |vals| && j < |keys|
    requires Flatten(keys, vals) == After(done, Flatten(keys[j..], vals[j..]))
    ensures var d := EntryText(keys[j], vals[j]);
            var whole := Flatten(keys, vals);
            if d.Err? then whole == d
            else
              && whole == After(done + d.value, Flatten(keys[j + 1..], vals[j + 1..]))
              && (whole.Ok? ==> |whole.value| >= |done + d.value|)
  {
    assert keys[j..][1..] == keys[j + 1..] && vals[j..][1..] == vals[j + 1..];
    var rest := Flatten(keys[j + 1..], vals[j + 1..]);
    if vals[j].Ok? && rest.Ok? {
      Reassociate(done, keys[j], vals[j].value, rest.value);
    }
  }

  method MarshalEntry(reg: Registry, vt: Ty, en: Entry, p: Packer, stack: set<Ty>, keyBytes: bytes)
    returns (e: Option<Error>)
    requires reg.Valid() && p.Ready()
    modifies p
    ensures p.offset <= |p.buf| && (e.None? ==> p.Ready())
    ensures var val := Encode(reg, vt, en.val, stack);
            Outcome(EntryText(keyBytes, val), SpanEntry(keyBytes, val, Span(reg, vt, en.val, stack)),
                    p.maxSize, old(p.buf), old(p.offset), e, p.buf, p.offset)
    decreases en
  {
    hide Encode, Registry.Valid;
    var keyStartOffset := p.offset;
    p.PackFixedBytes(keyBytes);
    if p.err.Some? { return p.err; }
    ghost var d := Encode(reg, vt, en.val, stack);
    e := Marshal(reg, vt, en.val, p, stack);
    Advance(p.maxSize, old(p.buf), old(p.offset), keyBytes, if d.Ok? then d.value else []);
    if e.Some? { return e; }
    if keyStartOffset == p.offset { return Some(MarshalZeroLength); }
  }

  lemma Reassociate(a: bytes, b: bytes, c: bytes, d: bytes)
    ensures a + (b + c + d) == a + (b + c) + d
  {
  }

  /** Second pass, from the first key's place on: each key's bytes, then its value, in key order. */
  method MarshalSorted(
    reg: Registry, vt: Ty, es: seq<Entry>, p: Packer, stack: set<Ty>, keyBytes: seq<bytes>, order: seq<nat>)
    returns (e: Option<Error>)
    requires reg.Valid() && p.Ready() && |keyBytes| == |es| && order == Order(keyBytes)
    modifies p
    ensures p.offset <= |p.buf| && (e.None? ==> p.Ready())
    ensures var ks, vs := Permute(keyBytes, order), Permute(EncodeVals(reg, vt, es, stack), order);
            Outcome(Flatten(ks, vs), SpanFlat(ks, vs, Permute(SpanVals(reg, vt, es, stack), order)),
                    p.maxSize, old(p.buf), old(p.offset), e, p.buf, p.offset)
    decreases es, 0
  {
    hide Encode, Registry.Valid, Flatten, EncodeVals, Order, EntryText, Span, SpanVals, SpanFlat, SpanEntry, Overwrite,
         Limit, Concat;
    ghost var ks, vs := Permute(keyBytes, order), Permute(EncodeVals(reg, vt, es, stack), order);
    ghost var spans := Permute(SpanVals(reg, vt, es, stack), order);
    assert ks[0..] == ks && vs[0..] == vs && spans[0..] == spans;
    ghost var done: bytes := [];
    ghost var b0, o0 := p.buf, p.offset;
    FlattenEnds(ks, vs, done);
    NothingYet(p.maxSize, b0, o0);
    for j := 0 to |order|
      invariant Progress(p, b0, o0, done)
      invariant Flatten(ks, vs) == After(done, Flatten(ks[j..], vs[j..]))
      invariant SpanFlat(ks, vs, spans) == |done| + SpanFlat(ks[j..], vs[j..], spans[j..])
    {
      FlattenStep(ks, vs, j, done);
      SpanFlatStep(ks, vs, spans, j);
      EntryOk(ks[j], vs[j]);
      EncodeValsAt(reg, vt, es, stack, order[j]);
      SpanValsAt(reg, vt, es, stack, order[j]);
      assert es decreases to es[order[j]];
      ghost var d := EntryText(ks[j], vs[j]);
      e := MarshalEntry(reg, vt, es[order[j]], p, stack, keyBytes[order[j]]);
      Advance(p.maxSize, b0, o0, done, if d.Ok? then d.value else []);
      if e.Some? { return e; }
      done := done + d.value;
    }
    FlattenEnds(ks, vs, done);
    return None;
  }

  lemma FlattenEnds(keys: seq<bytes>, vals: seq<Result<bytes, Error>>, done: bytes)
    requires |keys| == |vals|
    ensures Flatten(keys, vals) == After([], Flatten(keys[0..], vals[0..]))
    ensures After(done, Flatten(keys[|keys|..], vals[|keys|..])) == Ok(done)
  {
    assert keys[0..] == keys && vals[0..] == vals;
    var all := Flatten(keys, vals);
    if all.Ok? {
      assert [] + all.value == all.value;
    }
    assert done + [] == done;
  }

  /**
   The map branch: the keys are packed once to learn their bytes, the cursor is set back, and keys
   and values are packed in key order over the first pass.
   */
  method MarshalMap(reg: Registry, ty: Ty, v: Val, p: Packer, stack: set<Ty>) returns (e: Option<Error>)
    requires reg.Valid() && p.Ready() && ty.TMap?
    modifies p
    ensures p.offset <= |p.buf| && (e.None? ==> p.Ready())
    ensures Outcome(Encode(reg, ty, v, stack), Span(reg, ty, v, stack), p.maxSize, old(p.buf), old(p.offset), e,
                    p.buf, p.offset)
    decreases v, 1
  {
    hide Overwrite, EncodeKeys, EncodeVals, Flatten, SpanEntries, ToBE, Registry.Valid;
    if Entries(v).None? { return Some(IllTyped); }
    var es := Entries(v).value;
    if |es| > MAX_INT32 { return Some(MaxSliceLenExceeded); }
    Pow256Values();
    p.PackWord(|es|, 4);
    if p.err.Some? { return p.err; }
    if |es| == 0 { return None; }
    ghost var count := ToBE(|es|, 4);
    e := MarshalEntries(reg, ty, es, p, stack);
    ghost var inner := EntryBytes(reg, ty, es, stack);
    Prefixed(count, inner, SpanEntries(reg, ty, es, stack), p.maxSize, old(p.buf), old(p.offset), e, p.buf, p.offset);
  }

  ghost function EntryBytes(reg: Registry, ty: Ty, es: seq<Entry>, stack: set<Ty>): Result<bytes, Error>
    requires reg.Valid() && ty.TMap?
  {
    var keys :- EncodeKeys(reg, ty.key, es, stack);
    Flatten(Permute(keys, Order(keys)), Permute(EncodeVals(reg, ty.value, es, stack), Order(keys)))
  }

  method MarshalEntries(reg: Registry, ty: Ty, es: seq<Entry>, p: Packer, stack: set<Ty>) returns (e: Option<Error>)
    requires reg.Valid() && p.Ready() && ty.TMap?
    modifies p
    ensures p.offset <= |p.buf| && (e.None? ==> p.Ready())
    ensures Outcome(EntryBytes(reg, ty, es, stack), SpanEntries(reg, ty, es, stack), p.maxSize, old(p.buf),
                    old(p.offset), e, p.buf, p.offset)
    decreases es, 1
  {
    hide Registry.Valid, EncodeKeys, EncodeVals, Flatten, Concat, SpanKeys, SpanVals, SpanFlat;
    var rs;
    var startOffset := p.offset;
    ghost var b0 := p.buf;
    e, rs := MarshalKeys(reg, ty.key, es, p, stack);
    ghost var keys := EncodeKeys(reg, ty.key, es, stack);
    ghost var vals := EncodeVals(reg, ty.value, es, stack);
    if keys.Ok? {
      SortedLength(keys.value, vals);
    }
    if e.Some? { return e; }
    RangesCut(rs, startOffset, keys.value);
    var allKeyBytes := p.buf[startOffset..p.offset];
    assert allKeyBytes == Concat(keys.value);
    var keyBytes :=
      seq(|rs|, i requires 0 <= i < |rs| => allKeyBytes[rs[i].start - startOffset..rs[i].end - startOffset]);
    assert keyBytes == keys.value;
    var order := Order(keyBytes);
    p.offset := startOffset;
    Advance(p.maxSize, b0, startOffset, Concat(keys.value), []);
    e := MarshalSorted(reg, ty.value, es, p, stack, keyBytes, order);
    ghost var f := Flatten(Permute(keyBytes, order), Permute(vals, order));
    if f.Ok? {
      OverwriteAgain(b0, startOffset, Concat(keys.value), f.value);
    }
  }
}
