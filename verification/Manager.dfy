/** The codec manager: a version prefix in front of each encoding, and no bytes left over behind it. */
module Manager {
  import opened Results
  import opened Bytes
  import opened Codec
  import opened RoundTrip
  import opened Canonical
  import opened Packing
  import opened Marshalling
  import opened Unmarshalling
  import opened Sizing
  import opened Spans

  const VERSION_SIZE: nat := 2

  type Version = n: nat | n < 0x1_0000

  datatype ManagerError =
    | UnknownVersion
    | NilSource
    | NilDestination
    | NeedPointer
    | UnmarshalTooBig
    | CantPackVersion
    | CantUnpackVersion
    | DuplicatedVersion
    | ExtraSpace
    | InCodec(e: Error)

  /** What is handed to `Marshal` or `Size`: nil, or a value with its type. */
  datatype Source = Nothing | Value(ty: Ty, v: Val)

  /** Where `Unmarshal` is to put the value: nil, something that is not a pointer, or a pointer. */
  datatype Destination = NoDestination | NotAPointer | PointerTo(ty: Ty)

  datatype Versioned = Versioned(version: Version, v: Val)

  /** The registered codecs, as their registries, and the largest encoding allowed. */
  datatype Codecs = Codecs(maxSize: nat, registry: map<Version, Registry>) {
    ghost predicate Valid() {
      forall n :: n in registry ==> registry[n].Valid()
    }
  }

  /** The encoding of a value under a version, if it fits; why there is none, if there is room to find that out. */
  ghost function Marshalled(cs: Codecs, version: Version, src: Source): Result<bytes, ManagerError>
    requires cs.Valid()
  {
    if src.Nothing? then Err(NilSource)
    else if version !in cs.registry then Err(UnknownVersion)
    else if VERSION_SIZE > cs.maxSize then Err(CantPackVersion)
    else match Encode(cs.registry[version], src.ty, src.v, {})
      case Err(e) =>
        var room := VERSION_SIZE + Span(cs.registry[version], src.ty, src.v, {});
        Err(InCodec(if room > cs.maxSize then InsufficientLength else e))
      case Ok(b) =>
        Pow256Values();
        if VERSION_SIZE + |b| > cs.maxSize then Err(InCodec(InsufficientLength))
        else Ok(ToBE(version, VERSION_SIZE) + b)
  }

  /** The value fits its type, as every value of a Go program does. */
  ghost predicate WellTyped(cs: Codecs, version: Version, src: Source)
    requires cs.Valid()
  {
    src.Value? && version in cs.registry ==> Encode(cs.registry[version], src.ty, src.v, {}) != Err(IllTyped)
  }

  ghost function Unmarshalled(cs: Codecs, s: bytes, dest: Destination): Result<Versioned, ManagerError>
    requires cs.Valid()
  {
    if dest.NoDestination? then Err(NilDestination)
    else if |s| > cs.maxSize then Err(UnmarshalTooBig)
    else if |s| < VERSION_SIZE then Err(CantUnpackVersion)
    else
      Pow256Values();
      var version := FromBE(s[..VERSION_SIZE]);
      if version !in cs.registry then Err(UnknownVersion)
      else if dest.NotAPointer? then Err(NeedPointer)
      else match Decode(cs.registry[version], dest.ty, s[VERSION_SIZE..], {})
        case Err(e) => Err(InCodec(e))
        case Ok(x) => if VERSION_SIZE + x.used != |s| then Err(ExtraSpace) else Ok(Versioned(version, x.val))
  }

  /** A marshalling is the version, most significant byte first, and then the encoding, within the size allowed. */
  lemma Envelope(cs: Codecs, version: Version, ty: Ty, v: Val)
    requires cs.Valid() && version in cs.registry && Encode(cs.registry[version], ty, v, {}).Ok?
    ensures var r, b := Marshalled(cs, version, Value(ty, v)), Encode(cs.registry[version], ty, v, {}).value;
            && (r.Ok? <==> 2 + |b| <= cs.maxSize)
            && (r.Ok? ==> r.value == [version / 256, version % 256] + b)
  {
    hide Encode, Registry.Valid;
    Pow256Values();
    var p := ToBE(version, 2);
    WordAt(version, 2, 0);
    WordAt(version, 2, 1);
    assert p == [p[0], p[1]];
  }

  /** Which call is refused before the codec is asked, and for what reason. */
  lemma Refusals(cs: Codecs, version: Version, src: Source, s: bytes, dest: Destination)
    requires cs.Valid()
    ensures src.Nothing? <==> Marshalled(cs, version, src) == Err(NilSource)
    ensures src.Value? && version !in cs.registry <==> Marshalled(cs, version, src) == Err(UnknownVersion)
    ensures src.Value? && version in cs.registry && cs.maxSize < 2 <==>
            Marshalled(cs, version, src) == Err(CantPackVersion)
    ensures dest.NoDestination? <==> Unmarshalled(cs, s, dest) == Err(NilDestination)
    ensures !dest.NoDestination? && |s| > cs.maxSize <==> Unmarshalled(cs, s, dest) == Err(UnmarshalTooBig)
    ensures !dest.NoDestination? && |s| <= cs.maxSize && |s| < 2 <==>
            Unmarshalled(cs, s, dest) == Err(CantUnpackVersion)
    ensures !dest.NoDestination? && 2 <= |s| <= cs.maxSize && FromBE(s[..2]) !in cs.registry <==>
            Unmarshalled(cs, s, dest) == Err(UnknownVersion)
    ensures dest.NotAPointer? && 2 <= |s| <= cs.maxSize && FromBE(s[..2]) in cs.registry <==>
            Unmarshalled(cs, s, dest) == Err(NeedPointer)
  {
    hide Encode, Decode, Registry.Valid, Span;
    Pow256Values();
  }

  // ---------- marshal and unmarshal are inverse ----------

  /** Unmarshalling what was marshalled gives the version and the value back, unless a map repeats a key. */
  lemma UnmarshalMarshal(cs: Codecs, version: Version, ty: Ty, v: Val)
    requires cs.Valid() && Marshalled(cs, version, Value(ty, v)).Ok?
    ensures var reg := cs.registry[version];
            Unmarshalled(cs, Marshalled(cs, version, Value(ty, v)).value, PointerTo(ty)) ==
            if DistinctKeys(reg, ty, v, {}) then Ok(Versioned(version, Norm(reg, ty, v, {})))
            else Err(InCodec(KeysNotSorted))
  {
    Pow256Values();
    hide Encode, Decode, DistinctKeys, Norm, Registry.Valid, ToBE, FromBE, Pow256;
    var reg := cs.registry[version];
    var b := Encode(reg, ty, v, {}).value;
    var prefix := ToBE(version, VERSION_SIZE);
    assert (prefix + b)[..VERSION_SIZE] == prefix && (prefix + b)[VERSION_SIZE..] == b;
    FromBEToBE(version, VERSION_SIZE);
    assert b + [] == b;
    DecodeEncode(reg, ty, v, {}, []);
  }

  /** Bytes that unmarshal are exactly the marshalling of what they unmarshal to. */
  lemma MarshalUnmarshal(cs: Codecs, s: bytes, ty: Ty)
    requires cs.Valid() && Unmarshalled(cs, s, PointerTo(ty)).Ok?
    ensures var x := Unmarshalled(cs, s, PointerTo(ty)).value;
            Marshalled(cs, x.version, Value(ty, x.v)) == Ok(s)
  {
    hide Encode, Decode, Registry.Valid;
    Pow256Values();
    var x := Unmarshalled(cs, s, PointerTo(ty)).value;
    var reg := cs.registry[x.version];
    EncodeDecode(reg, ty, s[VERSION_SIZE..], {});
    var used := Decode(reg, ty, s[VERSION_SIZE..], {}).value.used;
    assert s[VERSION_SIZE..][..used] == s[VERSION_SIZE..];
    ToBEFromBE(s[..VERSION_SIZE]);
    assert s == s[..VERSION_SIZE] + s[VERSION_SIZE..];
  }

  /** Accepted byte strings are exactly the marshallings of values whose maps repeat no key. */
  lemma AcceptedIffMarshalled(cs: Codecs, s: bytes, ty: Ty)
    requires cs.Valid()
    ensures Unmarshalled(cs, s, PointerTo(ty)).Ok? <==>
            exists version: Version, v ::
              Marshalled(cs, version, Value(ty, v)) == Ok(s) && DistinctKeys(cs.registry[version], ty, v, {})
  {
    hide Encode, Decode, DistinctKeys, Norm, Registry.Valid;
    if Unmarshalled(cs, s, PointerTo(ty)).Ok? {
      var x := Unmarshalled(cs, s, PointerTo(ty)).value;
      MarshalUnmarshal(cs, s, ty);
      UnmarshalMarshal(cs, x.version, ty, x.v);
      assert Marshalled(cs, x.version, Value(ty, x.v)) == Ok(s) && DistinctKeys(cs.registry[x.version], ty, x.v, {});
    }
    forall version: Version, v |
      Marshalled(cs, version, Value(ty, v)) == Ok(s) && DistinctKeys(cs.registry[version], ty, v, {})
      ensures Unmarshalled(cs, s, PointerTo(ty)).Ok?
    {
      UnmarshalMarshal(cs, version, ty, v);
    }
  }

  class CodecManager {
    const maxSize: nat
    var registry: map<Version, Registry>

    ghost function State(): Codecs
      reads this
    {
      Codecs(maxSize, registry)
    }

    constructor (maxSize: nat)
      ensures State() == Codecs(maxSize, map[])
    {
      this.maxSize := maxSize;
      registry := map[];
    }

    method RegisterCodec(version: Version, reg: Registry) returns (e: Option<ManagerError>)
      requires State().Valid() && reg.Valid()
      modifies this
      ensures State().Valid()
      ensures if version in old(registry) then e == Some(DuplicatedVersion) && registry == old(registry)
              else e.None? && registry == old(registry)[version := reg]
    {
      if version in registry { return Some(DuplicatedVersion); }
      registry := registry[version := reg];
      return None;
    }

    /** The size includes the version; it is the length of what `Marshal` returns. */
    method Size(version: Version, src: Source) returns (r: Result<nat, ManagerError>)
      requires State().Valid()
      ensures src.Nothing? ==> r == Err(NilSource)
      ensures src.Value? && version !in registry ==> r == Err(UnknownVersion)
      ensures Marshalled(State(), version, src).Ok? ==> r == Ok(|Marshalled(State(), version, src).value|)
    {
      hide Encode;
      if src.Nothing? { return Err(NilSource); }
      if version !in registry { return Err(UnknownVersion); }
      var s := Sizing.Size(registry[version], src.ty, src.v, {});
      if s.Err? { return Err(InCodec(s.error)); }
      return Ok(VERSION_SIZE + s.value.size);
    }

    method Marshal(version: Version, src: Source) returns (r: Result<bytes, ManagerError>)
      requires State().Valid()
      ensures r.Ok? <==> Marshalled(State(), version, src).Ok?
      ensures WellTyped(State(), version, src) ==> r == Marshalled(State(), version, src)
    {
      hide Encode, Registry.Valid, Span;
      if src.Nothing? { return Err(NilSource); }
      if version !in registry { return Err(UnknownVersion); }
      Pow256Values();
      var p := new Packer(maxSize, []);
      p.PackWord(version, 2);
      if p.err.Some? { return Err(CantPackVersion); }
      ghost var prefix := ToBE(version, VERSION_SIZE);
      assert p.buf == prefix;
      var e := Marshalling.Marshal(registry[version], src.ty, src.v, p, {});
      if e.Some? { return Err(InCodec(e.value)); }
      assert p.buf == prefix + Encode(registry[version], src.ty, src.v, {}).value;
      return Ok(p.buf);
    }

    method Unmarshal(s: bytes, dest: Destination) returns (r: Result<Versioned, ManagerError>)
      requires State().Valid()
      ensures r == Unmarshalled(State(), s, dest)
    {
      hide Decode, Registry.Valid;
      if dest.NoDestination? { return Err(NilDestination); }
      if |s| > maxSize { return Err(UnmarshalTooBig); }
      Pow256Values();
      var p := new Packer(0, s);
      var version := p.UnpackWord(2);
      if p.err.Some? { return Err(CantUnpackVersion); }
      if version !in registry { return Err(UnknownVersion); }
      if dest.NotAPointer? { return Err(NeedPointer); }
      var x := Unmarshalling.Unmarshal(registry[version], dest.ty, p, {});
      if x.Err? { return Err(InCodec(x.error)); }
      if p.offset != |s| { return Err(ExtraSpace); }
      return Ok(Versioned(version, x.value));
    }
  }
}
