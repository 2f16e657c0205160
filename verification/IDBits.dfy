/** Comparing ranges of bits of two IDs, byte by byte with masks, against a comparison bit by bit. */
module IDBits {
  import opened Results

  const NUM_BITS: nat := 256
  const ID_LEN: nat := 32

  type ID = s: seq<bv8> | |s| == ID_LEN witness seq(ID_LEN, i => 0)

  /** `x >> b`. */
  function Shifted(x: bv8, b: nat): bv8
    requires b < 8
  {
    match b
    case 0 => x
    case 1 => x >> 1
    case 2 => x >> 2
    case 3 => x >> 3
    case 4 => x >> 4
    case 5 => x >> 5
    case 6 => x >> 6
    case _ => x >> 7
  }

  /** A bit of a byte; bit 0 is the lowest. */
  predicate ByteBit(x: bv8, b: nat)
    requires b < 8
  {
    Shifted(x, b) & 1 == 1
  }

  /** A bit of an ID. */
  predicate Bit(id: ID, i: nat)
    requires i < NUM_BITS
  {
    ByteBit(id[i / 8], i % 8)
  }

  /** The low byte of `-1 << b`, which is 0 from 8 on. */
  function StartMask(b: nat): bv8
    requires b <= 8
  {
    match b
    case 0 => 0xFF
    case 1 => 0xFE
    case 2 => 0xFC
    case 3 => 0xF8
    case 4 => 0xF0
    case 5 => 0xE0
    case 6 => 0xC0
    case 7 => 0x80
    case _ => 0x00
  }

  /** `(1 << (b + 1)) - 1`. */
  function StopMask(b: nat): bv8
    requires b < 8
  {
    match b
    case 0 => 0x01
    case 1 => 0x03
    case 2 => 0x07
    case 3 => 0x0F
    case 4 => 0x1F
    case 5 => 0x3F
    case 6 => 0x7F
    case _ => 0xFF
  }

  function TrailingZeros8(x: bv8): nat {
    if x & 0x01 != 0 then 0
    else if x & 0x02 != 0 then 1
    else if x & 0x04 != 0 then 2
    else if x & 0x08 != 0 then 3
    else if x & 0x10 != 0 then 4
    else if x & 0x20 != 0 then 5
    else if x & 0x40 != 0 then 6
    else if x & 0x80 != 0 then 7
    else 8
  }

  /** Two bytes agree on the bits from `lo` up to `hi`. */
  ghost predicate BytesAgree(x: bv8, y: bv8, lo: nat, hi: nat)
    requires hi <= 8
  {
    forall b :: lo <= b < hi ==> ByteBit(x, b) == ByteBit(y, b)
  }

  /** The first bit at which two bytes differ. */
  ghost predicate FirstByteDifference(x: bv8, y: bv8, lo: nat, hi: nat, b: nat)
    requires hi <= 8
  {
    lo <= b < hi && ByteBit(x, b) != ByteBit(y, b) && BytesAgree(x, y, lo, b)
  }

  /** All eight bits of a masked byte. */
  lemma StartMasked(x: bv8, lo: nat, b: nat)
    requires lo <= 8 && b < 8
    ensures ByteBit(x & StartMask(lo), b) <==> lo <= b && ByteBit(x, b)
  {
    match lo case 0 => case 1 => case 2 => case 3 => case 4 => case 5 => case 6 => case 7 => case _ =>
  }

  lemma StopMasked(x: bv8, hi: nat, b: nat)
    requires hi < 8 && b < 8
    ensures ByteBit(x & StopMask(hi), b) <==> b <= hi && ByteBit(x, b)
  {
    match hi case 0 => case 1 => case 2 => case 3 => case 4 => case 5 => case 6 => case _ =>
  }

  lemma ByteEqual(x: bv8, y: bv8)
    ensures x == y <==> BytesAgree(x, y, 0, 8)
  {
    if BytesAgree(x, y, 0, 8) {
      assert ByteBit(x, 0) == ByteBit(y, 0);
      assert ByteBit(x, 1) == ByteBit(y, 1);
      assert ByteBit(x, 2) == ByteBit(y, 2);
      assert ByteBit(x, 3) == ByteBit(y, 3);
      assert ByteBit(x, 4) == ByteBit(y, 4);
      assert ByteBit(x, 5) == ByteBit(y, 5);
      assert ByteBit(x, 6) == ByteBit(y, 6);
      assert ByteBit(x, 7) == ByteBit(y, 7);
    }
  }

  lemma XorBit(x: bv8, y: bv8, b: nat)
    requires b < 8
    ensures ByteBit(x ^ y, b) <==> ByteBit(x, b) != ByteBit(y, b)
  {
    match b case 0 => case 1 => case 2 => case 3 => case 4 => case 5 => case 6 => case _ =>
  }

  lemma LowestBit(x: bv8)
    requires x != 0
    ensures TrailingZeros8(x) < 8 && ByteBit(x, TrailingZeros8(x))
    ensures forall b :: 0 <= b < TrailingZeros8(x) ==> !ByteBit(x, b)
  {
    forall b | 0 <= b < TrailingZeros8(x) ensures !ByteBit(x, b) {
      match b case 0 => case 1 => case 2 => case 3 => case 4 => case 5 => case 6 => case _ =>
    }
  }

  /** The lowest bit of the difference of two bytes is where they first differ. */
  lemma FirstOfBytes(x: bv8, y: bv8)
    requires x != y
    ensures FirstByteDifference(x, y, 0, 8, DifferenceBit(x, y))
  {
    assert x ^ y != 0;
    LowestBit(x ^ y);
    forall b: nat | b < 8 ensures ByteBit(x ^ y, b) <==> ByteBit(x, b) != ByteBit(y, b) { XorBit(x, y, b); }
  }

  /** What a mask for the bits from `lo` to `hi` leaves of a byte. */
  ghost predicate Selects(mask: bv8, lo: nat, hi: nat)
    requires hi < 8
  {
    forall x: bv8, b: nat :: b < 8 ==> (ByteBit(x & mask, b) <==> lo <= b <= hi && ByteBit(x, b))
  }

  lemma MasksSelect(lo: nat, hi: nat)
    requires lo <= 8 && hi < 8
    ensures Selects(StartMask(lo), lo, 7) && Selects(StopMask(hi), 0, hi)
    ensures Selects(StartMask(lo) & StopMask(hi), lo, hi)
  {
    hide ByteBit, StartMask, StopMask;
    forall x: bv8, b: nat | b < 8
      ensures ByteBit(x & StartMask(lo), b) <==> lo <= b <= 7 && ByteBit(x, b)
      ensures ByteBit(x & StopMask(hi), b) <==> 0 <= b <= hi && ByteBit(x, b)
      ensures ByteBit(x & (StartMask(lo) & StopMask(hi)), b) <==> lo <= b <= hi && ByteBit(x, b)
    {
      StartMasked(x, lo, b);
      StopMasked(x, hi, b);
      StopMasked(x & StartMask(lo), hi, b);
      Associate(x, StartMask(lo), StopMask(hi));
    }
  }

  lemma Associate(x: bv8, a: bv8, b: bv8)
    ensures (x & a) & b == x & (a & b)
  {
  }

  function Masked(mask: bv8, x: bv8): bv8 {
    mask & x
  }

  /** The lowest bit of the difference of two bytes. */
  function DifferenceBit(x: bv8, y: bv8): nat {
    TrailingZeros8(x ^ y)
  }

  /** Masked bytes are equal iff the bytes agree on the selected bits. */
  lemma MaskedEqual(x: bv8, y: bv8, mask: bv8, lo: nat, hi: nat)
    requires hi < 8 && Selects(mask, lo, hi)
    ensures Masked(mask, x) == Masked(mask, y) <==> BytesAgree(x, y, lo, hi + 1)
  {
    hide ByteBit;
    Commute(mask, x);
    Commute(mask, y);
    ByteEqual(x & mask, y & mask);
    if BytesAgree(x & mask, y & mask, 0, 8) {
      forall b | lo <= b < hi + 1 ensures ByteBit(x, b) == ByteBit(y, b) {
        assert ByteBit(x & mask, b) == ByteBit(y & mask, b);
      }
    }
    if BytesAgree(x, y, lo, hi + 1) {
      var mx, my := x & mask, y & mask;
      forall b | 0 <= b < 8 ensures ByteBit(mx, b) == ByteBit(my, b) {
        assert lo <= b < hi + 1 ==> ByteBit(x, b) == ByteBit(y, b);
      }
    }
  }

  /** Where masked bytes first differ is where the bytes first differ on the selected bits. */
  lemma MaskedFirst(x: bv8, y: bv8, mask: bv8, lo: nat, hi: nat)
    requires hi < 8 && Selects(mask, lo, hi) && Masked(mask, x) != Masked(mask, y)
    ensures FirstByteDifference(x, y, lo, hi + 1, DifferenceBit(Masked(mask, x), Masked(mask, y)))
  {
    hide ByteBit, TrailingZeros8;
    Commute(mask, x);
    Commute(mask, y);
    FirstOfBytes(x & mask, y & mask);
    var d := TrailingZeros8((x & mask) ^ (y & mask));
    assert ByteBit(x & mask, d) != ByteBit(y & mask, d);
    forall b | lo <= b < d ensures ByteBit(x, b) == ByteBit(y, b) {
      assert ByteBit(x & mask, b) == ByteBit(y & mask, b);
    }
  }

  lemma Commute(x: bv8, y: bv8)
    ensures x & y == y & x
  {
  }

  // ---------- IDs ----------

  /** Two IDs agree on the bits from `lo` up to `hi`. */
  ghost predicate Agree(id1: ID, id2: ID, lo: nat, hi: nat)
    requires hi <= NUM_BITS
  {
    forall i :: lo <= i < hi ==> Bit(id1, i) == Bit(id2, i)
  }

  lemma AgreeInByte(id1: ID, id2: ID, k: nat, lo: nat, hi: nat)
    requires k < ID_LEN && hi <= 8
    ensures Agree(id1, id2, 8 * k + lo, 8 * k + hi) <==> BytesAgree(id1[k], id2[k], lo, hi)
  {
    hide ByteBit;
    if Agree(id1, id2, 8 * k + lo, 8 * k + hi) {
      forall b | lo <= b < hi ensures ByteBit(id1[k], b) == ByteBit(id2[k], b) {
        var i := 8 * k + b;
        assert Bit(id1, i) == Bit(id2, i) && i / 8 == k && i % 8 == b;
      }
    }
    if BytesAgree(id1[k], id2[k], lo, hi) {
      forall i | 8 * k + lo <= i < 8 * k + hi ensures Bit(id1, i) == Bit(id2, i) {
        var b := i - 8 * k;
        assert ByteBit(id1[k], b) == ByteBit(id2[k], b) && i / 8 == k && i % 8 == b;
      }
    }
  }

  lemma AgreeSplit(id1: ID, id2: ID, lo: nat, mid: nat, hi: nat)
    requires lo <= mid <= hi <= NUM_BITS
    ensures Agree(id1, id2, lo, hi) <==> Agree(id1, id2, lo, mid) && Agree(id1, id2, mid, hi)
  {
    hide Bit;
  }

  lemma AgreeShorter(id1: ID, id2: ID, lo: nat, mid: nat, hi: nat)
    requires mid <= hi <= NUM_BITS && Agree(id1, id2, lo, hi)
    ensures Agree(id1, id2, lo, mid)
  {
    hide Bit;
  }

  /** Whole bytes in between. */
  lemma {:induction false} AgreeBytes(id1: ID, id2: ID, p: nat, q: nat)
    requires p <= q <= ID_LEN
    ensures id1[p..q] == id2[p..q] <==> Agree(id1, id2, 8 * p, 8 * q)
    decreases q - p
  {
    hide Agree;
    if p == q {
      NoBits(id1, id2, 8 * p, 8 * q);
    } else {
      AgreeBytes(id1, id2, p, q - 1);
      AgreeSplit(id1, id2, 8 * p, 8 * (q - 1), 8 * q);
      AgreeInByte(id1, id2, q - 1, 0, 8);
      ByteEqual(id1[q - 1], id2[q - 1]);
      assert id1[p..q] == id1[p..q - 1] + [id1[q - 1]] && id2[p..q] == id2[p..q - 1] + [id2[q - 1]];
      assert id1[p..q][..q - 1 - p] == id1[p..q - 1] && id2[p..q][..q - 1 - p] == id2[p..q - 1];
      assert id1[p..q][q - 1 - p] == id1[q - 1] && id2[p..q][q - 1 - p] == id2[q - 1];
    }
  }

  lemma NoBits(id1: ID, id2: ID, lo: nat, hi: nat)
    requires hi <= lo && hi <= NUM_BITS
    ensures Agree(id1, id2, lo, hi)
  {
  }

  /** The first bit looked at: a negative position in the first byte stands for the end of that byte. */
  function From(start: int): nat
    requires -8 < start
  {
    if start < 0 then 8 else start
  }

  function FirstByte(start: int): nat
    requires -8 < start
  {
    if start < 0 then 0 else start / 8
  }

  /** The bit in that byte; a negative one is shifted as a large unsigned number, and nothing is left of the mask. */
  function FirstBit(start: int): nat
    requires -8 < start
  {
    if start < 0 then 8 else start % 8
  }

  /**
   The range in three parts: the rest of the first byte, whole bytes, the beginning of the last. None is a panic:
   from 8 before the beginning there is no first byte, and from 16 before it not even the whole bytes can be cut out.
   */
  function EqualSubset(start: int, stop: int, id1: ID, id2: ID): Option<bool> {
    var last := stop - 1;
    if start > last || last < 0 then Some(true)
    else if last >= NUM_BITS then Some(false)
    else if start <= -16 then None
    else if start <= -8 then (if id1[..last / 8] != id2[..last / 8] then Some(false) else None)
    else Some(EqualBytes(FirstByte(start), FirstBit(start), last / 8, last % 8, id1, id2))
  }

  function EqualBytes(p: nat, lo: nat, q: nat, hi: nat, id1: ID, id2: ID): bool
    requires p <= q < ID_LEN && lo <= 8 && hi < 8
  {
    if p + 1 < q && id1[p + 1..q] != id2[p + 1..q] then false
    else if p == q then
      var mask := StartMask(lo) & StopMask(hi);
      Masked(mask, id1[p]) == Masked(mask, id2[p])
    else
      && Masked(StartMask(lo), id1[p]) == Masked(StartMask(lo), id2[p])
      && Masked(StopMask(hi), id1[q]) == Masked(StopMask(hi), id2[q])
  }

  lemma EqualBytesIs(p: nat, lo: nat, q: nat, hi: nat, id1: ID, id2: ID)
    requires p <= q < ID_LEN && lo <= 8 && hi < 8
    ensures EqualBytes(p, lo, q, hi, id1, id2) <==> Agree(id1, id2, 8 * p + lo, 8 * q + (hi + 1))
  {
    hide Agree, StartMask, StopMask, Selects, Masked, BytesAgree;
    MasksSelect(lo, hi);
    if p == q {
      MaskedEqual(id1[p], id2[p], StartMask(lo) & StopMask(hi), lo, hi);
      AgreeInByte(id1, id2, p, lo, hi + 1);
    } else {
      MaskedEqual(id1[p], id2[p], StartMask(lo), lo, 7);
      MaskedEqual(id1[q], id2[q], StopMask(hi), 0, hi);
      AgreeInByte(id1, id2, p, lo, 8);
      AgreeInByte(id1, id2, q, 0, hi + 1);
      AgreeBytes(id1, id2, p + 1, q);
      AgreeSplit(id1, id2, 8 * p + lo, 8 * (p + 1), 8 * q + (hi + 1));
      AgreeSplit(id1, id2, 8 * (p + 1), 8 * q, 8 * q + (hi + 1));
      assert p + 1 == q ==> id1[p + 1..q] == id2[p + 1..q];
    }
  }

  /**
   For a range that begins in the ID: true iff all its bits agree, and a range that goes past the ID never does,
   unless it is empty. A negative start leaves out the first byte, or there is an answer only if an earlier byte
   differs.
   */
  lemma EqualSubsetIs(start: int, stop: int, id1: ID, id2: ID)
    ensures EqualSubset(start, stop, id1, id2) ==
            if start >= stop || stop <= 0 then Some(true)
            else if stop > NUM_BITS then Some(false)
            else if -8 < start then Some(Agree(id1, id2, From(start), stop))
            else if -16 < start && !Agree(id1, id2, 0, 8 * ((stop - 1) / 8)) then Some(false)
            else None
  {
    hide Agree, EqualBytes;
    var last := stop - 1;
    if start <= last && 0 <= last < NUM_BITS {
      if -8 < start {
        EqualBytesIs(FirstByte(start), FirstBit(start), last / 8, last % 8, id1, id2);
        assert stop == 8 * (last / 8) + (last % 8 + 1);
      } else {
        AgreeBytes(id1, id2, 0, last / 8);
        assert id1[0..last / 8] == id1[..last / 8] && id2[0..last / 8] == id2[..last / 8];
      }
    }
  }

  /** The first bit in the range at which two IDs differ. */
  ghost predicate FirstDifference(id1: ID, id2: ID, start: nat, stop: nat, i: nat) {
    start <= i < stop <= NUM_BITS && Bit(id1, i) != Bit(id2, i) && Agree(id1, id2, start, i)
  }

  /** A first difference in a byte, when everything before the byte agrees. */
  lemma DifferenceInByte(id1: ID, id2: ID, start: nat, stop: nat, k: nat, lo: nat, hi: nat, b: nat)
    requires k < ID_LEN && hi <= 8 && FirstByteDifference(id1[k], id2[k], lo, hi, b)
    requires start <= 8 * k + lo && 8 * k + hi <= stop <= NUM_BITS && Agree(id1, id2, start, 8 * k + lo)
    ensures FirstDifference(id1, id2, start, stop, b + k * 8)
  {
    AgreeInByte(id1, id2, k, lo, b);
    AgreeSplit(id1, id2, start, 8 * k + lo, 8 * k + b);
    assert (8 * k + b) / 8 == k && (8 * k + b) % 8 == b;
  }

  /** The first difference from bit `lo` of byte `p` to bit `hi` of byte `q`. */
  method FirstDifferenceBytes(p: nat, lo: nat, q: nat, hi: nat, id1: ID, id2: ID) returns (i: nat, found: bool)
    requires p <= q < ID_LEN && lo <= 8 && hi < 8
    ensures found ==> FirstDifference(id1, id2, 8 * p + lo, 8 * q + (hi + 1), i)
    ensures !found ==> i == 0 && Agree(id1, id2, 8 * p + lo, 8 * q + (hi + 1))
  {
    hide Agree, StartMask, StopMask, Selects, FirstByteDifference, FirstDifference, DifferenceBit, BytesAgree, Masked;
    ghost var start, stop := 8 * p + lo, 8 * q + (hi + 1);
    MasksSelect(lo, hi);
    NoBits(id1, id2, start, start);
    if p == q {
      var mask := StartMask(lo) & StopMask(hi);
      i, found := InByte(id1, id2, p, mask, lo, hi, start, stop);
      return;
    }
    i, found := InByte(id1, id2, p, StartMask(lo), lo, 7, start, stop);
    if found { return; }
    for k := p + 1 to q
      invariant Agree(id1, id2, start, 8 * k)
    {
      if id1[k] != id2[k] {
        FirstOfBytes(id1[k], id2[k]);
        DifferenceInByte(id1, id2, start, stop, k, 0, 8, DifferenceBit(id1[k], id2[k]));
        return DifferenceBit(id1[k], id2[k]) + k * 8, true;
      }
      ByteEqual(id1[k], id2[k]);
      AgreeInByte(id1, id2, k, 0, 8);
      AgreeSplit(id1, id2, start, 8 * k, 8 * (k + 1));
    }
    i, found := InByte(id1, id2, q, StopMask(hi), 0, hi, start, stop);
  }

  /** One byte under a mask, when everything before it agrees. */
  method InByte(id1: ID, id2: ID, k: nat, mask: bv8, lo: nat, hi: nat, ghost start: nat, ghost stop: nat)
    returns (i: nat, found: bool)
    requires k < ID_LEN && lo <= 8 && hi < 8 && Selects(mask, lo, hi)
    requires start <= 8 * k + lo && 8 * k + (hi + 1) <= stop <= NUM_BITS && Agree(id1, id2, start, 8 * k + lo)
    ensures found ==> FirstDifference(id1, id2, start, stop, i)
    ensures !found ==> i == 0 && Agree(id1, id2, start, 8 * k + (hi + 1))
  {
    hide Agree, Selects, FirstByteDifference, FirstDifference, DifferenceBit, BytesAgree, Masked;
    MaskedEqual(id1[k], id2[k], mask, lo, hi);
    AgreeInByte(id1, id2, k, lo, hi + 1);
    if lo <= hi {
      AgreeSplit(id1, id2, start, 8 * k + lo, 8 * k + (hi + 1));
    } else {
      AgreeShorter(id1, id2, start, 8 * k + (hi + 1), 8 * k + lo);
    }
    var x, y := Masked(mask, id1[k]), Masked(mask, id2[k]);
    if x == y { return 0, false; }
    MaskedFirst(id1[k], id2[k], mask, lo, hi);
    DifferenceInByte(id1, id2, start, stop, k, lo, hi + 1, DifferenceBit(x, y));
    return DifferenceBit(x, y) + k * 8, true;
  }

  /**
   The least differing bit of the range, and none iff `EqualSubset` holds, as long as the range is within the ID.
   None is a panic, for a range that starts 8 or more before the ID.
   */
  method FirstDifferenceSubset(start: int, stop: int, id1: ID, id2: ID) returns (r: Option<(nat, bool)>)
    ensures r.None? <==> start <= -8 && 0 < stop <= NUM_BITS
    ensures r.Some? && r.value.1 ==> 0 <= stop && -8 < start && FirstDifference(id1, id2, From(start), stop, r.value.0)
    ensures r.Some? && !r.value.1 ==> r.value.0 == 0
    ensures r.Some? ==> (r.value.1 <==> stop <= NUM_BITS && EqualSubset(start, stop, id1, id2) == Some(false))
  {
    hide Agree, FirstDifference, EqualSubset;
    EqualSubsetIs(start, stop, id1, id2);
    var last := stop - 1;
    if start > last || last < 0 || last >= NUM_BITS { return Some((0, false)); }
    if start <= -8 { return None; }
    var i, found := FirstDifferenceBytes(FirstByte(start), FirstBit(start), last / 8, last % 8, id1, id2);
    assert stop == 8 * (last / 8) + (last % 8 + 1);
    if found { Differs(id1, id2, From(start), stop, i); }
    return Some((i, found));
  }

  lemma Differs(id1: ID, id2: ID, start: nat, stop: nat, i: nat)
    requires FirstDifference(id1, id2, start, stop, i)
    ensures !Agree(id1, id2, start, stop)
  {
  }
}
