/**
 Byte strings: fixed-width big-endian integers, as `encoding/binary` writes them, and the
 order of `bytes.Compare`.
 */
module Bytes {
  type byte = x: int | 0 <= x < 256
  type bytes = seq<byte>

  function Pow256(w: nat): (p: nat)
    ensures p > 0
  {
    if w == 0 then 1 else 256 * Pow256(w - 1)
  }

  /** The `w`-byte big-endian form of `n`. */
  function ToBE(n: nat, w: nat): (s: bytes)
    requires n < Pow256(w)
    ensures |s| == w
  {
    if w == 0 then [] else ToBE(n / 256, w - 1) + [n % 256]
  }

  function FromBE(s: bytes): (n: nat)
    ensures n < Pow256(|s|)
  {
    if s == [] then 0 else FromBE(s[..|s| - 1]) * 256 + s[|s| - 1]
  }

  lemma {:induction false} FromBEToBE(n: nat, w: nat)
    requires n < Pow256(w)
    ensures FromBE(ToBE(n, w)) == n
  {
    if w > 0 {
      FromBEToBE(n / 256, w - 1);
      assert ToBE(n, w)[..w - 1] == ToBE(n / 256, w - 1);
    }
  }

  lemma {:induction false} ToBEFromBE(s: bytes)
    ensures ToBE(FromBE(s), |s|) == s
  {
    if s != [] {
      ToBEFromBE(s[..|s| - 1]);
      assert s == s[..|s| - 1] + [s[|s| - 1]];
    }
  }

  lemma Pow256Values()
    ensures Pow256(1) == 0x100
    ensures Pow256(2) == 0x1_0000
    ensures Pow256(4) == 0x1_0000_0000
    ensures Pow256(8) == 0x1_0000_0000_0000_0000
  {
    assert Pow256(3) == 0x100_0000;
    assert Pow256(5) == 0x100_0000_0000;
    assert Pow256(6) == 0x1_0000_0000_0000;
    assert Pow256(7) == 0x100_0000_0000_0000;
  }

  /** How a reader positioned at `a` sees `a + b` followed by more. */
  lemma Splits(a: bytes, b: bytes, rest: bytes)
    ensures (a + b) + rest == a + (b + rest)
    ensures (a + (b + rest))[..|a|] == a
    ensures (a + (b + rest))[|a|..] == b + rest
  {
  }

  /** `bytes.Compare(a, b) < 0`. */
  predicate Less(a: bytes, b: bytes) {
    if b == [] then false
    else if a == [] then true
    else if a[0] != b[0] then a[0] < b[0]
    else Less(a[1..], b[1..])
  }

  lemma {:induction false} LessTransitive(a: bytes, b: bytes, c: bytes)
    requires Less(a, b) && Less(b, c)
    ensures Less(a, c)
  {
    if a != [] && a[0] == b[0] && b[0] == c[0] {
      LessTransitive(a[1..], b[1..], c[1..]);
    }
  }

  lemma {:induction false} LessIrreflexive(a: bytes)
    ensures !Less(a, a)
  {
    if a != [] {
      LessIrreflexive(a[1..]);
    }
  }

  lemma {:induction false} LessTotal(a: bytes, b: bytes)
    ensures Less(a, b) || Less(b, a) || a == b
  {
    if a != [] && b != [] && a[0] == b[0] {
      LessTotal(a[1..], b[1..]);
      assert a == [a[0]] + a[1..] && b == [b[0]] + b[1..];
    }
  }

  /** Texts one after the other. */
  function Concat(ks: seq<bytes>): (d: bytes) {
    if ks == [] then [] else Concat(ks[..|ks| - 1]) + ks[|ks| - 1]
  }

  lemma {:induction false} ConcatAppend(ks: seq<bytes>, ls: seq<bytes>)
    ensures Concat(ks + ls) == Concat(ks) + Concat(ls)
  {
    if ls == [] {
      assert ks + ls == ks;
    } else {
      var n := |ls| - 1;
      ConcatAppend(ks, ls[..n]);
      assert (ks + ls)[..|ks| + n] == ks + ls[..n];
    }
  }

  /** The first byte that differs is `i`, and it is smaller in `a`. */
  predicate SmallerAt(a: bytes, b: bytes, i: nat) {
    i < |a| && i < |b| && a[..i] == b[..i] && a[i] < b[i]
  }

  lemma TailPrefix(a: bytes, b: bytes)
    requires a != [] && b != [] && a[0] == b[0]
    ensures a <= b <==> a[1..] <= b[1..]
  {
    assert forall i :: 0 <= i < |a| - 1 ==> a[1..][i] == a[i + 1];
    assert forall i :: 0 <= i < |b| - 1 ==> b[1..][i] == b[i + 1];
    if a[1..] <= b[1..] {
      forall i | 0 < i < |a| ensures a[i] == b[i] { assert a[1..][i - 1] == b[1..][i - 1]; }
    }
  }

  lemma TailSmaller(a: bytes, b: bytes, i: nat)
    requires a != [] && b != [] && a[0] == b[0]
    ensures SmallerAt(a, b, i + 1) <==> SmallerAt(a[1..], b[1..], i)
  {
    if i + 1 < |a| && i + 1 < |b| {
      assert a[..i + 1] == [a[0]] + a[1..][..i] && b[..i + 1] == [b[0]] + b[1..][..i];
      assert a[..i + 1][1..] == a[1..][..i] && b[..i + 1][1..] == b[1..][..i];
    }
  }

  /** Byte order: a proper beginning comes first, and otherwise the first byte that differs decides. */
  lemma {:induction false} LessIs(a: bytes, b: bytes)
    ensures Less(a, b) <==> (a <= b && |a| < |b|) || exists i: nat :: SmallerAt(a, b, i)
  {
    if a != [] && b != [] && a[0] == b[0] {
      assert !SmallerAt(a, b, 0);
      hide SmallerAt;
      LessIs(a[1..], b[1..]);
      TailPrefix(a, b);
      if i: nat :| SmallerAt(a[1..], b[1..], i) {
        TailSmaller(a, b, i);
        assert SmallerAt(a, b, i + 1);
      }
      if i: nat :| SmallerAt(a, b, i) {
        TailSmaller(a, b, i - 1);
        assert SmallerAt(a[1..], b[1..], i - 1);
      }
    } else if a != [] && b != [] {
      assert a[0] < b[0] ==> SmallerAt(a, b, 0);
      forall i: nat | 0 < i ensures !SmallerAt(a, b, i) {
        if i < |a| && i < |b| { assert a[..i][0] == a[0] && b[..i][0] == b[0]; }
      }
    }
  }

  /** Every byte of a word, by its place value. */
  lemma {:induction false} WordAt(n: nat, w: nat, i: nat)
    requires n < Pow256(w) && i < w
    ensures ToBE(n, w)[i] == n / Pow256(w - 1 - i) % 256
  {
    if i < w - 1 {
      WordAt(n / 256, w - 1, i);
      Quotient(n, Pow256(w - 2 - i));
    }
  }

  lemma Quotient(n: nat, d: nat)
    requires 0 < d
    ensures n / 256 / d == n / (256 * d)
  {
    var q, r := n / 256 / d, n / 256 % d;
    assert n / 256 == q * d + r;
    assert n == (q * d + r) * 256 + n % 256;
    assert n == q * (256 * d) + (r * 256 + n % 256);
    assert r * 256 + n % 256 < 256 * d;
    DivisionUnique(n, 256 * d, q, r * 256 + n % 256);
  }

  lemma DivisionUnique(n: nat, d: nat, q: nat, r: nat)
    requires 0 < d && r < d && n == q * d + r
    ensures n / d == q
  {
    assert n == (n / d) * d + n % d;
    assert (n / d - q) * d == r - n % d;
    NoSmallMultiple(n / d - q, d);
  }

  lemma NoSmallMultiple(k: int, d: int)
    requires 0 < d
    ensures -d < k * d < d ==> k == 0
  {
    if k >= 1 {
      assert (k - 1) * d >= 0;
    } else if k <= -1 {
      assert (-k - 1) * d >= 0;
    }
  }
}
