/** The byte packer that every codec writes to and reads from: a growing buffer with a cursor. */
module Packing {
  import opened Results
  import opened Bytes
  import opened Codec

  /** `b` with `d` written at position `o`, over what is there and past the end. */
  function Overwrite(b: bytes, o: nat, d: bytes): (r: bytes)
    requires o <= |b|
    ensures |r| == if o + |d| <= |b| then |b| else o + |d|
  {
    b[..o] + d + (if o + |d| <= |b| then b[o + |d|..] else [])
  }

  /** The largest size to which a buffer may still grow, or already has grown. */
  function Limit(maxSize: nat, b: bytes): (n: nat) {
    if |b| <= maxSize then maxSize else |b|
  }

  /** Byte by byte: the new text at its place, and everything else as it was. */
  lemma OverwriteAt(b: bytes, o: nat, d: bytes, i: nat)
    requires o <= |b| && i < |Overwrite(b, o, d)|
    ensures |Overwrite(b, o, d)| == if o + |d| <= |b| then |b| else o + |d|
    ensures Overwrite(b, o, d)[i] == if o <= i < o + |d| then d[i - o] else b[i]
  {
  }

  lemma OverwriteTwice(b: bytes, o: nat, c: bytes, d: bytes)
    requires o <= |b|
    ensures Overwrite(Overwrite(b, o, c), o + |c|, d) == Overwrite(b, o, c + d)
  {
    var x := Overwrite(b, o, c);
    assert x[..o + |c|] == b[..o] + c;
    if o + |c| + |d| <= |b| {
      assert x[o + |c| + |d|..] == b[o + |c| + |d|..];
    }
  }

  /** Writing again from the same place hides a shorter earlier text. */
  lemma OverwriteAgain(b: bytes, o: nat, c: bytes, d: bytes)
    requires o <= |b| && |c| <= |d|
    ensures Overwrite(Overwrite(b, o, c), o, d) == Overwrite(b, o, d)
  {
    var x := Overwrite(b, o, c);
    assert x[..o] == b[..o];
    if o + |d| <= |b| {
      assert x[o + |d|..] == b[o + |d|..];
    }
  }

  lemma OverwriteNothing(b: bytes, o: nat)
    requires o <= |b|
    ensures Overwrite(b, o, []) == b
  {
  }

  class Packer {
    const maxSize: nat
    var buf: bytes
    var offset: nat
    var err: Option<Error>

    ghost predicate Ready()
      reads this
    {
      offset <= |buf| && err.None?
    }

    constructor (maxSize: nat, buf: bytes)
      ensures this.maxSize == maxSize && this.buf == buf && offset == 0 && Ready()
    {
      this.maxSize := maxSize;
      this.buf := buf;
      offset := 0;
      err := None;
    }

    /** Makes room for `n` more bytes at the cursor, or records that there is none. */
    method Expand(n: nat)
      requires offset <= |buf|
      modifies `buf, `err
      ensures offset <= |buf| && buf[..offset] == old(buf[..offset])
      ensures if offset + n <= Limit(maxSize, old(buf))
              then err == old(err) && offset + n <= |buf| &&
                   |buf| == (if offset + n <= |old(buf)| then |old(buf)| else offset + n)
                   && forall i :: offset + n <= i < |buf| ==> i < |old(buf)| && buf[i] == old(buf)[i]
              else err == Some(InsufficientLength)
    {
      var needed := offset + n;
      if needed > |buf| {
        if needed > maxSize {
          err := Some(InsufficientLength);
        } else {
          buf := buf + seq(needed - |buf|, _ => 0);
        }
      }
    }

    method PackFixedBytes(d: bytes)
      requires offset <= |buf|
      modifies `buf, `offset, `err
      ensures offset <= |buf|
      ensures old(err) == Some(InsufficientLength) ==> err == old(err)
      ensures old(err).None? ==>
                if old(offset) + |d| <= Limit(maxSize, old(buf))
                then err.None? && offset == old(offset) + |d| && buf == Overwrite(old(buf), old(offset), d)
                else err == Some(InsufficientLength)
    {
      Expand(|d|);
      if err.None? {
        buf := buf[..offset] + d + buf[offset + |d|..];
        offset := offset + |d|;
      }
    }

    /** `PackByte`, `PackShort`, `PackInt` and `PackLong`: an unsigned word of `w` bytes, big-endian. */
    method PackWord(n: nat, w: Width)
      requires offset <= |buf| && n < Pow256(w)
      modifies `buf, `offset, `err
      ensures offset <= |buf|
      ensures old(err) == Some(InsufficientLength) ==> err == old(err)
      ensures old(err).None? ==>
                if old(offset) + w <= Limit(maxSize, old(buf))
                then err.None? && offset == old(offset) + w && buf == Overwrite(old(buf), old(offset), ToBE(n, w))
                else err == Some(InsufficientLength)
    {
      PackFixedBytes(ToBE(n, w));
    }

    method PackStr(s: bytes)
      requires Ready()
      modifies `buf, `offset, `err
      ensures offset <= |buf|
      ensures |s| > MAX_STRING_LEN ==> err == Some(InvalidInput)
      ensures |s| <= MAX_STRING_LEN ==> |s| < Pow256(2)
      ensures |s| <= MAX_STRING_LEN ==>
                if old(offset) + 2 + |s| <= Limit(maxSize, old(buf))
                then err.None? && offset == old(offset) + 2 + |s| &&
                     buf == Overwrite(old(buf), old(offset), ToBE(|s|, 2) + s)
                else err == Some(InsufficientLength)
    {
      Pow256Values();
      if |s| > MAX_STRING_LEN {
        err := Some(InvalidInput);
        return;
      }
      PackWord(|s|, 2);
      PackFixedBytes(s);
      OverwriteTwice(old(buf), old(offset), ToBE(|s|, 2), s);
    }

    /** `UnpackFixedBytes`: the next `n` bytes, if there are as many. */
    method UnpackFixedBytes(n: nat) returns (d: bytes)
      requires Ready()
      modifies `offset, `err
      ensures offset <= |buf|
      ensures if old(offset) + n <= |buf|
              then err.None? && d == buf[old(offset)..old(offset) + n] && offset == old(offset) + n
              else err == Some(InsufficientLength) && d == [] && offset == old(offset)
    {
      if |buf| - offset < n {
        err := Some(InsufficientLength);
        return [];
      }
      d := buf[offset..offset + n];
      offset := offset + n;
    }

    method UnpackWord(w: Width) returns (n: nat)
      requires Ready()
      modifies `offset, `err
      ensures offset <= |buf|
      ensures if old(offset) + w <= |buf|
              then err.None? && n == FromBE(buf[old(offset)..old(offset) + w]) && offset == old(offset) + w
              else err == Some(InsufficientLength) && n == 0 && offset == old(offset)
    {
      var d := UnpackFixedBytes(w);
      n := FromBE(d);
    }
  }
}
