/** Sampling without replacement by a lazy shuffle. */
module Sampler {
  import opened Results

  /** The number at a place of the shuffled array; only the places that were touched are kept. */
  function Value(drawn: map<nat, nat>, i: nat): nat {
    if i in drawn then drawn[i] else i
  }

  ghost predicate Left(drawn: map<nat, nat>, lo: nat, hi: nat, x: nat) {
    exists i :: lo <= i < hi && Value(drawn, i) == x
  }

  ghost predicate Different(drawn: map<nat, nat>, lo: nat, hi: nat) {
    forall i, j :: lo <= i < j < hi ==> Value(drawn, i) != Value(drawn, j)
  }

  class Uniform {
    var length: nat
    var drawn: map<nat, nat>
    var drawsCount: nat

    ghost predicate Valid()
      reads this
    {
      drawsCount <= length && Different(drawn, drawsCount, length)
    }

    /** `x` has not been drawn yet. */
    ghost predicate Remains(x: nat)
      reads this
    {
      Left(drawn, drawsCount, length, x)
    }

    constructor (length: nat)
      ensures Valid() && this.length == length && drawsCount == 0
      ensures forall x: nat :: Remains(x) <==> x < length
    {
      this.length := length;
      drawn := map[];
      drawsCount := 0;
      new;
      forall x: nat ensures Remains(x) <==> x < length {
        if x < length { assert Value(drawn, x) == x; }
      }
    }

    /** Draws one of the remaining numbers; `random` picks which, and any of them can come. */
    method Next(random: nat) returns (r: Option<nat>)
      requires Valid()
      modifies this
      ensures Valid() && length == old(length)
      ensures r.None? <==> old(drawsCount) == length
      ensures r.None? ==> drawsCount == length && forall x :: !Remains(x)
      ensures r.Some? ==> drawsCount == old(drawsCount) + 1 && old(Remains(r.value))
      ensures r.Some? ==> forall x :: Remains(x) <==> old(Remains(x)) && x != r.value
    {
      if drawsCount >= length { return None; }
      var draw := random % (length - drawsCount) + drawsCount;
      var ret := Value(drawn, draw);
      assert Remains(ret);
      Shuffle(drawn, drawsCount, length, draw);
      drawn := drawn[draw := Value(drawn, drawsCount)];
      drawsCount := drawsCount + 1;
      return Some(ret);
    }
  }

  /** Moving the first number to the place of the one drawn takes exactly that one out. */
  lemma Shuffle(drawn: map<nat, nat>, lo: nat, hi: nat, draw: nat)
    requires lo <= draw < hi && Different(drawn, lo, hi)
    ensures var drawn' := drawn[draw := Value(drawn, lo)];
            Different(drawn', lo + 1, hi) &&
            forall x :: Left(drawn', lo + 1, hi, x) <==> Left(drawn, lo, hi, x) && x != Value(drawn, draw)
  {
    var drawn' := drawn[draw := Value(drawn, lo)];
    assert forall i :: lo < i < hi ==> Value(drawn', i) == Value(drawn, if i == draw then lo else i);
    forall x ensures Left(drawn', lo + 1, hi, x) <==> Left(drawn, lo, hi, x) && x != Value(drawn, draw) {
      if Left(drawn, lo, hi, x) && x != Value(drawn, draw) {
        var i :| lo <= i < hi && Value(drawn, i) == x;
        assert Value(drawn', if i == lo then draw else i) == x;
      }
      if Left(drawn', lo + 1, hi, x) {
        var i :| lo + 1 <= i < hi && Value(drawn', i) == x;
        assert Value(drawn, if i == draw then lo else i) == x;
      }
    }
  }
}
