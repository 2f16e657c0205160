/** The Bloom filter: bits set by a chain of hashes, and no false negatives. */
module Bloom {
  function Turn(hash: bv64, seed: bv64): bv64 {
    hash.RotateLeft(17) ^ seed
  }

  function Spot(hash: bv64, numBits: nat): (i: nat)
    requires 0 < numBits
    ensures i < numBits
  {
    var h := hash as int;
    h % numBits
  }

  /** The bits a hash stands for: each seed turns the hash into the next one. */
  ghost function Probes(hash: bv64, seeds: seq<bv64>, numBits: nat): (r: set<nat>)
    requires 0 < numBits
    ensures forall i :: i in r ==> i < numBits
    decreases |seeds|
  {
    if seeds == [] then {} else
      {Spot(Turn(hash, seeds[0]), numBits)} + Probes(Turn(hash, seeds[0]), seeds[1..], numBits)
  }

  ghost predicate IsTurn(hash: bv64, seed: bv64, next: bv64) {
    next == hash.RotateLeft(17) ^ seed
  }

  /** The hashes the seeds turn a hash into, one after the other. */
  ghost predicate Chain(hash: bv64, seeds: seq<bv64>, hashes: seq<bv64>) {
    && |hashes| == |seeds| + 1 && hashes[0] == hash
    && forall k :: 0 <= k < |seeds| ==> IsTurn(hashes[k], seeds[k], hashes[k + 1])
  }

  lemma TurnIs(hash: bv64, seed: bv64)
    ensures IsTurn(hash, seed, Turn(hash, seed))
  {
  }

  /** Bit `i` is what one of the turned hashes leaves when divided by the number of bits. */
  ghost predicate Hits(hashes: seq<bv64>, numBits: nat, i: nat)
    requires 0 < numBits
  {
    exists k :: 0 < k < |hashes| && i == (hashes[k] as int) % numBits
  }

  lemma ChainStep(hash: bv64, seeds: seq<bv64>, rest: seq<bv64>)
    requires seeds != [] && Chain(Turn(hash, seeds[0]), seeds[1..], rest)
    ensures Chain(hash, seeds, [hash] + rest)
  {
    hide IsTurn, Turn;
    TurnIs(hash, seeds[0]);
    var hashes := [hash] + rest;
    forall k | 0 <= k < |seeds| ensures IsTurn(hashes[k], seeds[k], hashes[k + 1]) {
      if k > 0 { assert IsTurn(rest[k - 1], seeds[1..][k - 1], rest[k]); }
    }
  }

  lemma HitsStep(hash: bv64, rest: seq<bv64>, numBits: nat, i: nat)
    requires 0 < numBits && rest != []
    ensures Hits([hash] + rest, numBits, i) <==> i == Spot(rest[0], numBits) || Hits(rest, numBits, i)
  {
    var hashes := [hash] + rest;
    if Hits(hashes, numBits, i) {
      var k :| 0 < k < |hashes| && i == (hashes[k] as int) % numBits;
      assert hashes[k] == rest[k - 1];
    }
    if i == Spot(rest[0], numBits) { assert hashes[1] == rest[0]; }
    if Hits(rest, numBits, i) {
      var k :| 0 < k < |rest| && i == (rest[k] as int) % numBits;
      assert hashes[k + 1] == rest[k];
    }
  }

  /** The bits a hash stands for, one for each seed and no other. */
  lemma {:induction false} ProbesAre(hash: bv64, seeds: seq<bv64>, numBits: nat) returns (hashes: seq<bv64>)
    requires 0 < numBits
    ensures Chain(hash, seeds, hashes)
    ensures forall i: nat :: i in Probes(hash, seeds, numBits) <==> Hits(hashes, numBits, i)
    decreases |seeds|
  {
    if seeds == [] {
      hashes := [hash];
    } else {
      hide Turn, Chain, Hits, Spot;
      var rest := ProbesAre(Turn(hash, seeds[0]), seeds[1..], numBits);
      ChainStarts(Turn(hash, seeds[0]), seeds[1..], rest);
      ChainStep(hash, seeds, rest);
      hashes := [hash] + rest;
      forall i: nat ensures i in Probes(hash, seeds, numBits) <==> Hits(hashes, numBits, i) {
        HitsStep(hash, rest, numBits, i);
      }
    }
  }

  lemma ChainStarts(hash: bv64, seeds: seq<bv64>, hashes: seq<bv64>)
    requires Chain(hash, seeds, hashes)
    ensures hashes != [] && hashes[0] == hash
  {
  }

  /** The bytes of the source's filter are kept as their bits. */
  class Filter {
    const seeds: seq<bv64>
    const bits: array<bool>
    var count: nat

    ghost function Set(): set<nat>
      reads bits
    {
      set i | 0 <= i < bits.Length && bits[i]
    }

    ghost predicate Has(hash: bv64)
      requires 0 < bits.Length
      reads bits
    {
      Probes(hash, seeds, bits.Length) <= Set()
    }

    constructor (seeds: seq<bv64>, numBits: nat)
      requires 0 < numBits
      ensures fresh(bits) && bits.Length == numBits && this.seeds == seeds && count == 0 && Set() == {}
    {
      this.seeds := seeds;
      bits := new bool[numBits](_ => false);
      count := 0;
    }

    /** Afterwards the filter has the hash and everything it had before: exactly the bits of both. */
    method Add(hash: bv64)
      requires 0 < bits.Length
      modifies this, bits
      ensures Set() == old(Set()) + Probes(hash, seeds, bits.Length) && count == old(count) + 1
      ensures Has(hash) && forall other :: old(Has(other)) ==> Has(other)
    {
      hide Turn, Spot;
      ghost var probes := Probes(hash, seeds, bits.Length);
      var h := hash;
      for k := 0 to |seeds|
        invariant Set() + Probes(h, seeds[k..], bits.Length) == old(Set()) + probes
        invariant count == old(count)
      {
        assert seeds[k..][0] == seeds[k] && seeds[k..][1..] == seeds[k + 1..];
        ghost var before := Set();
        h := Turn(h, seeds[k]);
        bits[Spot(h, bits.Length)] := true;
        assert Set() == before + {Spot(h, bits.Length)};
      }
      count := count + 1;
    }

    /** The test stops at the first bit that is not set. */
    method Contains(hash: bv64) returns (r: bool)
      requires 0 < bits.Length
      ensures r <==> Has(hash)
    {
      hide Turn, Spot;
      ghost var probes := Probes(hash, seeds, bits.Length);
      var h, k := hash, 0;
      r := true;
      while k < |seeds| && r
        invariant 0 <= k <= |seeds|
        invariant Has(hash) <==> r && Probes(h, seeds[k..], bits.Length) <= Set()
      {
        assert seeds[k..][0] == seeds[k] && seeds[k..][1..] == seeds[k + 1..];
        h := Turn(h, seeds[k]);
        r := bits[Spot(h, bits.Length)];
        assert r <==> Spot(h, bits.Length) in Set();
        k := k + 1;
      }
    }
  }
}
