/**
 The exporter's puts and the importer's removes may run in any order against each other: every
 interleaving succeeds and ends in the same store, exactly if no key is put twice and none is removed
 twice.
 */
module Confluence {
  import opened Results
  import opened Bytes
  import opened SharedState

  datatype Op = DoPut(e: Element) | DoRemove(k: bytes)

  function Step(s: Store, op: Op): Result<Store, Error> {
    match op
    case DoPut(e) => Put(s, e)
    case DoRemove(k) => Remove(s, k)
  }

  /** Runs the operations one after the other until one is refused. */
  function Run(s: Store, ops: seq<Op>): Result<Store, Error> {
    if ops == [] then Ok(s) else
      var before :- Run(s, ops[..|ops| - 1]);
      Step(before, ops[|ops| - 1])
  }

  function PutOf(op: Op): seq<Element> {
    match op case DoPut(e) => [e] case DoRemove(_) => []
  }

  function RemoveOf(op: Op): seq<bytes> {
    match op case DoPut(_) => [] case DoRemove(k) => [k]
  }

  /** The puts among the operations, in order; with `Removes` this says what `ops` interleaves. */
  function Puts(ops: seq<Op>): seq<Element> {
    if ops == [] then [] else
      Puts(ops[..|ops| - 1]) + PutOf(ops[|ops| - 1])
  }

  function Removes(ops: seq<Op>): seq<bytes> {
    if ops == [] then [] else
      Removes(ops[..|ops| - 1]) + RemoveOf(ops[|ops| - 1])
  }

  /** `ops` runs through exactly the puts `ps` and the removes `rs`, each in their own order. */
  ghost predicate Interleaves(ops: seq<Op>, ps: seq<Element>, rs: seq<bytes>) {
    Puts(ops) == ps && Removes(ops) == rs
  }

  function Keys(ps: seq<Element>): (r: seq<bytes>)
    ensures |r| == |ps|
    ensures forall i :: 0 <= i < |ps| ==> r[i] == ps[i].key
  {
    seq(|ps|, i requires 0 <= i < |ps| => ps[i].key)
  }

  // ---------- the common final store ----------

  /** What was put under a key. */
  function Lookup(ps: seq<Element>, k: bytes): Option<Element> {
    if ps == [] then None
    else if ps[|ps| - 1].key == k then Some(ps[|ps| - 1])
    else Lookup(ps[..|ps| - 1], k)
  }

  /** The keys put with trait `t` and not removed, newest first. */
  function Remaining(ps: seq<Element>, rs: seq<bytes>, t: bytes): seq<bytes> {
    if ps == [] then [] else
      var e := ps[|ps| - 1];
      (if e.key !in rs && t in e.traits then [e.key] else []) + Remaining(ps[..|ps| - 1], rs, t)
  }

  /**
   The store after the puts `ps` and the removes `rs`, described without any order between them: a key
   is visible iff put and not removed, a tombstone iff removed and not put, absent otherwise, and each
   trait lists the visible keys that have it.
   */
  ghost predicate IsFinal(s: Store, ps: seq<Element>, rs: seq<bytes>) {
    && (forall k :: FinalValue(s, ps, rs, k))
    && Compact(s.index)
    && (forall t :: Listed(s.index, t) == Remaining(ps, rs, t))
  }

  ghost predicate FinalValue(s: Store, ps: seq<Element>, rs: seq<bytes>, k: bytes) {
    match Lookup(ps, k)
    case None => if k in rs then k in s.values && s.values[k] == TOMBSTONE else k !in s.values
    case Some(e) =>
      if k in rs then k !in s.values
      else k in s.values && s.values[k] == DbElement(true, e.value, e.traits)
  }

  /** There is only one such store. */
  lemma FinalUnique(s: Store, r: Store, ps: seq<Element>, rs: seq<bytes>)
    requires IsFinal(s, ps, rs) && IsFinal(r, ps, rs)
    ensures s == r
  {
    forall k ensures (k in s.values <==> k in r.values) && (k in s.values ==> s.values[k] == r.values[k]) {
      assert FinalValue(s, ps, rs, k) && FinalValue(r, ps, rs, k);
    }
    assert s.values == r.values;
    forall t ensures (t in s.index <==> t in r.index) && (t in s.index ==> s.index[t] == r.index[t]) {
      assert Listed(s.index, t) == Listed(r.index, t);
    }
    assert s.index == r.index;
  }

  // ---------- helpers about lookups and lists ----------

  lemma {:induction false} LookupNone(ps: seq<Element>, k: bytes)
    ensures Lookup(ps, k).None? <==> k !in Keys(ps)
    ensures Lookup(ps, k).Some? ==> Lookup(ps, k).value.key == k
  {
    if ps != [] {
      var n := |ps| - 1;
      LookupNone(ps[..n], k);
      assert Keys(ps) == Keys(ps[..n]) + [ps[n].key];
    }
  }

  lemma {:induction false} RemainingMember(ps: seq<Element>, rs: seq<bytes>, t: bytes)
    requires NoRepeat(Keys(ps))
    ensures forall x :: x in Remaining(ps, rs, t) ==> x in Keys(ps) && x !in rs
    ensures NoRepeat(Remaining(ps, rs, t))
  {
    if ps != [] {
      var n := |ps| - 1;
      assert Keys(ps) == Keys(ps[..n]) + [ps[n].key];
      assert Keys(ps)[..n] == Keys(ps[..n]);
      RemainingMember(ps[..n], rs, t);
      assert ps[n].key !in Keys(ps[..n]);
    }
  }

  /** Removing `k` takes it out of every list. */
  lemma {:induction false} RemainingRemove(ps: seq<Element>, rs: seq<bytes>, t: bytes, k: bytes)
    requires NoRepeat(Keys(ps))
    ensures Remaining(ps, rs + [k], t) == ListDelete(Remaining(ps, rs, t), k)
  {
    if ps != [] {
      var n := |ps| - 1;
      var e := ps[n];
      assert Keys(ps)[..n] == Keys(ps[..n]);
      RemainingRemove(ps[..n], rs, t, k);
      RemainingMember(ps[..n], rs, t);
      var tail := Remaining(ps[..n], rs, t);
      assert e.key in rs + [k] <==> e.key in rs || e.key == k;
      assert [] + tail == tail && [] + ListDelete(tail, k) == ListDelete(tail, k);
      if e.key !in rs && t in e.traits {
        assert ([e.key] + tail)[1..] == tail;
        if e.key == k {
          assert k !in tail by { assert Keys(ps)[n] == k; }
          DeleteAbsent(tail, k);
        }
      }
    }
  }

  /** Removing a key that is not among those put changes no list. */
  lemma {:induction false} RemainingOther(ps: seq<Element>, rs: seq<bytes>, t: bytes, k: bytes)
    requires k !in Keys(ps)
    ensures Remaining(ps, rs + [k], t) == Remaining(ps, rs, t)
  {
    if ps != [] {
      var n := |ps| - 1;
      assert Keys(ps) == Keys(ps[..n]) + [ps[n].key];
      RemainingOther(ps[..n], rs, t, k);
      assert ps[n].key != k;
    }
  }

  // ---------- one step ----------

  lemma PutFinal(s: Store, ps: seq<Element>, rs: seq<bytes>, e: Element)
    requires IsFinal(s, ps, rs) && NoRepeat(Keys(ps)) && e.key !in Keys(ps)
    ensures Put(s, e).Ok? && IsFinal(Put(s, e).value, ps + [e], rs)
  {
    hide AddKey, Remaining, Lookup, NoRepeat;
    LookupNone(ps, e.key);
    assert FinalValue(s, ps, rs, e.key);
    var r := Put(s, e).value;
    forall k ensures FinalValue(r, ps + [e], rs, k) {
      assert FinalValue(s, ps, rs, k);
      LookupAppend(ps, e, k);
    }
    AddKeyLists(s.index, e.traits, e.key, []);
    forall t ensures Listed(r.index, t) == Remaining(ps + [e], rs, t) {
      AddKeyLists(s.index, e.traits, e.key, t);
      RemainingAppend(ps, rs, t, e);
      RemainingMember(ps, rs, t);
      assert Listed(s.index, t) == Remaining(ps, rs, t);
    }
  }

  lemma LookupAppend(ps: seq<Element>, e: Element, k: bytes)
    ensures Lookup(ps + [e], k) == if k == e.key then Some(e) else Lookup(ps, k)
  {
    assert (ps + [e])[..|ps|] == ps;
  }

  lemma RemainingAppend(ps: seq<Element>, rs: seq<bytes>, t: bytes, e: Element)
    ensures Remaining(ps + [e], rs, t) == (if e.key !in rs && t in e.traits then [e.key] else []) + Remaining(ps, rs, t)
  {
    assert (ps + [e])[..|ps|] == ps;
  }

  lemma RemoveFinal(s: Store, ps: seq<Element>, rs: seq<bytes>, k: bytes)
    requires IsFinal(s, ps, rs) && NoRepeat(Keys(ps)) && k !in rs
    ensures Remove(s, k).Ok? && IsFinal(Remove(s, k).value, ps, rs + [k])
  {
    hide DropKey, Remaining, Lookup, NoRepeat, ListDelete;
    assert FinalValue(s, ps, rs, k);
    LookupNone(ps, k);
    var r := Remove(s, k).value;
    forall x ensures FinalValue(r, ps, rs + [k], x) {
      assert FinalValue(s, ps, rs, x);
      assert x in rs + [k] <==> x in rs || x == k;
    }
    if k in Keys(ps) {
      var traits := s.values[k].traits;
      RemainingMember(ps, rs, []);
      assert Listed(s.index, []) == Remaining(ps, rs, []);
      DropKeyLists(s.index, traits, k, []);
    }
    forall t ensures Listed(r.index, t) == Remaining(ps, rs + [k], t) {
      assert Listed(s.index, t) == Remaining(ps, rs, t);
      RemainingMember(ps, rs, t);
      if k in Keys(ps) {
        DropKeyLists(s.index, s.values[k].traits, k, t);
        RemainingRemove(ps, rs, t, k);
        if t !in s.values[k].traits {
          RemainingTrait(ps, rs, t, k);
          DeleteAbsent(Remaining(ps, rs, t), k);
        }
      } else {
        RemainingOther(ps, rs, t, k);
      }
    }
  }

  /** A key is listed only under traits it was put with. */
  lemma {:induction false} RemainingTrait(ps: seq<Element>, rs: seq<bytes>, t: bytes, k: bytes)
    requires NoRepeat(Keys(ps)) && Lookup(ps, k).Some? && t !in Lookup(ps, k).value.traits
    ensures k !in Remaining(ps, rs, t)
  {
    var n := |ps| - 1;
    assert Keys(ps)[..n] == Keys(ps[..n]);
    RemainingMember(ps[..n], rs, t);
    if ps[n].key == k {
      assert Keys(ps)[n] == k;
    } else {
      RemainingTrait(ps[..n], rs, t, k);
    }
  }

  // ---------- confluence ----------

  lemma {:induction false} PutsPrefix(ops: seq<Op>)
    requires ops != [] && NoRepeat(Keys(Puts(ops))) && NoRepeat(Removes(ops))
    ensures var init := ops[..|ops| - 1];
            NoRepeat(Keys(Puts(init))) && NoRepeat(Removes(init))
    ensures match ops[|ops| - 1]
            case DoPut(e) => e.key !in Keys(Puts(ops[..|ops| - 1]))
            case DoRemove(k) => k !in Removes(ops[..|ops| - 1])
  {
    var init := ops[..|ops| - 1];
    var ks, ls := Keys(Puts(ops)), Keys(Puts(init));
    assert ks[..|ls|] == ls;
    assert Removes(ops)[..|Removes(init)|] == Removes(init);
    match ops[|ops| - 1]
    case DoPut(e) =>
      assert ks[|ls|] == e.key;
    case DoRemove(k) =>
      assert Removes(ops)[|Removes(init)|] == k;
  }

  /** Any interleaving without a repeated put or remove succeeds and reaches the common final store. */
  lemma {:induction false} RunFinal(ops: seq<Op>)
    requires NoRepeat(Keys(Puts(ops))) && NoRepeat(Removes(ops))
    ensures Run(EMPTY, ops).Ok? && IsFinal(Run(EMPTY, ops).value, Puts(ops), Removes(ops))
  {
    if ops == [] {
    } else {
      var init := ops[..|ops| - 1];
      PutsPrefix(ops);
      RunFinal(init);
      var s := Run(EMPTY, init).value;
      match ops[|ops| - 1]
      case DoPut(e) =>
        PutFinal(s, Puts(init), Removes(init), e);
        assert Removes(init) + [] == Removes(init);
      case DoRemove(k) =>
        RemoveFinal(s, Puts(init), Removes(init), k);
        assert Puts(init) + [] == Puts(init);
    }
  }

  /** Two interleavings of the same puts and removes end in the same store. */
  lemma Confluent(ops: seq<Op>, ops': seq<Op>)
    requires Puts(ops) == Puts(ops') && Removes(ops) == Removes(ops')
    requires NoRepeat(Keys(Puts(ops))) && NoRepeat(Removes(ops))
    ensures Run(EMPTY, ops).Ok? && Run(EMPTY, ops) == Run(EMPTY, ops')
  {
    RunFinal(ops);
    RunFinal(ops');
    FinalUnique(Run(EMPTY, ops).value, Run(EMPTY, ops').value, Puts(ops), Removes(ops));
  }

  // ---------- repeated keys ----------

  function AllPuts(ps: seq<Element>): (ops: seq<Op>)
    ensures |ops| == |ps|
  {
    seq(|ps|, i requires 0 <= i < |ps| => DoPut(ps[i]))
  }

  function AllRemoves(rs: seq<bytes>): (ops: seq<Op>)
    ensures |ops| == |rs|
  {
    seq(|rs|, i requires 0 <= i < |rs| => DoRemove(rs[i]))
  }

  lemma {:induction false} ProjectPuts(ps: seq<Element>)
    ensures Puts(AllPuts(ps)) == ps && Removes(AllPuts(ps)) == []
  {
    if ps != [] {
      var n := |ps| - 1;
      ProjectPuts(ps[..n]);
      assert AllPuts(ps)[..n] == AllPuts(ps[..n]);
      assert ps == ps[..n] + [ps[n]];
    }
  }

  lemma {:induction false} ProjectRemoves(rs: seq<bytes>)
    ensures Puts(AllRemoves(rs)) == [] && Removes(AllRemoves(rs)) == rs
  {
    if rs != [] {
      var n := |rs| - 1;
      ProjectRemoves(rs[..n]);
      assert AllRemoves(rs)[..n] == AllRemoves(rs[..n]);
      assert rs == rs[..n] + [rs[n]];
    }
  }

  lemma Projections(ps: seq<Element>, rs: seq<bytes>)
    ensures Puts(AllPuts(ps)) == ps && Removes(AllPuts(ps)) == []
    ensures Puts(AllRemoves(rs)) == [] && Removes(AllRemoves(rs)) == rs
  {
    ProjectPuts(ps);
    ProjectRemoves(rs);
  }

  lemma {:induction false} ProjectionsAppend(a: seq<Op>, b: seq<Op>)
    ensures Puts(a + b) == Puts(a) + Puts(b) && Removes(a + b) == Removes(a) + Removes(b)
  {
    hide PutOf, RemoveOf;
    if b == [] {
      assert a + b == a;
      assert Puts(a) + [] == Puts(a) && Removes(a) + [] == Removes(a);
    } else {
      var n := |b| - 1;
      ProjectionsAppend(a, b[..n]);
      assert (a + b)[..|a + b| - 1] == a + b[..n] && (a + b)[|a + b| - 1] == b[n];
      assert Puts(a) + Puts(b[..n]) + PutOf(b[n]) == Puts(a) + (Puts(b[..n]) + PutOf(b[n]));
      assert Removes(a) + Removes(b[..n]) + RemoveOf(b[n]) == Removes(a) + (Removes(b[..n]) + RemoveOf(b[n]));
    }
  }

  lemma {:induction false} RunPrefix(s: Store, ops: seq<Op>, n: nat)
    requires n <= |ops| && Run(s, ops).Ok?
    ensures Run(s, ops[..n]).Ok?
  {
    if n < |ops| {
      RunPrefix(s, ops[..|ops| - 1], n);
      assert ops[..|ops| - 1][..n] == ops[..n];
    } else {
      assert ops[..n] == ops;
    }
  }

  /** Puts alone succeed only if no key repeats: a key once put stays visible. */
  lemma {:induction false} PutsAlone(ps: seq<Element>)
    requires Run(EMPTY, AllPuts(ps)).Ok?
    ensures NoRepeat(Keys(ps))
    ensures forall k :: k in Keys(ps) ==> Visible(Run(EMPTY, AllPuts(ps)).value, k)
    ensures forall k :: k in Run(EMPTY, AllPuts(ps)).value.values ==> k in Keys(ps)
  {
    if ps != [] {
      var n := |ps| - 1;
      assert AllPuts(ps)[..n] == AllPuts(ps[..n]);
      PutsAlone(ps[..n]);
      assert Keys(ps) == Keys(ps[..n]) + [ps[n].key];
      assert ps[n].key !in Keys(ps[..n]);
    }
  }

  lemma {:induction false} RemovesAlone(rs: seq<bytes>)
    requires Run(EMPTY, AllRemoves(rs)).Ok?
    ensures NoRepeat(rs)
    ensures forall k :: k in rs <==> k in Run(EMPTY, AllRemoves(rs)).value.values
    ensures forall k :: k in rs ==> !Run(EMPTY, AllRemoves(rs)).value.values[k].present
  {
    if rs != [] {
      var n := |rs| - 1;
      assert AllRemoves(rs)[..n] == AllRemoves(rs[..n]);
      RemovesAlone(rs[..n]);
      assert rs == rs[..n] + [rs[n]];
    }
  }

  /** Every interleaving of `ps` and `rs` is accepted exactly if neither repeats a key. */
  lemma AllInterleavingsSucceed(ps: seq<Element>, rs: seq<bytes>)
    ensures (forall ops :: Interleaves(ops, ps, rs) ==> Run(EMPTY, ops).Ok?) <==> NoRepeat(Keys(ps)) && NoRepeat(rs)
  {
    hide Run, NoRepeat, Puts, Removes;
    if forall ops :: Interleaves(ops, ps, rs) ==> Run(EMPTY, ops).Ok? {
      Extremes(ps, rs);
      RunPrefix(EMPTY, AllPuts(ps) + AllRemoves(rs), |ps|);
      RunPrefix(EMPTY, AllRemoves(rs) + AllPuts(ps), |rs|);
      assert (AllPuts(ps) + AllRemoves(rs))[..|ps|] == AllPuts(ps);
      assert (AllRemoves(rs) + AllPuts(ps))[..|rs|] == AllRemoves(rs);
      PutsAlone(ps);
      RemovesAlone(rs);
    }
    if NoRepeat(Keys(ps)) && NoRepeat(rs) {
      forall ops | Interleaves(ops, ps, rs) ensures Run(EMPTY, ops).Ok? {
        RunFinal(ops);
      }
    }
  }

  /** One chain running wholly before the other is an interleaving. */
  lemma Extremes(ps: seq<Element>, rs: seq<bytes>)
    ensures Interleaves(AllPuts(ps) + AllRemoves(rs), ps, rs)
    ensures Interleaves(AllRemoves(rs) + AllPuts(ps), ps, rs)
  {
    hide Puts, Removes;
    Projections(ps, rs);
    ProjectionsAppend(AllPuts(ps), AllRemoves(rs));
    ProjectionsAppend(AllRemoves(rs), AllPuts(ps));
    assert ps + [] == ps && [] + ps == ps && rs + [] == rs && [] + rs == rs;
  }
}
