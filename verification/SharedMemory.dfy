/**
 The memory shared by pairs of chains: one store per pair and direction, requests against several
 peers applied all or not at all, and what a history of such calls by all chains leaves behind.
 */
module SharedMemory {
  import opened Results
  import opened Bytes
  import opened KeyOrder
  import opened SharedState
  import opened Confluence

  /** Chain IDs, by their place in the byte order. */
  type ChainID = nat

  /** One store: the shared ID of a pair of chains, which stands for the ordered pair, and a prefix. */
  datatype Slot = Slot(low: ChainID, high: ChainID, prefix: nat)

  const SMALLER_PREFIX: nat := 0
  const LARGER_PREFIX: nat := 2

  function SharedID(a: ChainID, b: ChainID, prefix: nat): Slot {
    if a > b then Slot(b, a, prefix) else Slot(a, b, prefix)
  }

  /** Where `me` reads and removes what `peer` sent. */
  function Inbound(me: ChainID, peer: ChainID): Slot {
    SharedID(me, peer, if me < peer then SMALLER_PREFIX else LARGER_PREFIX)
  }

  /** Where `me` writes what it sends to `peer`. */
  function Outbound(me: ChainID, peer: ChainID): Slot {
    SharedID(me, peer, if me < peer then LARGER_PREFIX else SMALLER_PREFIX)
  }

  /**
   One chain's outbound store is the other's inbound store, for any two different chains; a chain that
   names itself as the peer writes where it does not read. Different directions never share a store.
   */
  lemma Directions(a: ChainID, b: ChainID, c: ChainID, d: ChainID)
    ensures Outbound(a, b) == Inbound(b, a) <==> a != b
    ensures Inbound(a, b) == Inbound(c, d) <==> a == c && b == d
    ensures Outbound(a, b) == Outbound(c, d) <==> a == c && b == d
    ensures Outbound(a, b) == Inbound(c, d) <==> a == d && b == c && a != b
  {
  }

  /** The chain with the smaller ID reads from the first store of the pair and writes to the second. */
  lemma Layout(a: ChainID, b: ChainID)
    requires a < b
    ensures Inbound(a, b) == Outbound(b, a) == Slot(a, b, SMALLER_PREFIX)
    ensures Inbound(b, a) == Outbound(a, b) == Slot(a, b, LARGER_PREFIX)
    ensures Inbound(a, a) == Slot(a, a, LARGER_PREFIX) && Outbound(a, a) == Slot(a, a, SMALLER_PREFIX)
  {
  }

  datatype Request = Request(removes: seq<bytes>, puts: seq<Element>)

  /** One call of `Apply` by chain `me`. */
  datatype Call = Call(me: ChainID, requests: map<ChainID, Request>)

  type DB = map<Slot, Store>

  function At(db: DB, slot: Slot): Store {
    if slot in db then db[slot] else EMPTY
  }

  /** The other chain of a slot. */
  function Peer(slot: Slot, me: ChainID): ChainID {
    if slot.low == me then slot.high else slot.low
  }

  /** What a call does to one store: its removes if the store is inbound, its puts if it is outbound. */
  function SlotOps(slot: Slot, c: Call): seq<Op> {
    var peer := Peer(slot, c.me);
    if peer !in c.requests then []
    else if slot == Inbound(c.me, peer) then AllRemoves(c.requests[peer].removes)
    else if slot == Outbound(c.me, peer) then AllPuts(c.requests[peer].puts)
    else []
  }

  /** The call went through: every store it touches took its operations. */
  ghost predicate Applied(db: DB, c: Call, db': DB) {
    forall slot :: Run(At(db, slot), SlotOps(slot, c)) == Ok(At(db', slot))
  }

  ghost predicate Refused(db: DB, c: Call) {
    exists slot :: Run(At(db, slot), SlotOps(slot, c)).Err?
  }

  // ---------- the calls as programmed ----------

  class Memory {
    var db: DB
    var other: map<bytes, bytes>  // the rest of the database, written by the batches

    ghost predicate Valid()
      reads this
    {
      AllIndexed(db)
    }

    constructor ()
      ensures db == map[] && other == map[] && Valid()
    {
      db := map[];
      other := map[];
    }

    /** The values sent by `peer` under `keys`, if all of them are there. */
    method Get(me: ChainID, peer: ChainID, keys: seq<bytes>) returns (r: Result<seq<bytes>, Error>)
      ensures var s := At(db, Inbound(me, peer));
              if forall i :: 0 <= i < |keys| ==> Visible(s, keys[i])
              then r.Ok? && |r.value| == |keys| && forall i :: 0 <= i < |keys| ==> r.value[i] == s.values[keys[i]].value
              else r == Err(NotFound)
    {
      ghost var s := At(db, Inbound(me, peer));
      var state := new State(At(db, Inbound(me, peer)));
      var values: seq<bytes> := [];
      for i := 0 to |keys|
        invariant |values| == i && state.Contents() == s
        invariant forall j :: 0 <= j < i ==> Visible(s, keys[j]) && values[j] == s.values[keys[j]].value
      {
        var e := state.Value(keys[i]);
        if e.Err? { return Err(e.error); }
        values := values + [e.value.value];
      }
      return Ok(values);
    }

    /** A page of the values `peer` sent with one of the traits. Every listed key has its value. */
    method Indexed(me: ChainID, peer: ChainID, traits: seq<bytes>, startTrait: bytes, startKey: Option<bytes>,
                   limit: int)
      returns (r: Result<seq<bytes>, Error>, page: Page)
      requires Valid()
      ensures var s := At(db, Inbound(me, peer));
              && page == Pages(s.index, Permute(traits, Order(traits)), startTrait, startKey,
                               Page([], limit, startTrait, startKey))
              && r.Ok? && |r.value| == |page.keys|
              && forall i :: 0 <= i < |page.keys| ==>
                 Visible(s, page.keys[i]) && r.value[i] == s.values[page.keys[i]].value
    {
      hide EndsAt, NoneLooked, Pages, Order;
      ghost var s := At(db, Inbound(me, peer));
      var state := new State(At(db, Inbound(me, peer)));
      page := state.GetKeys(traits, startTrait, startKey, limit);
      var values: seq<bytes> := [];
      for i := 0 to |page.keys|
        invariant |values| == i && state.Contents() == s
        invariant forall j :: 0 <= j < i ==> Visible(s, page.keys[j]) && values[j] == s.values[page.keys[j]].value
      {
        ListedVisible(s, Permute(traits, Order(traits)), startTrait, startKey, limit, page.keys[i]);
        var e := state.Value(page.keys[i]);
        if e.Err? { return Err(NotFound), page; }
        values := values + [e.value.value];
      }
      return Ok(values), page;
    }

    /**
     Applies a call and the batches together. `peers` lists the chains of the call in the order of
     their shared IDs.
     */
    method Apply(c: Call, peers: seq<ChainID>, batches: map<bytes, bytes>) returns (err: Option<Error>)
      requires Valid() && NoRepeat(peers) && forall p :: p in peers <==> p in c.requests
      modifies this
      ensures Valid()
      ensures err.None? ==> Applied(old(db), c, db) && other == old(other) + batches
      ensures err.Some? ==> Refused(old(db), c) && db == old(db) && other == old(other)
    {
      hide Run, SharedState.Indexed, SlotOps;
      var vdb := db;
      SofarNone(db, c);
      for i := 0 to |peers|
        invariant db == old(db) && other == old(other)
        invariant AllIndexed(vdb) && Sofar(db, vdb, c, peers[..i])
      {
        ghost var before := vdb;
        err, vdb := ApplyPeer(c, peers[i], vdb);
        if err.Some? {
          SofarRefused(db, before, c, peers[..i], peers[i]);
          return;
        }
        assert peers[..i + 1] == peers[..i] + [peers[i]];
        SofarStep(db, before, vdb, c, peers[..i], peers[i]);
      }
      assert peers[..|peers|] == peers;
      SofarAll(db, vdb, c, peers);
      db := vdb;
      other := other + batches;
      return None;
    }
  }

  ghost predicate AllIndexed(db: DB) {
    forall slot :: SharedState.Indexed(At(db, slot))
  }

  /** The stores of the peers done are updated, and the others are as they were. */
  ghost predicate Sofar(db: DB, vdb: DB, c: Call, done: seq<ChainID>) {
    forall slot :: Run(At(db, slot), if Peer(slot, c.me) in done then SlotOps(slot, c) else []) == Ok(At(vdb, slot))
  }

  lemma SofarNone(db: DB, c: Call)
    ensures Sofar(db, db, c, [])
  {
  }

  lemma SofarAll(db: DB, vdb: DB, c: Call, done: seq<ChainID>)
    requires Sofar(db, vdb, c, done) && forall p :: p in done <==> p in c.requests
    ensures Applied(db, c, vdb)
  {
    forall slot ensures Run(At(db, slot), SlotOps(slot, c)) == Ok(At(vdb, slot)) {
      if Peer(slot, c.me) !in done {
        assert SlotOps(slot, c) == [];
      }
    }
  }

  /** What one request did to the two stores of its peer. */
  ghost predicate PeerApplied(vdb: DB, c: Call, peer: ChainID, vdb': DB)
    requires peer in c.requests
  {
    && Run(At(vdb, Inbound(c.me, peer)), AllRemoves(c.requests[peer].removes)) == Ok(At(vdb', Inbound(c.me, peer)))
    && Run(At(vdb, Outbound(c.me, peer)), AllPuts(c.requests[peer].puts)) == Ok(At(vdb', Outbound(c.me, peer)))
    && forall slot :: slot != Inbound(c.me, peer) && slot != Outbound(c.me, peer) ==> At(vdb', slot) == At(vdb, slot)
  }

  ghost predicate PeerRefused(vdb: DB, c: Call, peer: ChainID)
    requires peer in c.requests
  {
    || Run(At(vdb, Inbound(c.me, peer)), AllRemoves(c.requests[peer].removes)).Err?
    || Run(At(vdb, Outbound(c.me, peer)), AllPuts(c.requests[peer].puts)).Err?
  }

  /** The two stores of a peer hold exactly that peer's operations. */
  lemma PeerSlots(c: Call, peer: ChainID, slot: Slot)
    requires peer in c.requests
    ensures SlotOps(Inbound(c.me, peer), c) == AllRemoves(c.requests[peer].removes)
    ensures SlotOps(Outbound(c.me, peer), c) == AllPuts(c.requests[peer].puts)
    ensures Inbound(c.me, peer) != Outbound(c.me, peer)
    ensures Peer(Inbound(c.me, peer), c.me) == Peer(Outbound(c.me, peer), c.me) == peer
    ensures Peer(slot, c.me) == peer && slot != Inbound(c.me, peer) && slot != Outbound(c.me, peer) ==>
            SlotOps(slot, c) == []
  {
    Directions(c.me, peer, c.me, peer);
  }

  lemma SofarStep(db: DB, before: DB, vdb: DB, c: Call, done: seq<ChainID>, peer: ChainID)
    requires Sofar(db, before, c, done) && peer !in done && peer in c.requests
    requires PeerApplied(before, c, peer, vdb)
    ensures Sofar(db, vdb, c, done + [peer])
  {
    hide SlotOps, Inbound, Outbound, AllPuts, AllRemoves;
    forall slot
      ensures Run(At(db, slot), if Peer(slot, c.me) in done + [peer] then SlotOps(slot, c) else []) == Ok(At(vdb, slot))
    {
      PeerSlots(c, peer, slot);
      assert Peer(slot, c.me) in done + [peer] <==> Peer(slot, c.me) in done || Peer(slot, c.me) == peer;
      assert Run(At(db, slot), if Peer(slot, c.me) in done then SlotOps(slot, c) else []) == Ok(At(before, slot));
    }
  }

  lemma SofarRefused(db: DB, before: DB, c: Call, done: seq<ChainID>, peer: ChainID)
    requires Sofar(db, before, c, done) && peer !in done && peer in c.requests
    requires PeerRefused(before, c, peer)
    ensures Refused(db, c)
  {
    var inbound, outbound := Inbound(c.me, peer), Outbound(c.me, peer);
    PeerSlots(c, peer, inbound);
    assert Run(At(db, inbound), if Peer(inbound, c.me) in done then SlotOps(inbound, c) else []) ==
           Ok(At(before, inbound));
    assert Run(At(db, outbound), if Peer(outbound, c.me) in done then SlotOps(outbound, c) else []) ==
           Ok(At(before, outbound));
    assert Run(At(db, inbound), SlotOps(inbound, c)).Err? || Run(At(db, outbound), SlotOps(outbound, c)).Err?;
  }

  /** One request of a call: its removes on the inbound store, then its puts on the outbound store. */
  method ApplyPeer(c: Call, peer: ChainID, vdb: DB) returns (err: Option<Error>, vdb': DB)
    requires peer in c.requests && AllIndexed(vdb)
    ensures err.None? ==> PeerApplied(vdb, c, peer, vdb') && AllIndexed(vdb')
    ensures err.Some? ==> PeerRefused(vdb, c, peer)
  {
    var inbound, outbound := Inbound(c.me, peer), Outbound(c.me, peer);
    assert inbound != outbound by { Directions(c.me, peer, c.me, peer); }
    hide Run, SharedState.Indexed, Inbound, Outbound;
    vdb' := vdb;
    var state := new State(At(vdb, inbound));
    err := RemoveAll(state, c.requests[peer].removes);
    if err.Some? { return; }
    vdb' := vdb'[inbound := Store(state.valueDB, state.indexDB)];
    assert At(vdb', outbound) == At(vdb, outbound);
    state := new State(At(vdb', outbound));
    err := PutAll(state, c.requests[peer].puts);
    if err.Some? { return; }
    vdb' := vdb'[outbound := Store(state.valueDB, state.indexDB)];
  }

  lemma ListedVisible(s: Store, traits: seq<bytes>, startTrait: bytes, startKey: Option<bytes>, limit: int, k: bytes)
    requires SharedState.Indexed(s)
    requires k in Pages(s.index, traits, startTrait, startKey, Page([], limit, startTrait, startKey)).keys
    ensures Visible(s, k)
  {
    var t :| t in traits && k in Listed(s.index, t);
    assert ListsRightly(s, t, k);
  }

  /** Once an operation is refused, so is the whole run. */
  lemma Stuck(s: Store, ops: seq<Op>, i: nat)
    requires i <= |ops| && Run(s, ops[..i]).Err?
    ensures Run(s, ops).Err?
  {
    if Run(s, ops).Ok? {
      RunPrefix(s, ops, i);
    }
  }

  method RemoveAll(state: State, keys: seq<bytes>) returns (err: Option<Error>)
    requires SharedState.Indexed(state.Contents())
    modifies state
    ensures err.None? <==> Run(old(state.Contents()), AllRemoves(keys)).Ok?
    ensures err.None? ==>
            Run(old(state.Contents()), AllRemoves(keys)) == Ok(state.Contents()) &&
            SharedState.Indexed(state.Contents())
  {
    hide SharedState.Indexed, SharedState.Remove;
    ghost var s := state.Contents();
    for i := 0 to |keys|
      invariant Run(s, AllRemoves(keys[..i])) == Ok(state.Contents()) && SharedState.Indexed(state.Contents())
    {
      assert AllRemoves(keys[..i + 1])[..i] == AllRemoves(keys[..i]);
      ghost var before := state.Contents();
      err := state.RemoveValue(keys[i]);
      if err.Some? {
        assert AllRemoves(keys)[..i + 1] == AllRemoves(keys[..i + 1]);
        Stuck(s, AllRemoves(keys), i + 1);
        return;
      }
      RemoveIndexed(before, keys[i]);
    }
    assert keys[..|keys|] == keys;
    return None;
  }

  method PutAll(state: State, es: seq<Element>) returns (err: Option<Error>)
    requires SharedState.Indexed(state.Contents())
    modifies state
    ensures err.None? <==> Run(old(state.Contents()), AllPuts(es)).Ok?
    ensures err.None? ==>
            Run(old(state.Contents()), AllPuts(es)) == Ok(state.Contents()) && SharedState.Indexed(state.Contents())
  {
    hide SharedState.Indexed, SharedState.Put;
    ghost var s := state.Contents();
    for i := 0 to |es|
      invariant Run(s, AllPuts(es[..i])) == Ok(state.Contents()) && SharedState.Indexed(state.Contents())
    {
      assert AllPuts(es[..i + 1])[..i] == AllPuts(es[..i]);
      ghost var before := state.Contents();
      err := state.SetValue(es[i]);
      if err.Some? {
        assert AllPuts(es)[..i + 1] == AllPuts(es[..i + 1]);
        Stuck(s, AllPuts(es), i + 1);
        return;
      }
      PutIndexed(before, es[i]);
    }
    assert es[..|es|] == es;
    return None;
  }
}
