/**
 The filter of the IP tracker over whole histories: nothing is in it that was not heard, its count is that
 of its additions, and no node has more entries than it was allowed.
 */
module FilterRuns {
  import opened Results
  import opened Tracker
  import opened TrackerRuns

  // ---------- one update ----------

  /**
   Recording an IP: a node that was added twice is not added again; otherwise it is added while there is
   room, and when there is none the filter is made anew from the IPs known of the tracked nodes.
   */
  lemma FilterNext(st: State, ip: IP, reset: Reset, n: NodeID, g: GossipID)
    requires ip.node in st.tracked
    ensures var f, f' := st.filter, Update(st, ip, reset).filter;
            if Additions(f, ip.node) >= 2 || (f.count >= f.maxCount && reset.None?) then f' == f
            else if f.count < f.maxCount then
              && (g in f'.entries <==> g in f.entries || g == GossipID(ip.node, ip.timestamp))
              && Additions(f', n) == Additions(f, n) + (if n == ip.node then 1 else 0)
              && f'.count == f.count + 1 && f'.maxCount == f.maxCount
            else IsFresh(Update(st, ip, reset).tracked, f', reset.value, n, g)
  {
    if reset.Some? { FreshIs(Update(st, ip, reset).tracked, reset.value, n, g); }
  }

  /** The filter holds the IPs known of the tracked nodes, each once. */
  ghost predicate IsFresh(tracked: map<NodeID, TrackedNode>, f: Filter, maxCount: nat, n: NodeID, g: GossipID) {
    && (g in f.entries <==> exists m :: m in tracked && tracked[m].ip.Some? &&
                                        g == GossipID(tracked[m].ip.value.node, tracked[m].ip.value.timestamp))
    && Additions(f, n) == (if n in tracked && tracked[n].ip.Some? then 1 else 0)
    && f.count == |set m | m in tracked && tracked[m].ip.Some?| && f.maxCount == maxCount
  }

  lemma FreshIs(tracked: map<NodeID, TrackedNode>, maxCount: nat, n: NodeID, g: GossipID)
    ensures IsFresh(tracked, FreshFilter(tracked, maxCount), maxCount, n, g)
  {
    var known := KnownIPs(tracked);
    FreshCovers(tracked, maxCount, n);
    assert known.Keys == set m | m in tracked && tracked[m].ip.Some?;
    if g in GossipIDs(known) {
      var m :| m in known && g == Gossip(known[m]);
      assert m in tracked && tracked[m].ip.Some?;
    }
    if m :| m in tracked && tracked[m].ip.Some? &&
            g == GossipID(tracked[m].ip.value.node, tracked[m].ip.value.timestamp) {
      assert m in known && Gossip(known[m]) == g;
    }
  }

  // ---------- the ledger ----------

  ghost function EntriesOf(f: Filter, n: NodeID): set<GossipID> {
    set g | g in f.entries && g.node == n
  }

  ghost function Twice(f: Filter): set<NodeID> {
    set n | n in f.additions && f.additions[n] == 2
  }

  /** The count adds up the additions, of which each node had one or two, and no node has more entries than that. */
  ghost predicate Ledger(f: Filter) {
    && (forall n :: n in f.additions ==> 1 <= f.additions[n] <= 2)
    && f.count == |f.additions.Keys| + |Twice(f)|
    && (forall n :: |EntriesOf(f, n)| <= Additions(f, n))
  }

  /** The IPs known are filed under their own nodes, and they and the entries of the filter were heard. */
  ghost predicate Within(st: State, heard: set<GossipID>) {
    && (forall n :: n in st.tracked && st.tracked[n].ip.Some? ==>
          st.tracked[n].ip.value.node == n && Gossip(st.tracked[n].ip.value) in heard)
    && (forall n :: n in st.connected ==> Gossip(st.connected[n].ip) in heard)
    && st.filter.entries <= heard
  }

  lemma FreshLedger(tracked: map<NodeID, TrackedNode>, maxCount: nat)
    requires forall n :: n in tracked && tracked[n].ip.Some? ==> tracked[n].ip.value.node == n
    ensures Ledger(FreshFilter(tracked, maxCount))
  {
    var known := KnownIPs(tracked);
    var f := FreshFilter(tracked, maxCount);
    assert Twice(f) == {};
    assert f.additions.Keys == known.Keys;
    forall n ensures |EntriesOf(f, n)| <= Additions(f, n) {
      if n in known {
        assert EntriesOf(f, n) <= {Gossip(known[n])};
        Fewer(EntriesOf(f, n), {Gossip(known[n])});
      } else {
        assert EntriesOf(f, n) == {};
      }
    }
  }

  lemma Fewer(a: set<GossipID>, b: set<GossipID>)
    requires a <= b
    ensures |a| <= |b|
  {
    assert b == a + (b - a);
  }

  function OneMore(f: Filter, g: GossipID): Filter {
    f.(entries := f.entries + {g}, additions := f.additions[g.node := Additions(f, g.node) + 1], count := f.count + 1)
  }

  lemma OneMoreCount(f: Filter, g: GossipID)
    requires Additions(f, g.node) < 2 && (forall n :: n in f.additions ==> 1 <= f.additions[n] <= 2)
    ensures var f' := OneMore(f, g);
            |f'.additions.Keys| + |Twice(f')| == |f.additions.Keys| + |Twice(f)| + 1
  {
    var n, f' := g.node, OneMore(f, g);
    if n in f.additions {
      assert f'.additions.Keys == f.additions.Keys;
      assert n !in Twice(f) && Twice(f') == Twice(f) + {n};
    } else {
      assert f'.additions.Keys == f.additions.Keys + {n};
      assert Twice(f') == Twice(f);
    }
  }

  lemma OneMoreEntry(f: Filter, g: GossipID, n: NodeID)
    requires |EntriesOf(f, n)| <= Additions(f, n)
    ensures |EntriesOf(OneMore(f, g), n)| <= Additions(OneMore(f, g), n)
  {
    if n == g.node {
      assert EntriesOf(OneMore(f, g), n) == EntriesOf(f, n) + {g};
      assert |EntriesOf(f, n) + {g}| <= |EntriesOf(f, n)| + 1;
    } else {
      assert EntriesOf(OneMore(f, g), n) == EntriesOf(f, n);
    }
  }

  /** One more addition of a node that had fewer than two. */
  lemma OneMoreLedger(f: Filter, g: GossipID)
    requires Ledger(f) && Additions(f, g.node) < 2
    ensures Ledger(OneMore(f, g))
  {
    hide EntriesOf, Twice;
    OneMoreCount(f, g);
    forall n ensures |EntriesOf(OneMore(f, g), n)| <= Additions(OneMore(f, g), n) {
      assert |EntriesOf(f, n)| <= Additions(f, n);
      OneMoreEntry(f, g, n);
    }
  }

  // ---------- every step keeps it ----------

  lemma ResetWithin(st: State, reset: Reset, heard: set<GossipID>)
    requires Within(st, heard) && Ledger(st.filter)
    ensures Within(ResetFilter(st, reset), heard) && Ledger(ResetFilter(st, reset).filter)
  {
    if reset.Some? {
      FreshLedger(st.tracked, reset.value);
      forall g | g in FreshFilter(st.tracked, reset.value).entries ensures g in heard {
        FreshIs(st.tracked, reset.value, 0, g);
      }
    }
  }

  lemma UpdateWithin(st: State, ip: IP, reset: Reset, heard: set<GossipID>)
    requires ip.node in st.tracked && Within(st, heard) && Ledger(st.filter) && Gossip(ip) in heard
    ensures Within(Update(st, ip, reset), heard) && Ledger(Update(st, ip, reset).filter)
  {
    hide Ledger, FreshFilter;
    var st1 := st.(tracked := st.tracked[ip.node := st.tracked[ip.node].(ip := Some(ip))]);
    assert Within(st1, heard);
    ResetWithin(st1, reset, heard);
    if Additions(st.filter, ip.node) < 2 { OneMoreLedger(st.filter, Gossip(ip)); }
  }

  lemma TrackWithin(st: State, n: NodeID, s: Option<SubnetID>, reset: Reset, heard: set<GossipID>)
    requires Within(st, heard) && Ledger(st.filter)
    ensures Within(Track(st, n, s, reset), heard) && Ledger(Track(st, n, s, reset).filter)
  {
    hide Ledger, Update;
    var st1 := st.(tracked := st.tracked[n := Trackable(st, n, s)]);
    assert Within(st1, heard);
    if n !in st.tracked && n in st.connected && st.connected[n].ip.node == n {
      UpdateWithin(st1, st.connected[n].ip, reset, heard);
    }
  }

  /** What an operation lets the tracker hear. */
  function News(op: Op): set<GossipID> {
    match op
    case OpAddIP(ip, _) => {GossipID(ip.node, ip.timestamp)}
    case OpConnect(ip, _, _) => {GossipID(ip.node, ip.timestamp)}
    case _ => {}
  }

  function Heard(ops: seq<Op>): set<GossipID> {
    if ops == [] then {} else Heard(ops[..|ops| - 1]) + News(ops[|ops| - 1])
  }

  lemma MoreHeard(st: State, heard: set<GossipID>, more: set<GossipID>)
    requires Within(st, heard)
    ensures Within(st, heard + more)
  {
  }

  lemma StepWithin(st: State, op: Op, heard: set<GossipID>)
    requires Within(st, heard) && Ledger(st.filter)
    ensures Within(Step(st, op), heard + News(op)) && Ledger(Step(st, op).filter)
  {
    hide Ledger, Track, Update, FreshFilter;
    MoreHeard(st, heard, News(op));
    var h := heard + News(op);
    match op
    case OpTrack(n, r) => TrackWithin(st, n, None, r, h);
    case OpGossip(s, n, r) =>
      TrackWithin(st, n, None, r, h);
      TrackWithin(if IsLocal(st, s) then Track(st, n, None, r) else st, n, Some(s), r, h);
    case OpAddIP(ip, r) => if ip.node in st.tracked { UpdateWithin(st, ip, r, h); }
    case OpConnect(ip, among, r) =>
      var st1 := st.(connected := st.connected[ip.node := ConnectedNode(among, ip)]);
      assert Within(st1, h);
      if ip.node in st.tracked { UpdateWithin(st1, ip, r, h); }
    case OpDisconnect(n) =>
    case OpAdded(s, n, r) => TrackWithin(st, n, Some(s), r, h);
    case OpRemoved(s, n) =>
    case OpReset(r) => ResetWithin(st, r, h);
  }

  /** Nothing is in the filter, or known of a node, that was not heard, and the filter's ledger adds up. */
  lemma {:induction false} NothingUnheard(local: set<SubnetID>, maxCount: nat, ops: seq<Op>)
    ensures Within(Run(Start(local, maxCount), ops), Heard(ops))
    ensures Ledger(Run(Start(local, maxCount), ops).filter)
  {
    hide Step, Within, Ledger;
    if ops == [] {
      StartWithin(local, maxCount);
    } else {
      var n := |ops| - 1;
      NothingUnheard(local, maxCount, ops[..n]);
      StepWithin(Run(Start(local, maxCount), ops[..n]), ops[n], Heard(ops[..n]));
    }
  }

  lemma StartWithin(local: set<SubnetID>, maxCount: nat)
    ensures Within(Start(local, maxCount), {}) && Ledger(Start(local, maxCount).filter)
  {
    var f := Start(local, maxCount).filter;
    assert Twice(f) == {} && f.additions.Keys == {};
    assert forall n :: EntriesOf(f, n) == {};
  }
}
