/** The IP tracker as programmed: maps of nodes and of subnet objects, changed in place. */
module IPTracking {
  import opened Results
  import opened Tracker
  import opened GossipList
  import opened Gossiping

  class IPTracker {
    const local: set<SubnetID>
    var tracked: map<NodeID, TrackedNode>
    var connected: map<NodeID, ConnectedNode>
    var subnet: map<SubnetID, GossipableSubnet>
    var filter: Filter

    /** Every subnet has its own object, with its list in order. */
    ghost predicate Valid()
      reads this`subnet, subnet.Values
    {
      && (forall s :: s in subnet ==> subnet[s].Valid())
      && (forall s, t :: s in subnet && t in subnet && subnet[s] == subnet[t] ==> s == t)
    }

    ghost function Subnets(): map<SubnetID, Subnet>
      requires Valid()
      reads this`subnet, subnet.Values
    {
      map s | s in subnet :: subnet[s].View()
    }

    ghost function Now(): State
      requires Valid()
      reads this, subnet.Values
    {
      State(local, tracked, connected, Subnets(), filter)
    }

    constructor (local: set<SubnetID>, maxCount: nat)
      ensures Valid() && Now() == Start(local, maxCount) && fresh(subnet.Values)
    {
      this.local := local;
      tracked, connected, subnet := map[], map[], map[];
      filter := Filter({}, map[], 0, maxCount);
    }

    predicate Local(s: SubnetID) {
      s == PRIMARY || s in local
    }

    /** Fills a new filter with the known IPs; `reset` is the capacity of the new filter, if one can be made. */
    method ResetBloom(reset: Reset)
      requires Valid()
      modifies this`filter
      ensures Valid() && Now() == ResetFilter(old(Now()), reset)
    {
      hide Valid, Subnets;
      if reset.Some? {
        filter := NewFilter(tracked, reset.value);
      }
    }

    method UpdateMostRecentTrackedIP(ip: IP, reset: Reset)
      requires Valid() && ip.node in tracked
      modifies this`tracked, this`filter
      ensures Valid() && Now() == Update(old(Now()), ip, reset)
    {
      hide FreshFilter, Valid, Subnets;
      tracked := tracked[ip.node := tracked[ip.node].(ip := Some(ip))];
      var used := Additions(filter, ip.node);
      if used >= MAX_ENTRIES_PER_NODE { return; }
      if filter.count >= filter.maxCount {
        ResetBloom(reset);
        return;
      }
      filter := filter.(
        entries := filter.entries + {Gossip(ip)},
        additions := filter.additions[ip.node := used + 1],
        count := filter.count + 1);
    }

    method LearnIP(ip: IP, reset: Reset) returns (c: Comparison)
      requires Valid()
      modifies this`tracked, this`filter
      ensures Valid() && Now() == Tracker.LearnIP(old(Now()), ip, reset)
      ensures c == Compare(old(Now()), ip)
    {
      hide Update, Valid, Subnets;
      if ip.node !in tracked { return Untracked; }
      var known := tracked[ip.node].ip;
      if known.None? {
        UpdateMostRecentTrackedIP(ip, reset);
        return First;
      }
      if known.value.timestamp > ip.timestamp { return Older; }
      if known.value.timestamp == ip.timestamp { return Same; }
      UpdateMostRecentTrackedIP(ip, reset);
      return Newer;
    }

    method SetGossipableIP(ip: IP, among: set<SubnetID>)
      requires Valid()
      modifies subnet.Values
      ensures Valid() && Subnets() == ListIP(old(Subnets()), ip, among)
      ensures subnet == old(subnet)
    {
      hide Valid, Subnets, ListIP, GossipableSubnet.Valid, GossipableSubnet.View, GossipableSubnet.Listed;
      var todo := among;
      ghost var done: set<SubnetID> := {};
      ListNone(Subnets(), ip);
      while todo != {}
        invariant done + todo == among && done !! todo && Valid() && subnet == old(subnet)
        invariant Subnets() == ListIP(old(Subnets()), ip, done)
        decreases todo
      {
        var s :| s in todo;
        Entry(s);
        ListOne(old(Subnets()), ip, done, s);
        if s in subnet { subnet[s].Fields(); }
        if s in subnet && ip.node in subnet[s].ids {
          label before:
          subnet[s].SetGossipableIP(ip);
          OnlyOne@before(s);
        }
        todo := todo - {s};
        done := done + {s};
      }
    }

    method Connected(ip: IP, among: set<SubnetID>, reset: Reset)
      requires Valid()
      requires forall n :: n in tracked && tracked[n].ip.Some? ==> tracked[n].ip.value.node == n
      modifies this, subnet.Values
      ensures Valid() && subnet == old(subnet) && Now() == Connect(old(Now()), ip, among, reset)
    {
      hide ListIP, Valid, Subnets;
      connected := connected[ip.node := ConnectedNode(among, ip)];
      ghost var st := Now();
      var c := LearnIP(ip, reset);
      if ip.node in st.tracked { UpdateIs(st, ip, reset); }
      hide Update;
      if !c.Untracked? && tracked[ip.node].ip.Some? {
        SetGossipableIP(tracked[ip.node].ip.value, among);
      }
    }

    method AddIP(ip: IP, reset: Reset) returns (added: bool)
      requires Valid()
      modifies this, subnet.Values
      ensures Valid() && subnet == old(subnet) && Now() == Tracker.AddIP(old(Now()), ip, reset)
      ensures added <==> Added(old(Now()), ip)
    {
      hide Valid, Subnets;
      ghost var st := Now();
      var c := LearnIP(ip, reset);
      if !c.First? && !c.Newer? { return false; }
      UpdateIs(st, ip, reset);
      hide ListIP, Update;
      if ip.node in connected {
        SetGossipableIP(tracked[ip.node].ip.value, connected[ip.node].subnets);
      }
      return WantsConnection(tracked[ip.node]);
    }

    method Disconnected(n: NodeID)
      requires Valid()
      modifies this`connected, subnet.Values
      ensures Valid() && subnet == old(subnet) && Now() == Disconnect(old(Now()), n)
    {
      hide Valid, Subnets, Delist, GossipableSubnet.Valid, GossipableSubnet.View, GossipableSubnet.Listed;
      if n !in connected { return; }
      var among := connected[n].subnets;
      connected := connected - {n};
      var todo := among;
      ghost var done: set<SubnetID> := {};
      DelistNone(Subnets(), n);
      while todo != {}
        invariant done + todo == among && done !! todo && Valid() && connected == old(connected) - {n}
        invariant Subnets() == Delist(old(Subnets()), n, done)
        decreases todo
      {
        var s :| s in todo;
        Entry(s);
        DelistOne(old(Subnets()), n, done, s);
        if s in subnet {
          subnet[s].Fields();
          label before:
          subnet[s].RemoveGossipableIP(n);
          OnlyOne@before(s);
        }
        todo := todo - {s};
        done := done + {s};
      }
    }

    method AddTrackableID(n: NodeID, s: Option<SubnetID>, reset: Reset)
      requires Valid() && (n in connected ==> connected[n].ip.node == n)
      modifies this`tracked, this`filter
      ensures Valid() && Now() == Track(old(Now()), n, s, reset)
    {
      hide Update, Valid, Subnets;
      var previouslyTracked := n in tracked;
      var node := if previouslyTracked then tracked[n] else TrackedNode(false, {}, {}, None);
      match s {
        case None => node := node.(manual := true);
        case Some(id) =>
          node := node.(validated := node.validated + {id});
          if Local(id) { node := node.(subnets := node.subnets + {id}); }
      }
      tracked := tracked[n := node];
      if previouslyTracked || n !in connected { return; }
      UpdateMostRecentTrackedIP(connected[n].ip, reset);
    }

    /** A node that is connected and tracked has an IP to list. */
    method AddGossipableID(n: NodeID, s: SubnetID, manuallyGossiped: bool)
      requires Valid() && (n in tracked ==> (tracked[n].ip.Some? ==> tracked[n].ip.value.node == n))
      requires n in tracked && n in connected ==> tracked[n].ip.Some?
      modifies this`subnet, subnet.Values
      ensures Valid() && fresh(subnet.Values - old(subnet.Values)) && Now() == Allow(old(Now()), n, s, manuallyGossiped)
    {
      hide AllowIn, Valid, Subnets, GossipableSubnet.Valid, GossipableSubnet.View, GossipableSubnet.Listed;
      var ip := if n in connected && s in connected[n].subnets && n in tracked then tracked[n].ip else None;
      var g := SubnetFor(s);
      Entry(s);
      label found:
      g.AddID(n, manuallyGossiped, ip);
      OnlyOne@found(s);
    }

    lemma Entry(s: SubnetID)
      requires Valid()
      ensures s in Subnets() <==> s in subnet
      ensures s in subnet ==> subnet[s].Valid() && Subnets()[s] == subnet[s].View()
    {
    }

    lemma Keys()
      requires Valid()
      ensures Subnets().Keys == subnet.Keys
    {
    }

    /** The object of a subnet, which is made when there is none. */
    method SubnetFor(s: SubnetID) returns (g: GossipableSubnet)
      requires Valid()
      modifies this`subnet
      ensures Valid() && s in subnet && subnet[s] == g && fresh(subnet.Values - old(subnet.Values))
      ensures g.View() == SubnetOf(old(Now()), s) && Subnets() == old(Subnets())[s := g.View()]
    {
      hide GossipableSubnet.Valid, GossipableSubnet.View, GossipableSubnet.Listed;
      if s !in subnet {
        var added := new GossipableSubnet();
        subnet := subnet[s := added];
      }
      g := subnet[s];
    }

    /** Changing the object of one subnet changes nothing for the others. */
    twostate lemma OnlyOne(s: SubnetID)
      requires old(Valid()) && subnet == old(subnet) && s in subnet && subnet[s].Valid()
      requires forall t :: t in subnet && subnet[t] != subnet[s] ==> unchanged(subnet[t])
      ensures Valid() && Subnets() == old(Subnets())[s := subnet[s].View()]
    {
      hide GossipableSubnet.Valid, GossipableSubnet.View, GossipableSubnet.Listed;
      forall t | t in subnet && t != s ensures subnet[t].Valid() && subnet[t].View() == old(subnet[t].View()) {
        assert subnet[t] != subnet[s];
      }
    }

    method OnValidatorAdded(s: SubnetID, n: NodeID, reset: Reset)
      requires Valid() && Exact(Now())
      modifies this, subnet.Values
      ensures Valid() && fresh(subnet.Values - old(subnet.Values)) && Now() == ValidatorAdded(old(Now()), s, n, reset)
    {
      ghost var st := Now();
      assert NodeOk(st, n);
      hide Exact, Track, Allow, Valid, Subnets;
      AddTrackableID(n, Some(s), reset);
      TrackIs(st, n, Some(s), reset);
      AddGossipableID(n, s, false);
    }

    method ManuallyTrack(n: NodeID, reset: Reset)
      requires Valid() && Exact(Now())
      modifies this`tracked, this`filter
      ensures Valid() && Now() == Track(old(Now()), n, None, reset)
    {
      assert NodeOk(Now(), n);
      AddTrackableID(n, None, reset);
    }

    method ManuallyGossip(s: SubnetID, n: NodeID, reset: Reset)
      requires Valid() && Exact(Now())
      modifies this, subnet.Values
      ensures Valid() && fresh(subnet.Values - old(subnet.Values)) &&
              Now() == Tracker.ManuallyGossip(old(Now()), s, n, reset)
    {
      ghost var st := Now();
      assert NodeOk(st, n);
      hide Exact, Track, Allow, Valid, Subnets;
      TrackIs(st, n, None, reset);
      if Local(s) { AddTrackableID(n, None, reset); }
      TrackIs(Now(), n, Some(s), reset);
      AddTrackableID(n, Some(s), reset);
      AddGossipableID(n, s, true);
    }

    method OnValidatorRemoved(s: SubnetID, n: NodeID)
      requires Valid()
      modifies this`subnet, this`tracked, subnet.Values
      ensures Valid() && fresh(subnet.Values - old(subnet.Values)) && Now() == ValidatorRemoved(old(Now()), s, n)
    {
      hide Valid, Subnets, GossipableSubnet.Valid, GossipableSubnet.View, GossipableSubnet.Listed;
      Entry(s);
      if s !in subnet { return; }
      var g := subnet[s];
      g.Fields();
      if n in g.manual { return; }
      g.RemoveID(n);
      g.Fields();
      OnlyOne(s);
      if g.ids == {} { Drop(s); }
      if n !in tracked { return; }
      var node := tracked[n].(validated := tracked[n].validated - {s}, subnets := tracked[n].subnets - {s});
      if CanDelete(node) { tracked := tracked - {n}; } else { tracked := tracked[n := node]; }
    }

    /**
     The reply to a query: the subnets in the order `order` a map happens to be run through in, each
     drawn from at random, until the reply is full.
     */
    method Peers(validator: bool, q: Query, order: seq<SubnetID>, random: (nat, nat) -> nat) returns (r: seq<IP>)
      requires Valid()
      requires forall s :: s in order <==> if validator && q.all then s in subnet else s in q.requested
      ensures IsReply(Now(), validator, q, r)
    {
      hide Valid, Subnets, IsListed, Candidate, Offered, Extends, Exhausts, Unwanted, DistinctNodes, NodesOf;
      r := [];
      ghost var k := 0;
      Empty(Now(), validator, q);
      for i := 0 to |order|
        invariant k == i && Sofar(Now(), validator, q, order[..i], r)
        invariant |r| < q.max ==> Missing(Now(), validator, q, order[..i], r)
      {
        var s := order[i];
        ghost var before := r;
        assert order[..i + 1] == order[..i] + [s];
        k := i + 1;
        Entry(s);
        if (validator || Local(s)) && s in subnet {
          subnet[s].Fields();
          r := subnet[s].GetGossipableIPs(q.except, q.contains, q.max, r, j => random(i, j));
          OneMore(Now(), validator, q, order[..i], s, before, r);
          if |r| >= q.max { break; }
        } else {
          Skipped(Now(), validator, q, order[..i], s, r);
        }
      }
      assert |r| < q.max ==> order[..|order|] == order;
      Keys();
      Finished(Now(), validator, q, order, k, r);
    }

    method Drop(s: SubnetID)
      requires Valid()
      modifies this`subnet
      ensures Valid() && subnet == old(subnet) - {s} && Subnets() == old(Subnets()) - {s}
    {
      hide GossipableSubnet.Valid, GossipableSubnet.View, GossipableSubnet.Listed;
      subnet := subnet - {s};
    }
  }

  lemma ListNone(m: map<SubnetID, Subnet>, ip: IP)
    ensures ListIP(m, ip, {}) == m
  {
  }

  lemma ListOne(m: map<SubnetID, Subnet>, ip: IP, done: set<SubnetID>, s: SubnetID)
    requires s !in done
    ensures s in m <==> s in ListIP(m, ip, done)
    ensures s in m ==> ListIP(m, ip, done)[s] == m[s]
    ensures ListIP(m, ip, done + {s}) ==
            if s in m && ip.node in m[s].ids then ListIP(m, ip, done)[s := m[s].(listed := m[s].listed[ip.node := ip])]
            else ListIP(m, ip, done)
  {
  }

  lemma DelistNone(m: map<SubnetID, Subnet>, n: NodeID)
    ensures Delist(m, n, {}) == m
  {
  }

  lemma DelistOne(m: map<SubnetID, Subnet>, n: NodeID, done: set<SubnetID>, s: SubnetID)
    requires s !in done
    ensures s in m <==> s in Delist(m, n, done)
    ensures s in m ==> Delist(m, n, done)[s] == m[s]
    ensures Delist(m, n, done + {s}) ==
            if s in m then Delist(m, n, done)[s := m[s].(listed := m[s].listed - {n})] else Delist(m, n, done)
  {
  }

  /** Fills a new filter with the known IPs, node by node. */
  method NewFilter(tracked: map<NodeID, TrackedNode>, maxCount: nat) returns (f: Filter)
    ensures f == FreshFilter(tracked, maxCount)
  {
    hide FilterOf, Part, KnownIPs;
    f := Filter({}, map[], 0, maxCount);
    var todo := tracked.Keys;
    assert tracked.Keys - todo == {};
    FilterNone(KnownIPs(tracked), maxCount);
    while todo != {}
      invariant todo <= tracked.Keys
      invariant f == FilterOf(Part(KnownIPs(tracked), tracked.Keys - todo), maxCount)
      decreases todo
    {
      var n :| n in todo;
      FillOne(tracked, tracked.Keys - todo, n, maxCount);
      assert tracked.Keys - todo + {n} == tracked.Keys - (todo - {n});
      if tracked[n].ip.Some? {
        f := Filter(f.entries + {Gossip(tracked[n].ip.value)}, f.additions[n := 1], f.count + 1, maxCount);
      }
      todo := todo - {n};
    }
    assert tracked.Keys - {} == tracked.Keys;
    KnownKeys(tracked);
    PartAll(KnownIPs(tracked), tracked.Keys);
  }

  ghost function Part(known: map<NodeID, IP>, done: set<NodeID>): map<NodeID, IP> {
    map n | n in known && n in done :: known[n]
  }

  lemma FilterNone(known: map<NodeID, IP>, maxCount: nat)
    ensures FilterOf(Part(known, {}), maxCount) == Filter({}, map[], 0, maxCount)
  {
    assert Part(known, {}) == map[];
  }

  lemma FillOne(tracked: map<NodeID, TrackedNode>, done: set<NodeID>, n: NodeID, maxCount: nat)
    requires n in tracked && n !in done
    ensures var known := KnownIPs(tracked);
            var f := FilterOf(Part(known, done), maxCount);
            FilterOf(Part(known, done + {n}), maxCount) ==
            if tracked[n].ip.None? then f
            else Filter(f.entries + {Gossip(tracked[n].ip.value)}, f.additions[n := 1], f.count + 1, maxCount)
  {
    hide FilterOf, Part, KnownIPs;
    var known := KnownIPs(tracked);
    PartOne(known, done, n);
    KnownAt(tracked, n);
    if tracked[n].ip.Some? {
      FilterAdd(Part(known, done), n, tracked[n].ip.value, maxCount);
    }
  }

  lemma KnownKeys(tracked: map<NodeID, TrackedNode>)
    ensures KnownIPs(tracked).Keys <= tracked.Keys
  {
  }

  lemma KnownAt(tracked: map<NodeID, TrackedNode>, n: NodeID)
    ensures n in KnownIPs(tracked) <==> n in tracked && tracked[n].ip.Some?
    ensures n in KnownIPs(tracked) ==> KnownIPs(tracked)[n] == tracked[n].ip.value
  {
  }

  lemma PartAll(known: map<NodeID, IP>, done: set<NodeID>)
    requires known.Keys <= done
    ensures Part(known, done) == known
  {
  }

  lemma PartOne(known: map<NodeID, IP>, done: set<NodeID>, n: NodeID)
    requires n !in done
    ensures n !in Part(known, done)
    ensures Part(known, done + {n}) == if n in known then Part(known, done)[n := known[n]] else Part(known, done)
  {
  }

  lemma FilterAdd(known: map<NodeID, IP>, n: NodeID, ip: IP, maxCount: nat)
    requires n !in known
    ensures var f := FilterOf(known, maxCount);
            FilterOf(known[n := ip], maxCount) ==
            Filter(f.entries + {Gossip(ip)}, f.additions[n := 1], f.count + 1, maxCount)
  {
    var known' := known[n := ip];
    assert GossipIDs(known') == GossipIDs(known) + {Gossip(ip)} by { GossipIDsAdd(known, n, ip); }
    assert known'.Keys == known.Keys + {n};
    assert |known'.Keys| == |known.Keys| + 1;
  }

  lemma GossipIDsAdd(known: map<NodeID, IP>, n: NodeID, ip: IP)
    requires n !in known
    ensures GossipIDs(known[n := ip]) == GossipIDs(known) + {Gossip(ip)}
  {
    var known' := known[n := ip];
    forall g ensures g in GossipIDs(known') <==> g in GossipIDs(known) + {Gossip(ip)} {
      if g in GossipIDs(known) {
        var m :| m in known && Gossip(known[m]) == g;
        assert m in known' && Gossip(known'[m]) == g;
      }
      if g == Gossip(ip) { assert n in known' && Gossip(known'[n]) == g; }
    }
  }
}
