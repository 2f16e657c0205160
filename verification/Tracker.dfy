/**
 The IP tracker as a state and its transitions: which nodes are tracked, which are connected, and which
 IPs may be gossiped for which subnet.
 */
module Tracker {
  import opened Results

  type NodeID = nat
  type SubnetID = nat

  const PRIMARY: SubnetID := 0

  const MAX_ENTRIES_PER_NODE: nat := 2

  /** A claimed IP: who claims it, when it was signed, and the address with its signature. */
  datatype IP = IP(node: NodeID, timestamp: nat, address: nat)

  /** What an IP is known by in a filter. */
  datatype GossipID = GossipID(node: NodeID, timestamp: nat)

  function Gossip(ip: IP): GossipID {
    GossipID(ip.node, ip.timestamp)
  }

  datatype TrackedNode = TrackedNode(manual: bool, validated: set<SubnetID>, subnets: set<SubnetID>, ip: Option<IP>)

  datatype ConnectedNode = ConnectedNode(subnets: set<SubnetID>, ip: IP)

  /** `listed` is the gossipable list, which holds at most one IP of a node. */
  datatype Subnet = Subnet(manual: set<NodeID>, ids: set<NodeID>, listed: map<NodeID, IP>)

  /** `entries` are the gossip IDs added since the last reset, `count` how often one was added. */
  datatype Filter = Filter(entries: set<GossipID>, additions: map<NodeID, nat>, count: nat, maxCount: nat)

  datatype State = State(
    local: set<SubnetID>,  // the subnets the local node tracks besides the primary network
    tracked: map<NodeID, TrackedNode>,
    connected: map<NodeID, ConnectedNode>,
    subnets: map<SubnetID, Subnet>,
    filter: Filter)

  /** The outcome of an attempt to make a new filter: its capacity, or a failure. */
  type Reset = Option<nat>

  predicate IsLocal(st: State, s: SubnetID) {
    s == PRIMARY || s in st.local
  }

  predicate WantsConnection(n: TrackedNode) {
    n.manual || n.subnets != {}
  }

  predicate CanDelete(n: TrackedNode) {
    !n.manual && n.validated == {}
  }

  function Additions(f: Filter, n: NodeID): nat {
    if n in f.additions then f.additions[n] else 0
  }

  // ---------- transitions ----------

  function KnownIPs(tracked: map<NodeID, TrackedNode>): map<NodeID, IP> {
    map n | n in tracked && tracked[n].ip.Some? :: tracked[n].ip.value
  }

  function GossipIDs(known: map<NodeID, IP>): set<GossipID> {
    set n | n in known :: Gossip(known[n])
  }

  function FilterOf(known: map<NodeID, IP>, maxCount: nat): Filter {
    Filter(GossipIDs(known), map n | n in known :: 1, |known|, maxCount)
  }

  /** A new filter holding the known IPs of the tracked nodes. */
  function FreshFilter(tracked: map<NodeID, TrackedNode>, maxCount: nat): Filter {
    FilterOf(KnownIPs(tracked), maxCount)
  }

  function ResetFilter(st: State, reset: Reset): State {
    match reset
    case None => st
    case Some(maxCount) => st.(filter := FreshFilter(st.tracked, maxCount))
  }

  /** `updateMostRecentTrackedIP`, for a node that is tracked. */
  function Update(st: State, ip: IP, reset: Reset): State
    requires ip.node in st.tracked
  {
    var st1 := st.(tracked := st.tracked[ip.node := st.tracked[ip.node].(ip := Some(ip))]);
    var used := Additions(st.filter, ip.node);
    if used >= MAX_ENTRIES_PER_NODE then st1
    else if st.filter.count >= st.filter.maxCount then ResetFilter(st1, reset)
    else st1.(filter := st.filter.(
      entries := st.filter.entries + {Gossip(ip)},
      additions := st.filter.additions[ip.node := used + 1],
      count := st.filter.count + 1))
  }

  datatype Comparison = Untracked | Older | Same | Newer | First

  function Compare(st: State, ip: IP): Comparison {
    if ip.node !in st.tracked then Untracked else
      match st.tracked[ip.node].ip
      case None => First
      case Some(known) =>
        if known.timestamp > ip.timestamp then Older
        else if known.timestamp == ip.timestamp then Same
        else Newer
  }

  /** `addIP`. */
  function LearnIP(st: State, ip: IP, reset: Reset): State {
    if Compare(st, ip).First? || Compare(st, ip).Newer? then Update(st, ip, reset) else st
  }

  /** `setGossipableIP`: the subnets among `among` that may gossip the node list its IP. */
  function ListIP(subnets: map<SubnetID, Subnet>, ip: IP, among: set<SubnetID>): map<SubnetID, Subnet> {
    map s | s in subnets ::
      if s in among && ip.node in subnets[s].ids then subnets[s].(listed := subnets[s].listed[ip.node := ip])
      else subnets[s]
  }

  function Delist(subnets: map<SubnetID, Subnet>, n: NodeID, among: set<SubnetID>): map<SubnetID, Subnet> {
    map s | s in subnets ::
      if s in among then subnets[s].(listed := subnets[s].listed - {n}) else subnets[s]
  }

  function Connect(st: State, ip: IP, among: set<SubnetID>, reset: Reset): State {
    var st1 := LearnIP(st.(connected := st.connected[ip.node := ConnectedNode(among, ip)]), ip, reset);
    if Compare(st, ip).Untracked? || st1.tracked[ip.node].ip.None? then st1
    else st1.(subnets := ListIP(st1.subnets, st1.tracked[ip.node].ip.value, among))
  }

  function AddIP(st: State, ip: IP, reset: Reset): State {
    var st1 := LearnIP(st, ip, reset);
    if (Compare(st, ip).First? || Compare(st, ip).Newer?) && ip.node in st.connected
    then st1.(subnets := ListIP(st1.subnets, ip, st.connected[ip.node].subnets))
    else st1
  }

  /** What `AddIP` returns. */
  predicate Added(st: State, ip: IP) {
    (Compare(st, ip).First? || Compare(st, ip).Newer?) && WantsConnection(st.tracked[ip.node])
  }

  function Disconnect(st: State, n: NodeID): State {
    if n !in st.connected then st
    else st.(connected := st.connected - {n}, subnets := Delist(st.subnets, n, st.connected[n].subnets))
  }

  /** The record of a node after `addTrackableID`, before its IP is filled in. */
  function Trackable(st: State, n: NodeID, s: Option<SubnetID>): TrackedNode {
    var node := if n in st.tracked then st.tracked[n] else TrackedNode(false, {}, {}, None);
    match s
    case None => node.(manual := true)
    case Some(id) =>
      var subnets := if IsLocal(st, id) then node.subnets + {id} else node.subnets;
      node.(validated := node.validated + {id}, subnets := subnets)
  }

  /** `addTrackableID`; without a subnet the node is tracked manually. Connections are filed under their own nodes. */
  function Track(st: State, n: NodeID, s: Option<SubnetID>, reset: Reset): State {
    var st1 := st.(tracked := st.tracked[n := Trackable(st, n, s)]);
    if n !in st.tracked && n in st.connected && st.connected[n].ip.node == n
    then Update(st1, st.connected[n].ip, reset) else st1
  }

  function SubnetOf(st: State, s: SubnetID): Subnet {
    if s in st.subnets then st.subnets[s] else Subnet({}, {}, map[])
  }

  /** The IP a subnet lists when it starts to gossip the node. */
  function IPToList(st: State, n: NodeID, s: SubnetID): Option<IP> {
    if n in st.connected && s in st.connected[n].subnets && n in st.tracked then st.tracked[n].ip else None
  }

  function AllowIn(subnet: Subnet, n: NodeID, manual: bool, ip: Option<IP>): Subnet {
    var subnet1 := if manual then subnet.(manual := subnet.manual + {n}) else subnet;
    if n in subnet1.ids then subnet1
    else if ip.None? then subnet1.(ids := subnet1.ids + {n})
    else subnet1.(ids := subnet1.ids + {n}, listed := subnet1.listed[n := ip.value])
  }

  /** `addGossipableID`. */
  function Allow(st: State, n: NodeID, s: SubnetID, manual: bool): State {
    st.(subnets := st.subnets[s := AllowIn(SubnetOf(st, s), n, manual, IPToList(st, n, s))])
  }

  function ManuallyGossip(st: State, s: SubnetID, n: NodeID, reset: Reset): State {
    var st1 := if IsLocal(st, s) then Track(st, n, None, reset) else st;
    Allow(Track(st1, n, Some(s), reset), n, s, true)
  }

  function ValidatorAdded(st: State, s: SubnetID, n: NodeID, reset: Reset): State {
    Allow(Track(st, n, Some(s), reset), n, s, false)
  }

  function ForbidIn(subnet: Subnet, n: NodeID): Subnet {
    subnet.(ids := subnet.ids - {n}, listed := subnet.listed - {n})
  }

  /** The subnet forgets the node, and is dropped when it was the last one. */
  function Forbid(st: State, s: SubnetID, n: NodeID): State
    requires s in st.subnets
  {
    var subnet' := ForbidIn(st.subnets[s], n);
    st.(subnets := if subnet'.ids == {} then st.subnets - {s} else st.subnets[s := subnet'])
  }

  function Untrack(st: State, s: SubnetID, n: NodeID): State {
    if n !in st.tracked then st else
      var node := st.tracked[n];
      var node' := node.(validated := node.validated - {s}, subnets := node.subnets - {s});
      st.(tracked := if CanDelete(node') then st.tracked - {n} else st.tracked[n := node'])
  }

  function ValidatorRemoved(st: State, s: SubnetID, n: NodeID): State {
    if s !in st.subnets || n in st.subnets[s].manual then st
    else Untrack(Forbid(st, s, n), s, n)
  }

  datatype Op =
    | OpTrack(node: NodeID, reset: Reset)
    | OpGossip(subnet: SubnetID, node: NodeID, reset: Reset)
    | OpAddIP(ip: IP, reset: Reset)
    | OpConnect(ip: IP, among: set<SubnetID>, reset: Reset)
    | OpDisconnect(node: NodeID)
    | OpAdded(subnet: SubnetID, node: NodeID, reset: Reset)
    | OpRemoved(subnet: SubnetID, node: NodeID)
    | OpReset(reset: Reset)

  function Step(st: State, op: Op): State {
    match op
    case OpTrack(n, r) => Track(st, n, None, r)
    case OpGossip(s, n, r) => ManuallyGossip(st, s, n, r)
    case OpAddIP(ip, r) => AddIP(st, ip, r)
    case OpConnect(ip, among, r) => Connect(st, ip, among, r)
    case OpDisconnect(n) => Disconnect(st, n)
    case OpAdded(s, n, r) => ValidatorAdded(st, s, n, r)
    case OpRemoved(s, n) => ValidatorRemoved(st, s, n)
    case OpReset(r) => ResetFilter(st, r)
  }

  // ---------- what every reachable state satisfies ----------

  /** IPs are filed under their own nodes, and a connected tracked node has one at least as new as on connecting. */
  ghost predicate NodeOk(st: State, n: NodeID) {
    && (n in st.connected ==> st.connected[n].ip.node == n)
    && (n in st.tracked && st.tracked[n].ip.Some? ==> st.tracked[n].ip.value.node == n)
    && (n in st.tracked && n in st.connected ==>
          st.tracked[n].ip.Some? && st.connected[n].ip.timestamp <= st.tracked[n].ip.value.timestamp)
  }

  /** A node is tracked only for a reason, and its tracked subnets are the local ones it validates. */
  ghost predicate ReasonOk(st: State, n: NodeID) {
    n in st.tracked ==>
      var node := st.tracked[n];
      && (node.manual || node.validated != {})
      && forall s :: s in node.subnets <==> s in node.validated && IsLocal(st, s)
  }

  predicate MayGossip(st: State, s: SubnetID, n: NodeID) {
    s in st.subnets && n in st.subnets[s].ids
  }

  predicate Validates(st: State, s: SubnetID, n: NodeID) {
    n in st.tracked && s in st.tracked[n].validated
  }

  predicate Syncs(st: State, s: SubnetID, n: NodeID) {
    n in st.connected && s in st.connected[n].subnets
  }

  predicate IsListed(st: State, s: SubnetID, n: NodeID) {
    s in st.subnets && n in st.subnets[s].listed
  }

  /** Listed for a subnet iff gossipable for it, connected and syncing it, and then with the tracked IP. */
  ghost predicate PairOk(st: State, s: SubnetID, n: NodeID) {
    && (MayGossip(st, s, n) <==> Validates(st, s, n))
    && (IsListed(st, s, n) <==> MayGossip(st, s, n) && Syncs(st, s, n))
    && (IsListed(st, s, n) ==> n in st.tracked && st.tracked[n].ip == Some(st.subnets[s].listed[n]))
  }

  ghost predicate SubnetOk(st: State, s: SubnetID) {
    s in st.subnets ==> st.subnets[s].ids != {} && st.subnets[s].manual <= st.subnets[s].ids
  }

  ghost predicate Nodes(st: State) {
    forall n :: NodeOk(st, n) && ReasonOk(st, n)
  }

  ghost predicate Pairs(st: State) {
    forall s, n :: PairOk(st, s, n)
  }

  ghost predicate Exact(st: State) {
    Nodes(st) && Pairs(st) && forall s :: SubnetOk(st, s)
  }

  function Start(local: set<SubnetID>, maxCount: nat): State {
    State(local, map[], map[], map[], Filter({}, map[], 0, maxCount))
  }

  /** Connections are announced for nodes that are not connected. */
  predicate Possible(st: State, op: Op) {
    op.OpConnect? ==> op.ip.node !in st.connected
  }

  // ---------- every transition keeps it ----------

  /** Only the record of one node changes with an update. */
  lemma UpdateIs(st: State, ip: IP, reset: Reset)
    requires ip.node in st.tracked
    ensures Update(st, ip, reset) ==
            st.(tracked := st.tracked[ip.node := st.tracked[ip.node].(ip := Some(ip))],
                filter := Update(st, ip, reset).filter)
  {
  }

  lemma TrackIs(st: State, n: NodeID, s: Option<SubnetID>, reset: Reset)
    ensures var st' := Track(st, n, s, reset);
            && st' == st.(tracked := st.tracked[n := st'.tracked[n]], filter := st'.filter)
            && st'.tracked[n] == Trackable(st, n, s).(ip := st'.tracked[n].ip)
            && st'.tracked[n].ip == if n in st.tracked then st.tracked[n].ip
                                    else if n in st.connected && st.connected[n].ip.node == n
                                    then Some(st.connected[n].ip) else None
  {
    var st1 := st.(tracked := st.tracked[n := Trackable(st, n, s)]);
    if n !in st.tracked && n in st.connected && st.connected[n].ip.node == n {
      UpdateIs(st1, st.connected[n].ip, reset);
    }
  }

  lemma TrackManuallyExact(st: State, n: NodeID, reset: Reset)
    requires Exact(st)
    ensures Exact(Track(st, n, None, reset))
  {
    var st' := Track(st, n, None, reset);
    TrackIs(st, n, None, reset);
    hide Track;
    forall m ensures NodeOk(st', m) && ReasonOk(st', m) {
      assert NodeOk(st, m) && ReasonOk(st, m);
    }
    forall s, m ensures PairOk(st', s, m) {
      assert PairOk(st, s, m) && NodeOk(st, m);
    }
    forall s ensures SubnetOk(st', s) {
      assert SubnetOk(st, s);
    }
  }

  /** Tracking a validator and letting its subnet gossip it belong together. */
  lemma TrackAndAllowExact(st: State, n: NodeID, s: SubnetID, manual: bool, reset: Reset)
    requires Exact(st)
    ensures Exact(Allow(Track(st, n, Some(s), reset), n, s, manual))
  {
    var st1 := Track(st, n, Some(s), reset);
    var st' := Allow(st1, n, s, manual);
    TrackIs(st, n, Some(s), reset);
    hide Track;
    assert NodeOk(st, n) && ReasonOk(st, n) && PairOk(st, s, n);
    assert NodeOk(st1, n);
    forall m ensures NodeOk(st', m) && ReasonOk(st', m) {
      assert NodeOk(st, m) && ReasonOk(st, m);
    }
    forall t, m ensures PairOk(st', t, m) {
      assert PairOk(st, t, m) && NodeOk(st, m);
    }
    forall t ensures SubnetOk(st', t) {
      assert SubnetOk(st, t);
      if t == s { assert n in st'.subnets[s].ids; }
    }
  }

  lemma GossipExact(st: State, s: SubnetID, n: NodeID, reset: Reset)
    requires Exact(st)
    ensures Exact(ManuallyGossip(st, s, n, reset))
  {
    hide Exact, Track, Allow;
    if IsLocal(st, s) {
      TrackManuallyExact(st, n, reset);
      TrackAndAllowExact(Track(st, n, None, reset), n, s, true, reset);
    } else {
      TrackAndAllowExact(st, n, s, true, reset);
    }
  }

  lemma AddIPExact(st: State, ip: IP, reset: Reset)
    requires Exact(st)
    ensures Exact(AddIP(st, ip, reset))
  {
    var st' := AddIP(st, ip, reset);
    if ip.node in st.tracked { UpdateIs(st, ip, reset); }
    hide Update;
    forall m ensures NodeOk(st', m) && ReasonOk(st', m) {
      assert NodeOk(st, m) && ReasonOk(st, m);
    }
    forall s, m ensures PairOk(st', s, m) {
      assert PairOk(st, s, m) && NodeOk(st, m);
    }
    forall s ensures SubnetOk(st', s) {
      assert SubnetOk(st, s);
    }
  }

  /** A connected node has its newest IP on record. */
  lemma ConnectIs(st: State, ip: IP, among: set<SubnetID>, reset: Reset)
    requires ip.node in st.tracked
    ensures var st' := Connect(st, ip, among, reset);
            && st'.tracked[ip.node].ip.Some?
            && st'.tracked == st.tracked[ip.node := st.tracked[ip.node].(ip := st'.tracked[ip.node].ip)]
            && st'.tracked[ip.node].ip ==
               (if st.tracked[ip.node].ip.Some? && ip.timestamp <= st.tracked[ip.node].ip.value.timestamp
                then st.tracked[ip.node].ip else Some(ip))
            && st'.connected == st.connected[ip.node := ConnectedNode(among, ip)]
            && st'.subnets == ListIP(st.subnets, st'.tracked[ip.node].ip.value, among)
            && st'.local == st.local
  {
    UpdateIs(st.(connected := st.connected[ip.node := ConnectedNode(among, ip)]), ip, reset);
  }

  /**
   Announcing a connection keeps the lists exact iff the node was not connected already with a subnet
   it may be gossiped for and does not sync any more.
   */
  lemma ConnectExact(st: State, ip: IP, among: set<SubnetID>, reset: Reset)
    requires Exact(st)
    ensures Exact(Connect(st, ip, among, reset)) <==>
            forall s :: Syncs(st, s, ip.node) && MayGossip(st, s, ip.node) ==> s in among
  {
    var st' := Connect(st, ip, among, reset);
    if ip.node in st.tracked { ConnectIs(st, ip, among, reset); }
    hide Connect;
    if forall s :: Syncs(st, s, ip.node) && MayGossip(st, s, ip.node) ==> s in among {
      ConnectKeepsExact(st, ip, among, reset);
    } else {
      var s :| Syncs(st, s, ip.node) && MayGossip(st, s, ip.node) && s !in among;
      assert PairOk(st, s, ip.node);
      assert !PairOk(st', s, ip.node);
    }
  }

  lemma ConnectKeepsExact(st: State, ip: IP, among: set<SubnetID>, reset: Reset)
    requires Exact(st)
    requires forall s :: Syncs(st, s, ip.node) && MayGossip(st, s, ip.node) ==> s in among
    ensures Exact(Connect(st, ip, among, reset))
  {
    var st' := Connect(st, ip, among, reset);
    if ip.node in st.tracked {
      ConnectIs(st, ip, among, reset);
    } else {
      assert st' == st.(connected := st.connected[ip.node := ConnectedNode(among, ip)]);
    }
    hide Connect;
    forall m ensures NodeOk(st', m) && ReasonOk(st', m) {
      assert NodeOk(st, m) && ReasonOk(st, m);
    }
    forall s, m ensures PairOk(st', s, m) {
      assert PairOk(st, s, m) && NodeOk(st, m);
      assert NodeOk(st, ip.node) && PairOk(st, s, ip.node);
    }
    forall s ensures SubnetOk(st', s) {
      assert SubnetOk(st, s);
    }
  }

  lemma DisconnectExact(st: State, n: NodeID)
    requires Exact(st)
    ensures Exact(Disconnect(st, n))
  {
    var st' := Disconnect(st, n);
    forall m ensures NodeOk(st', m) && ReasonOk(st', m) {
      assert NodeOk(st, m) && ReasonOk(st, m);
    }
    forall s, m ensures PairOk(st', s, m) {
      assert PairOk(st, s, m);
    }
    forall s ensures SubnetOk(st', s) {
      assert SubnetOk(st, s);
    }
  }

  /** Who is left in a subnet, and what is left of a node, after a removal that goes through. */
  lemma RemovedIs(st: State, s: SubnetID, n: NodeID, t: SubnetID, m: NodeID)
    requires Exact(st) && s in st.subnets && n !in st.subnets[s].manual
    ensures var st' := ValidatorRemoved(st, s, n);
            && (MayGossip(st', t, m) <==> MayGossip(st, t, m) && !(t == s && m == n))
            && (IsListed(st', t, m) <==> IsListed(st, t, m) && !(t == s && m == n))
            && (IsListed(st', t, m) ==> st'.subnets[t].listed[m] == st.subnets[t].listed[m])
            && (Validates(st', t, m) <==> Validates(st, t, m) && !(t == s && m == n))
            && (m in st'.tracked ==> m in st.tracked && st'.tracked[m].ip == st.tracked[m].ip)
            && st'.connected == st.connected && st'.local == st.local
  {
    assert PairOk(st, t, m);
    if m in st.subnets[s].ids && m != n { assert m in st.subnets[s].ids - {n}; }
    if Validates(st, t, m) && t != s { assert t in st.tracked[m].validated - {s}; }
  }

  lemma RemovedExact(st: State, s: SubnetID, n: NodeID)
    requires Exact(st)
    ensures Exact(ValidatorRemoved(st, s, n))
  {
    var st' := ValidatorRemoved(st, s, n);
    if s in st.subnets && n !in st.subnets[s].manual {
      forall m ensures NodeOk(st', m) && ReasonOk(st', m) {
        assert NodeOk(st, m) && ReasonOk(st, m);
      }
      forall t, m ensures PairOk(st', t, m) {
        assert PairOk(st, t, m);
        RemovedIs(st, s, n, t, m);
      }
      forall t ensures SubnetOk(st', t) {
        assert SubnetOk(st, t);
      }
    }
  }

  lemma StepExact(st: State, op: Op)
    requires Exact(st) && Possible(st, op)
    ensures Exact(Step(st, op))
  {
    match op
    case OpTrack(n, r) => TrackManuallyExact(st, n, r);
    case OpGossip(s, n, r) => GossipExact(st, s, n, r);
    case OpAddIP(ip, r) => AddIPExact(st, ip, r);
    case OpConnect(ip, among, r) => ConnectExact(st, ip, among, r);
    case OpDisconnect(n) => DisconnectExact(st, n);
    case OpAdded(s, n, r) => TrackAndAllowExact(st, n, s, false, r);
    case OpRemoved(s, n) => RemovedExact(st, s, n);
    case OpReset(r) => ResetExact(st, r);
  }

  lemma ResetExact(st: State, reset: Reset)
    requires Exact(st)
    ensures Exact(ResetFilter(st, reset))
  {
    var st' := ResetFilter(st, reset);
    forall m ensures NodeOk(st', m) && ReasonOk(st', m) { assert NodeOk(st, m) && ReasonOk(st, m); }
    forall s, m ensures PairOk(st', s, m) { assert PairOk(st, s, m); }
    forall s ensures SubnetOk(st', s) { assert SubnetOk(st, s); }
  }
}
