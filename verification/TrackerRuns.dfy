/**
 Whole histories of the IP tracker: what is gossiped is read off the events alone, and the filter covers
 what is known.
 */
module TrackerRuns {
  import opened Results
  import opened Tracker

  function Run(st: State, ops: seq<Op>): State {
    if ops == [] then st else Step(Run(st, ops[..|ops| - 1]), ops[|ops| - 1])
  }

  /** In no prefix is a connection announced for a node that is connected. */
  ghost predicate PossibleRun(st: State, ops: seq<Op>) {
    ops == [] || (PossibleRun(st, ops[..|ops| - 1]) && Possible(Run(st, ops[..|ops| - 1]), ops[|ops| - 1]))
  }

  lemma StartExact(local: set<SubnetID>, maxCount: nat)
    ensures Exact(Start(local, maxCount))
  {
  }

  lemma {:induction false} RunExact(local: set<SubnetID>, maxCount: nat, ops: seq<Op>)
    requires PossibleRun(Start(local, maxCount), ops)
    ensures Exact(Run(Start(local, maxCount), ops))
  {
    hide Exact, Step;
    if ops == [] {
      StartExact(local, maxCount);
    } else {
      RunExact(local, maxCount, ops[..|ops| - 1]);
      StepExact(Run(Start(local, maxCount), ops[..|ops| - 1]), ops[|ops| - 1]);
    }
  }

  // ---------- the same, read off the events ----------

  /** The node was configured to be gossiped for the subnet. */
  predicate Configured(ops: seq<Op>, s: SubnetID, n: NodeID) {
    ops != [] &&
    (Configured(ops[..|ops| - 1], s, n) ||
     match ops[|ops| - 1] case OpGossip(t, m, _) => t == s && m == n case _ => false)
  }

  /** The node was tracked by request, directly or by being configured for a subnet of the local node. */
  predicate Requested(local: set<SubnetID>, ops: seq<Op>, n: NodeID) {
    ops != [] &&
    (Requested(local, ops[..|ops| - 1], n) ||
     match ops[|ops| - 1]
     case OpTrack(m, _) => m == n
     case OpGossip(t, m, _) => m == n && (t == PRIMARY || t in local)
     case _ => false)
  }

  /** The node is configured for the subnet, or was added as its validator and not removed since. */
  predicate Active(ops: seq<Op>, s: SubnetID, n: NodeID) {
    ops != [] &&
    var before := Active(ops[..|ops| - 1], s, n);
    match ops[|ops| - 1]
    case OpGossip(t, m, _) => before || (t == s && m == n)
    case OpAdded(t, m, _) => before || (t == s && m == n)
    case OpRemoved(t, m) => before && (!(t == s && m == n) || Configured(ops[..|ops| - 1], s, n))
    case _ => before
  }

  /** The subnets the node said it syncs when it connected, if it has not disconnected since. */
  function Session(ops: seq<Op>, n: NodeID): Option<set<SubnetID>> {
    if ops == [] then None else
      match ops[|ops| - 1]
      case OpConnect(ip, among, _) => if ip.node == n then Some(among) else Session(ops[..|ops| - 1], n)
      case OpDisconnect(m) => if m == n then None else Session(ops[..|ops| - 1], n)
      case _ => Session(ops[..|ops| - 1], n)
  }

  ghost predicate Agrees(st: State, local: set<SubnetID>, ops: seq<Op>, s: SubnetID, n: NodeID) {
    && (MayGossip(st, s, n) <==> Active(ops, s, n))
    && (s in st.subnets && n in st.subnets[s].manual <==> Configured(ops, s, n))
    && (n in st.tracked && st.tracked[n].manual <==> Requested(local, ops, n))
    && (n in st.connected <==> Session(ops, n).Some?)
    && (n in st.connected ==> st.connected[n].subnets == Session(ops, n).value)
  }

  /** What one step does to the facts about a pair, seen from outside. */
  ghost predicate Seen(st: State, op: Op, st': State, s: SubnetID, n: NodeID) {
    && st'.local == st.local
    && (MayGossip(st', s, n) <==>
        match op
        case OpGossip(t, m, _) => MayGossip(st, s, n) || (t == s && m == n)
        case OpAdded(t, m, _) => MayGossip(st, s, n) || (t == s && m == n)
        case OpRemoved(t, m) => MayGossip(st, s, n) && (!(t == s && m == n) || n in SubnetOf(st, s).manual)
        case _ => MayGossip(st, s, n))
    && (n in SubnetOf(st', s).manual <==>
        n in SubnetOf(st, s).manual || (op.OpGossip? && op.subnet == s && op.node == n))
    && (n in st'.tracked && st'.tracked[n].manual <==>
        (n in st.tracked && st.tracked[n].manual) || (op.OpTrack? && op.node == n)
        || (op.OpGossip? && op.node == n && IsLocal(st, op.subnet)))
    && st'.connected == (match op
                         case OpConnect(ip, among, _) => st.connected[ip.node := ConnectedNode(among, ip)]
                         case OpDisconnect(m) => if m in st.connected then st.connected - {m} else st.connected
                         case _ => st.connected)
  }

  lemma StepSeen(st: State, op: Op, s: SubnetID, n: NodeID)
    requires Exact(st)
    ensures Seen(st, op, Step(st, op), s, n)
  {
    assert PairOk(st, s, n) && SubnetOk(st, s) && ReasonOk(st, n);
    hide Exact;
    match op
    case OpTrack(m, r) => TrackIs(st, m, None, r);
    case OpGossip(t, m, r) => GossipSeen(st, t, m, r, s, n);
    case OpAddIP(ip, r) => AddIPSeen(st, ip, r, s, n);
    case OpConnect(ip, among, r) => ConnectSeen(st, ip, among, r, s, n);
    case OpDisconnect(m) =>
    case OpAdded(t, m, r) => AddedSeen(st, t, m, r, s, n);
    case OpRemoved(t, m) => RemovedSeen(st, t, m, s, n);
    case OpReset(r) =>
  }

  lemma GossipSeen(st: State, t: SubnetID, m: NodeID, r: Reset, s: SubnetID, n: NodeID)
    ensures Seen(st, OpGossip(t, m, r), ManuallyGossip(st, t, m, r), s, n)
  {
    TrackIs(st, m, None, r);
    var st1 := if IsLocal(st, t) then Track(st, m, None, r) else st;
    TrackIs(st1, m, Some(t), r);
    hide Track;
  }

  lemma AddedSeen(st: State, t: SubnetID, m: NodeID, r: Reset, s: SubnetID, n: NodeID)
    ensures Seen(st, OpAdded(t, m, r), ValidatorAdded(st, t, m, r), s, n)
  {
    TrackIs(st, m, Some(t), r);
    hide Track;
  }

  lemma AddIPSeen(st: State, ip: IP, r: Reset, s: SubnetID, n: NodeID)
    ensures Seen(st, OpAddIP(ip, r), AddIP(st, ip, r), s, n)
  {
    if ip.node in st.tracked { UpdateIs(st, ip, r); }
    hide Update;
  }

  lemma ConnectSeen(st: State, ip: IP, among: set<SubnetID>, r: Reset, s: SubnetID, n: NodeID)
    ensures Seen(st, OpConnect(ip, among, r), Connect(st, ip, among, r), s, n)
  {
    if ip.node in st.tracked {
      ConnectIs(st, ip, among, r);
    } else {
      assert Connect(st, ip, among, r) == st.(connected := st.connected[ip.node := ConnectedNode(among, ip)]);
    }
    hide Connect;
  }

  lemma RemovedSeen(st: State, t: SubnetID, m: NodeID, s: SubnetID, n: NodeID)
    requires PairOk(st, s, n) && SubnetOk(st, s) && ReasonOk(st, n)
    ensures Seen(st, OpRemoved(t, m), ValidatorRemoved(st, t, m), s, n)
  {
    if t == s && s in st.subnets && m !in st.subnets[s].manual && n in st.subnets[s].ids && n != m {
      assert n in st.subnets[s].ids - {m};
    }
  }

  lemma {:induction false} ByHistory(local: set<SubnetID>, maxCount: nat, ops: seq<Op>, s: SubnetID, n: NodeID)
    requires PossibleRun(Start(local, maxCount), ops)
    ensures Agrees(Run(Start(local, maxCount), ops), local, ops, s, n)
    ensures Run(Start(local, maxCount), ops).local == local
  {
    hide Exact, Step;
    if ops != [] {
      var init := ops[..|ops| - 1];
      var st := Run(Start(local, maxCount), init);
      ByHistory(local, maxCount, init, s, n);
      RunExact(local, maxCount, init);
      StepSeen(st, ops[|ops| - 1], s, n);
    }
  }

  /**
   After any history the gossipable list of a subnet holds exactly the nodes active for it whose current
   session syncs it; a listed IP is the tracked one, and not older than the one of the session.
   */
  lemma ListedByHistory(local: set<SubnetID>, maxCount: nat, ops: seq<Op>, s: SubnetID, n: NodeID)
    requires PossibleRun(Start(local, maxCount), ops)
    ensures var st := Run(Start(local, maxCount), ops);
            && (IsListed(st, s, n) <==> Active(ops, s, n) && Session(ops, n).Some? && s in Session(ops, n).value)
            && (IsListed(st, s, n) ==> n in st.tracked && st.tracked[n].ip == Some(st.subnets[s].listed[n]))
            && (IsListed(st, s, n) ==>
                n in st.connected && st.connected[n].ip.timestamp <= st.subnets[s].listed[n].timestamp)
  {
    RunExact(local, maxCount, ops);
    ByHistory(local, maxCount, ops, s, n);
    var st := Run(Start(local, maxCount), ops);
    assert PairOk(st, s, n) && NodeOk(st, n);
  }

  const JOINED: Op := OpAdded(1, 7, Some(10))
  const CONNECTED: Op := OpConnect(IP(7, 1, 0), {1}, Some(10))
  const AGAIN: Op := OpConnect(IP(7, 2, 0), {}, Some(10))

  lemma BeforeReconnect()
    ensures PossibleRun(Start({}, 10), [JOINED, CONNECTED])
    ensures Active([JOINED, CONNECTED], 1, 7) && Session([JOINED, CONNECTED], 7) == Some({1})
  {
    hide Step;
    assert [JOINED][..0] == [] && [JOINED, CONNECTED][..1] == [JOINED];
    assert PossibleRun(Start({}, 10), []) && PossibleRun(Start({}, 10), [JOINED]);
    assert Session([JOINED], 7) == None && Active([JOINED], 1, 7);
    ByHistory({}, 10, [JOINED], 1, 7);
  }

  /** A validator announced again while connected, now without its subnet, stays listed: the lists are not exact. */
  lemma ReconnectBreaks()
    ensures var ops := [JOINED, CONNECTED, AGAIN];
            !PossibleRun(Start({}, 10), ops) && !Exact(Run(Start({}, 10), ops))
  {
    hide Exact, Step;
    var before, ops := [JOINED, CONNECTED], [JOINED, CONNECTED, AGAIN];
    var st := Run(Start({}, 10), before);
    assert ops[..2] == before && ops[2] == AGAIN;
    BeforeReconnect();
    ByHistory({}, 10, before, 1, 7);
    RunExact({}, 10, before);
    assert Syncs(st, 1, 7) && MayGossip(st, 1, 7);
    ConnectExact(st, IP(7, 2, 0), {}, Some(10));
    StepOfConnect(st, IP(7, 2, 0), {}, Some(10));
  }

  lemma StepOfConnect(st: State, ip: IP, among: set<SubnetID>, r: Reset)
    ensures Step(st, OpConnect(ip, among, r)) == Connect(st, ip, among, r)
  {
  }

  /** The node was requested, or is active for some subnet. */
  ghost predicate Followed(local: set<SubnetID>, ops: seq<Op>, n: NodeID) {
    Requested(local, ops, n) || exists s :: Active(ops, s, n)
  }

  /** A node is tracked iff it was requested or is active for some subnet. */
  lemma TrackedByHistory(local: set<SubnetID>, maxCount: nat, ops: seq<Op>, n: NodeID)
    requires PossibleRun(Start(local, maxCount), ops)
    ensures n in Run(Start(local, maxCount), ops).tracked <==> Followed(local, ops, n)
  {
    hide Run, Step, Requested;
    var st := Run(Start(local, maxCount), ops);
    RunExact(local, maxCount, ops);
    ByHistory(local, maxCount, ops, PRIMARY, n);
    assert ReasonOk(st, n);
    if n in st.tracked && !st.tracked[n].manual {
      var s :| s in st.tracked[n].validated;
      ByHistory(local, maxCount, ops, s, n);
      assert PairOk(st, s, n);
    }
    if exists s :: Active(ops, s, n) {
      var s :| Active(ops, s, n);
      ByHistory(local, maxCount, ops, s, n);
      assert PairOk(st, s, n);
    }
    assert (exists s :: Active(ops, s, n)) ==> n in st.tracked;
    assert n in st.tracked ==> Requested(local, ops, n) || exists s :: Active(ops, s, n);
  }

  /** The node was requested or is active for a subnet of the local node. */
  ghost predicate Wanted(local: set<SubnetID>, ops: seq<Op>, n: NodeID) {
    Requested(local, ops, n) || exists s :: Active(ops, s, n) && (s == PRIMARY || s in local)
  }

  /** A connection is wanted iff the node was requested or is active for a subnet of the local node. */
  lemma WantedByHistory(local: set<SubnetID>, maxCount: nat, ops: seq<Op>, n: NodeID)
    requires PossibleRun(Start(local, maxCount), ops)
    ensures var st := Run(Start(local, maxCount), ops);
            n in st.tracked && WantsConnection(st.tracked[n]) <==> Wanted(local, ops, n)
  {
    hide Run, Step, Active, Requested;
    var st := Run(Start(local, maxCount), ops);
    RunExact(local, maxCount, ops);
    ByHistory(local, maxCount, ops, PRIMARY, n);
    assert ReasonOk(st, n);
    if n in st.tracked && st.tracked[n].subnets != {} {
      var s :| s in st.tracked[n].subnets;
      ByHistory(local, maxCount, ops, s, n);
      assert PairOk(st, s, n);
    }
    if exists s :: Active(ops, s, n) && IsLocal(st, s) {
      var s :| Active(ops, s, n) && IsLocal(st, s);
      ByHistory(local, maxCount, ops, s, n);
      assert PairOk(st, s, n);
    }
  }

  // ---------- the known IPs, read off the events ----------

  /** The IP the node connected with, if it has not disconnected since. */
  function SessionIP(ops: seq<Op>, n: NodeID): Option<IP> {
    if ops == [] then None else
      match ops[|ops| - 1]
      case OpConnect(ip, _, _) => if ip.node == n then Some(ip) else SessionIP(ops[..|ops| - 1], n)
      case OpDisconnect(m) => if m == n then None else SessionIP(ops[..|ops| - 1], n)
      case _ => SessionIP(ops[..|ops| - 1], n)
  }

  /** The IP an event brings of the node. */
  function Brought(op: Op, n: NodeID): Option<IP> {
    match op
    case OpAddIP(ip, _) => if ip.node == n then Some(ip) else None
    case OpConnect(ip, _, _) => if ip.node == n then Some(ip) else None
    case _ => None
  }

  /**
   The newest IP heard of a node since it is followed, the first of those with the same time; what counts when it
   begins to be followed is the IP of its connection.
   */
  ghost function Newest(local: set<SubnetID>, ops: seq<Op>, n: NodeID): Option<IP> {
    if ops == [] || !Followed(local, ops, n) then None else
      var init := ops[..|ops| - 1];
      if !Followed(local, init, n) then SessionIP(init, n) else
        var known, heard := Newest(local, init, n), Brought(ops[|ops| - 1], n);
        if heard.Some? && (known.None? || known.value.timestamp < heard.value.timestamp) then heard else known
  }

  /** What one step does to the record of a node, seen from outside. */
  ghost predicate RecordNext(st: State, op: Op, st': State, n: NodeID) {
    && (op.OpConnect? && op.ip.node == n ==> n in st'.connected && st'.connected[n].ip == op.ip)
    && (!(op.OpConnect? && op.ip.node == n) ==>
          (n in st'.connected <==> n in st.connected && op != OpDisconnect(n)) &&
          (n in st'.connected ==> st'.connected[n].ip == st.connected[n].ip))
    && (n in st'.tracked && n !in st.tracked ==>
          st'.tracked[n].ip == if n in st.connected then Some(st.connected[n].ip) else None)
    && (n in st'.tracked && n in st.tracked ==>
          var known, heard := st.tracked[n].ip, Brought(op, n);
          st'.tracked[n].ip ==
          if heard.Some? && (known.None? || known.value.timestamp < heard.value.timestamp) then heard else known)
  }

  lemma StepRecord(st: State, op: Op, n: NodeID)
    requires Exact(st)
    ensures RecordNext(st, op, Step(st, op), n)
  {
    assert NodeOk(st, n);
    hide Exact;
    match op
    case OpTrack(m, r) => TrackIs(st, m, None, r); hide Track;
    case OpGossip(t, m, r) => GossipRecord(st, t, m, r, n);
    case OpAddIP(ip, r) => if ip.node in st.tracked { UpdateIs(st, ip, r); } hide Update;
    case OpConnect(ip, among, r) => ConnectRecord(st, ip, among, r, n);
    case OpDisconnect(m) =>
    case OpAdded(t, m, r) => TrackIs(st, m, Some(t), r); hide Track;
    case OpRemoved(t, m) =>
    case OpReset(r) =>
  }

  lemma GossipRecord(st: State, t: SubnetID, m: NodeID, r: Reset, n: NodeID)
    requires NodeOk(st, n)
    ensures RecordNext(st, OpGossip(t, m, r), ManuallyGossip(st, t, m, r), n)
  {
    TrackIs(st, m, None, r);
    var st1 := if IsLocal(st, t) then Track(st, m, None, r) else st;
    TrackIs(st1, m, Some(t), r);
    hide Track;
  }

  lemma ConnectRecord(st: State, ip: IP, among: set<SubnetID>, r: Reset, n: NodeID)
    ensures RecordNext(st, OpConnect(ip, among, r), Connect(st, ip, among, r), n)
  {
    if ip.node in st.tracked { ConnectIs(st, ip, among, r); }
  }

  /** After any history the IP on record of a node is the newest heard of it since it is followed. */
  lemma {:induction false} NewestByHistory(local: set<SubnetID>, maxCount: nat, ops: seq<Op>, n: NodeID)
    requires PossibleRun(Start(local, maxCount), ops)
    ensures var st := Run(Start(local, maxCount), ops);
            && (n in st.tracked <==> Followed(local, ops, n))
            && (n in st.tracked ==> st.tracked[n].ip == Newest(local, ops, n))
            && (n in st.connected <==> SessionIP(ops, n).Some?)
            && (n in st.connected ==> st.connected[n].ip == SessionIP(ops, n).value)
  {
    hide Exact, Step, Requested, Active;
    TrackedByHistory(local, maxCount, ops, n);
    if ops != [] {
      var init, op := ops[..|ops| - 1], ops[|ops| - 1];
      var st := Run(Start(local, maxCount), init);
      NewestByHistory(local, maxCount, init, n);
      RunExact(local, maxCount, init);
      StepRecord(st, op, n);
    }
  }

  /**
   What `AddIP` answers after any history: that the IP is newer than what is known of a node that is followed, and
   that the connection is wanted.
   */
  lemma AnswerByHistory(local: set<SubnetID>, maxCount: nat, ops: seq<Op>, ip: IP)
    requires PossibleRun(Start(local, maxCount), ops)
    ensures Added(Run(Start(local, maxCount), ops), ip) <==>
            && Wanted(local, ops, ip.node)
            && (Newest(local, ops, ip.node).None? || Newest(local, ops, ip.node).value.timestamp < ip.timestamp)
  {
    hide Run, PossibleRun, Requested, Active, Newest;
    NewestByHistory(local, maxCount, ops, ip.node);
    WantedByHistory(local, maxCount, ops, ip.node);
  }

  // ---------- the filter ----------

  ghost predicate Quota(f: Filter) {
    forall n :: Additions(f, n) <= MAX_ENTRIES_PER_NODE
  }

  /** The known IP of the node is in the filter, or the node used up its additions. */
  predicate Covered(st: State, n: NodeID) {
    n in st.tracked && st.tracked[n].ip.Some? ==>
      Gossip(st.tracked[n].ip.value) in st.filter.entries || Additions(st.filter, n) == MAX_ENTRIES_PER_NODE
  }

  ghost predicate AllCovered(st: State) {
    forall n :: Covered(st, n)
  }

  lemma FreshCovers(tracked: map<NodeID, TrackedNode>, maxCount: nat, n: NodeID)
    ensures var f := FreshFilter(tracked, maxCount);
            && (n in tracked && tracked[n].ip.Some? ==> Gossip(tracked[n].ip.value) in f.entries)
            && Additions(f, n) == if n in tracked && tracked[n].ip.Some? then 1 else 0
  {
    var known := KnownIPs(tracked);
    assert n in tracked && tracked[n].ip.Some? ==> n in known;
  }

  /** Recording an IP covers it iff there was room, or the reset it asked for succeeded, or it was there. */
  lemma UpdateCovers(st: State, ip: IP, reset: Reset)
    requires ip.node in st.tracked && Quota(st.filter)
    ensures Covered(Update(st, ip, reset), ip.node) <==>
            || Additions(st.filter, ip.node) == MAX_ENTRIES_PER_NODE
            || st.filter.count < st.filter.maxCount
            || reset.Some?
            || Gossip(ip) in st.filter.entries
    ensures Quota(Update(st, ip, reset).filter)
  {
    var st' := Update(st, ip, reset);
    assert Additions(st.filter, ip.node) <= MAX_ENTRIES_PER_NODE;
    forall n ensures Additions(st'.filter, n) <= MAX_ENTRIES_PER_NODE {
      assert Additions(st.filter, n) <= MAX_ENTRIES_PER_NODE;
      if reset.Some? { FreshCovers(st'.tracked, reset.value, n); }
    }
    if reset.Some? { FreshCovers(st'.tracked, reset.value, ip.node); }
  }

  /** Recording an IP uncovers no other node. */
  lemma UpdateCoversOthers(st: State, ip: IP, reset: Reset, n: NodeID)
    requires ip.node in st.tracked && n != ip.node && Covered(st, n)
    ensures Covered(Update(st, ip, reset), n)
  {
    var st' := Update(st, ip, reset);
    if reset.Some? { FreshCovers(st'.tracked, reset.value, n); }
  }

  predicate ResetsSucceed(op: Op) {
    match op
    case OpTrack(_, r) => r.Some?
    case OpGossip(_, _, r) => r.Some?
    case OpAddIP(_, r) => r.Some?
    case OpConnect(_, _, r) => r.Some?
    case OpAdded(_, _, r) => r.Some?
    case _ => true
  }

  lemma UpdateKeeps(st: State, ip: IP, reset: Reset)
    requires ip.node in st.tracked && Quota(st.filter)
    ensures Quota(Update(st, ip, reset).filter)
    ensures AllCovered(st) && reset.Some? ==> AllCovered(Update(st, ip, reset))
  {
    hide Update;
    UpdateCovers(st, ip, reset);
    if AllCovered(st) && reset.Some? {
      forall n ensures Covered(Update(st, ip, reset), n) {
        assert Covered(st, n);
        if n != ip.node { UpdateCoversOthers(st, ip, reset, n); }
      }
    }
  }

  lemma TrackKeeps(st: State, n: NodeID, s: Option<SubnetID>, reset: Reset)
    requires Quota(st.filter)
    ensures Quota(Track(st, n, s, reset).filter)
    ensures AllCovered(st) && reset.Some? ==> AllCovered(Track(st, n, s, reset))
  {
    var st1 := st.(tracked := st.tracked[n := Trackable(st, n, s)]);
    if AllCovered(st) {
      forall m ensures Covered(st1, m) { assert Covered(st, m); }
    }
    if n !in st.tracked && n in st.connected && st.connected[n].ip.node == n {
      UpdateKeeps(st1, st.connected[n].ip, reset);
    }
  }

  /** The list of a subnet is no business of the filter. */
  lemma SubnetsAside(st: State, st': State)
    requires st'.tracked == st.tracked && st'.filter == st.filter
    ensures AllCovered(st) ==> AllCovered(st')
  {
    forall n ensures Covered(st, n) ==> Covered(st', n) {
    }
  }

  lemma LearnKeeps(st: State, ip: IP, reset: Reset)
    requires Quota(st.filter)
    ensures Quota(LearnIP(st, ip, reset).filter)
    ensures AllCovered(st) && reset.Some? ==> AllCovered(LearnIP(st, ip, reset))
  {
    if ip.node in st.tracked { UpdateKeeps(st, ip, reset); }
  }

  lemma StepKeeps(st: State, op: Op)
    requires Quota(st.filter)
    ensures Quota(Step(st, op).filter)
    ensures AllCovered(st) && ResetsSucceed(op) ==> AllCovered(Step(st, op))
  {
    hide AllCovered, Quota;
    match op
    case OpTrack(n, r) => TrackKeeps(st, n, None, r);
    case OpGossip(s, n, r) =>
      var st1 := if IsLocal(st, s) then Track(st, n, None, r) else st;
      var st2 := Track(st1, n, Some(s), r);
      TrackKeeps(st, n, None, r);
      TrackKeeps(st1, n, Some(s), r);
      SubnetsAside(st2, Allow(st2, n, s, true));
    case OpAddIP(ip, r) =>
      LearnKeeps(st, ip, r);
      SubnetsAside(LearnIP(st, ip, r), AddIP(st, ip, r));
    case OpConnect(ip, among, r) =>
      var st1 := st.(connected := st.connected[ip.node := ConnectedNode(among, ip)]);
      SubnetsAside(st, st1);
      LearnKeeps(st1, ip, r);
      SubnetsAside(LearnIP(st1, ip, r), Connect(st, ip, among, r));
    case OpDisconnect(n) => SubnetsAside(st, Disconnect(st, n));
    case OpAdded(s, n, r) =>
      var st2 := Track(st, n, Some(s), r);
      TrackKeeps(st, n, Some(s), r);
      SubnetsAside(st2, Allow(st2, n, s, false));
    case OpRemoved(s, n) => RemovedKeeps(st, s, n);
    case OpReset(r) => ResetKeeps(st, r);
  }

  lemma RemovedKeeps(st: State, s: SubnetID, n: NodeID)
    ensures AllCovered(st) ==> AllCovered(ValidatorRemoved(st, s, n))
    ensures ValidatorRemoved(st, s, n).filter == st.filter
  {
    forall m ensures Covered(st, m) ==> Covered(ValidatorRemoved(st, s, n), m) {
    }
  }

  lemma ResetKeeps(st: State, reset: Reset)
    requires Quota(st.filter)
    ensures Quota(ResetFilter(st, reset).filter)
    ensures AllCovered(st) || reset.Some? ==> AllCovered(ResetFilter(st, reset))
  {
    if reset.Some? {
      forall n ensures Additions(FreshFilter(st.tracked, reset.value), n) <= 1 && Covered(ResetFilter(st, reset), n) {
        FreshCovers(st.tracked, reset.value, n);
      }
    }
  }

  /**
   No node ever has more than two entries added between resets. If the resets asked for by updates
   succeed, every known IP is in the filter or its node has used both additions.
   */
  lemma {:induction false} RunCovered(local: set<SubnetID>, maxCount: nat, ops: seq<Op>)
    ensures Quota(Run(Start(local, maxCount), ops).filter)
    ensures (forall i :: 0 <= i < |ops| ==> ResetsSucceed(ops[i])) ==> AllCovered(Run(Start(local, maxCount), ops))
  {
    hide Step;
    if ops != [] {
      var n := |ops| - 1;
      RunCovered(local, maxCount, ops[..n]);
      StepKeeps(Run(Start(local, maxCount), ops[..n]), ops[n]);
    }
  }

  /** A reset that fails leaves a known IP out of the filter though its node has additions left. */
  lemma FailedResetUncovers()
    ensures var ops := [OpTrack(1, Some(1)), OpTrack(2, Some(1)), OpAddIP(IP(1, 5, 7), Some(1)),
                        OpAddIP(IP(2, 5, 7), None)];
            !Covered(Run(Start({}, 1), ops), 2)
  {
    var st := Start({}, 1);
    var ops := [OpTrack(1, Some(1)), OpTrack(2, Some(1)), OpAddIP(IP(1, 5, 7), Some(1)), OpAddIP(IP(2, 5, 7), None)];
    var s1 := Step(st, ops[0]);
    var s2 := Step(s1, ops[1]);
    var s3 := Step(s2, ops[2]);
    assert Run(st, ops[..1]) == s1 by { assert ops[..1][..0] == []; }
    assert Run(st, ops[..2]) == s2 by { assert ops[..2][..1] == ops[..1]; }
    assert Run(st, ops[..3]) == s3 by { assert ops[..3][..2] == ops[..2]; }
    assert ops[..|ops| - 1] == ops[..3];
    assert s3.filter == Filter({GossipID(1, 5)}, map[1 := 1], 1, 1);
    UpdateCovers(s3, IP(2, 5, 7), None);
  }
}
