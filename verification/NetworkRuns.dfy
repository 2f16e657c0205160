/**
 Whole runs of the network: what the tracker and the router are told alternates for every node, the beacon
 count is exact, and the tracker's lists are exact as a consequence.
 */
module NetworkRuns {
  import opened Results
  import opened Network
  import Tracker
  import TrackerRuns

  // ---------- what was told ----------

  /** The last the tracker heard of the node is that it connected. */
  predicate TrackerUp(log: seq<Call>, n: Tracker.NodeID) {
    log != [] &&
    match log[|log| - 1]
    case TrackerConnected(m) => m == n || TrackerUp(log[..|log| - 1], n)
    case TrackerDisconnected(m) => m != n && TrackerUp(log[..|log| - 1], n)
    case _ => TrackerUp(log[..|log| - 1], n)
  }

  predicate RouterUp(log: seq<Call>, n: Tracker.NodeID) {
    log != [] &&
    match log[|log| - 1]
    case RouterConnected(m) => m == n || RouterUp(log[..|log| - 1], n)
    case RouterDisconnected(m) => m != n && RouterUp(log[..|log| - 1], n)
    case _ => RouterUp(log[..|log| - 1], n)
  }

  /** For each node the calls to the tracker alternate, starting with connected, and so do those to the router. */
  predicate Alternates(log: seq<Call>) {
    log == [] ||
    (&& Alternates(log[..|log| - 1])
     && match log[|log| - 1]
        case TrackerConnected(n) => !TrackerUp(log[..|log| - 1], n)
        case TrackerDisconnected(n) => TrackerUp(log[..|log| - 1], n)
        case RouterConnected(n) => !RouterUp(log[..|log| - 1], n)
        case RouterDisconnected(n) => RouterUp(log[..|log| - 1], n))
  }

  ghost function UpBeacons(log: seq<Call>, beacons: set<Tracker.NodeID>): set<Tracker.NodeID> {
    set n | n in beacons && RouterUp(log, n)
  }

  /** Some beacon that connected found enough beacons connected. */
  ghost predicate Reached(log: seq<Call>, beacons: set<Tracker.NodeID>, required: int) {
    log != [] &&
    (Reached(log[..|log| - 1], beacons, required)
     || (log[|log| - 1].RouterConnected? && log[|log| - 1].node in beacons && |UpBeacons(log, beacons)| >= required))
  }

  predicate Between(side: Side, n: Tracker.NodeID, during: set<Progress>) {
    n in side.connected && side.connected[n] in side.peers && side.peers[side.connected[n]].progress in during
  }

  const TRACKER_KNOWS: set<Progress> := {ToRouter, Ready, Leaving(false, true)}
  const ROUTER_KNOWS: set<Progress> := {Ready, Leaving(false, true), FromRouter}

  /** What was told about a node says how far its peer is. */
  ghost predicate Spoken(s: Net) {
    && Alternates(s.told.log)
    && (forall n :: TrackerUp(s.told.log, n) <==> Between(s.side, n, TRACKER_KNOWS))
    && (forall n :: RouterUp(s.told.log, n) <==> Between(s.side, n, ROUTER_KNOWS))
  }

  ghost predicate Counted(told: Told, beacons: set<Tracker.NodeID>, required: int) {
    told.numConns == |UpBeacons(told.log, beacons)| && (told.sufficient <==> Reached(told.log, beacons, required))
  }

  lemma LastCall(log: seq<Call>, c: Call, n: Tracker.NodeID)
    ensures (log + [c])[..|log|] == log
    ensures TrackerUp(log + [c], n) <==>
            if c == TrackerConnected(n) then true
            else if c == TrackerDisconnected(n) then false else TrackerUp(log, n)
    ensures RouterUp(log + [c], n) <==>
            (if c == RouterConnected(n) then true else if c == RouterDisconnected(n) then false else RouterUp(log, n))
  {
    assert (log + [c])[..|log|] == log;
  }

  /** A step that tells nothing moves no peer past a call. */
  lemma SilentSpoken(s: Net, s': Net)
    requires Spoken(s) && s'.told == s.told
    requires forall n :: Between(s'.side, n, TRACKER_KNOWS) <==> Between(s.side, n, TRACKER_KNOWS)
    requires forall n :: Between(s'.side, n, ROUTER_KNOWS) <==> Between(s.side, n, ROUTER_KNOWS)
    ensures Spoken(s')
  {
  }

  /** A step that tells something moves the one peer it is about past the call. */
  lemma TellingSpoken(s: Net, s': Net, c: Call)
    requires Spoken(s) && s'.told.log == s.told.log + [c]
    requires forall n :: n != c.node ==> (Between(s'.side, n, TRACKER_KNOWS) <==> Between(s.side, n, TRACKER_KNOWS))
    requires forall n :: n != c.node ==> (Between(s'.side, n, ROUTER_KNOWS) <==> Between(s.side, n, ROUTER_KNOWS))
    requires c.TrackerConnected? || c.TrackerDisconnected? ==>
               (Between(s'.side, c.node, TRACKER_KNOWS) <==> c.TrackerConnected?) &&
               (Between(s.side, c.node, TRACKER_KNOWS) <==> c.TrackerDisconnected?)
    requires c.TrackerConnected? || c.TrackerDisconnected? ==>
             (Between(s'.side, c.node, ROUTER_KNOWS) <==> Between(s.side, c.node, ROUTER_KNOWS))
    requires c.RouterConnected? || c.RouterDisconnected? ==>
               (Between(s'.side, c.node, ROUTER_KNOWS) <==> c.RouterConnected?) &&
               (Between(s.side, c.node, ROUTER_KNOWS) <==> c.RouterDisconnected?)
    requires c.RouterConnected? || c.RouterDisconnected? ==>
             (Between(s'.side, c.node, TRACKER_KNOWS) <==> Between(s.side, c.node, TRACKER_KNOWS))
    ensures Spoken(s')
  {
    hide Between;
    forall n
      ensures TrackerUp(s'.told.log, n) <==> Between(s'.side, n, TRACKER_KNOWS)
      ensures RouterUp(s'.told.log, n) <==> Between(s'.side, n, ROUTER_KNOWS)
    {
      LastCall(s.told.log, c, n);
    }
    LastCall(s.told.log, c, c.node);
    assert TrackerUp(s.told.log, c.node) <==> Between(s.side, c.node, TRACKER_KNOWS);
    assert RouterUp(s.told.log, c.node) <==> Between(s.side, c.node, ROUTER_KNOWS);
  }

  lemma {:induction false} MoveBetween(side: Side, p: Serial, progress: Progress, n: Tracker.NodeID,
                                       during: set<Progress>)
    requires Peers(side) && p in side.peers && InConnected(side.peers[p].progress)
    ensures Between(Move(side, p, progress), n, during) <==>
            if n == side.peers[p].node then progress in during else Between(side, n, during)
  {
    assert PeerOk(side, p) && FiledOk(side, n);
  }

  lemma TellSpoken(s: Net, p: Serial, progress: Progress, c: Call, s': Net)
    requires Peers(s.side) && Spoken(s) && p in s.side.peers && InConnected(s.side.peers[p].progress)
    requires s'.side == Move(s.side, p, progress) && s'.told.log == s.told.log + [c] && c.node == s.side.peers[p].node
    requires var before := s.side.peers[p].progress;
             match c
             case TrackerConnected(_) => before == ToTracker && progress == ToRouter
             case RouterConnected(_) => before == ToRouter && progress == Ready
             case TrackerDisconnected(_) => before == Leaving(false, true) && progress == FromRouter
             case RouterDisconnected(_) => before == FromRouter && progress == FromNetwork
    ensures Spoken(s')
  {
    hide Spoken, Peers;
    forall n
      ensures Between(s'.side, n, TRACKER_KNOWS) <==>
              if n == c.node then progress in TRACKER_KNOWS else Between(s.side, n, TRACKER_KNOWS)
      ensures Between(s'.side, n, ROUTER_KNOWS) <==>
              if n == c.node then progress in ROUTER_KNOWS else Between(s.side, n, ROUTER_KNOWS)
    {
      MoveBetween(s.side, p, progress, n, TRACKER_KNOWS);
      MoveBetween(s.side, p, progress, n, ROUTER_KNOWS);
    }
    Whose(s.side, p);
    TellingSpoken(s, s', c);
  }

  lemma Whose(side: Side, p: Serial)
    requires Peers(side) && p in side.peers && InConnected(side.peers[p].progress)
    ensures side.peers[p].node in side.connected && side.connected[side.peers[p].node] == p
  {
    assert PeerOk(side, p);
  }

  /** The steps that tell nothing. */
  lemma {:induction false} SilentBetween(s: Net, step: Step, n: Tracker.NodeID)
    requires Peers(s.side) && Enabled(s, step)
    requires !step.TellTracker? && !step.TellRouter? && !step.UntellTracker? && !step.UntellRouter?
    ensures Between(SideAfter(s, step), n, TRACKER_KNOWS) <==> Between(s.side, n, TRACKER_KNOWS)
    ensures Between(SideAfter(s, step), n, ROUTER_KNOWS) <==> Between(s.side, n, ROUTER_KNOWS)
  {
    assert FiledOk(s.side, n);
    if n in s.side.connected { assert PeerOk(s.side, s.side.connected[n]); }
    match step
    case Upgraded(m) => assert FiledOk(s.side, m);
    case PeerConnected(p) => assert PeerOk(s.side, p) && FiledOk(s.side, s.side.peers[p].node);
    case PeerDisconnected(p) => assert PeerOk(s.side, p) && FiledOk(s.side, s.side.peers[p].node);
    case LeaveConnecting(p, _) => assert PeerOk(s.side, p);
    case LeaveConnected(p, _) => assert PeerOk(s.side, p);
    case _ =>
  }

  lemma StepSpoken(s: Net, step: Step, beacons: set<Tracker.NodeID>, required: int)
    requires Peers(s.side) && Spoken(s) && Enabled(s, step)
    ensures Spoken(Do(s, step, beacons, required))
  {
    var s' := Do(s, step, beacons, required);
    hide Spoken, Peers, DialsAfter, Move;
    match step
    case TellTracker(p) => TellSpoken(s, p, ToRouter, TrackerConnected(s.side.peers[p].node), s');
    case TellRouter(p) => TellSpoken(s, p, Ready, RouterConnected(s.side.peers[p].node), s');
    case UntellTracker(p) => TellSpoken(s, p, FromRouter, TrackerDisconnected(s.side.peers[p].node), s');
    case UntellRouter(p) => TellSpoken(s, p, FromNetwork, RouterDisconnected(s.side.peers[p].node), s');
    case _ =>
      forall n
        ensures Between(s'.side, n, TRACKER_KNOWS) <==> Between(s.side, n, TRACKER_KNOWS)
        ensures Between(s'.side, n, ROUTER_KNOWS) <==> Between(s.side, n, ROUTER_KNOWS)
      {
        SilentBetween(s, step, n);
      }
      SilentSpoken(s, s');
  }

  // ---------- the beacons ----------

  lemma BeaconsAfter(log: seq<Call>, c: Call, beacons: set<Tracker.NodeID>)
    ensures UpBeacons(log + [c], beacons) ==
            if c.RouterConnected? && c.node in beacons then UpBeacons(log, beacons) + {c.node}
            else if c.RouterDisconnected? then UpBeacons(log, beacons) - {c.node}
            else UpBeacons(log, beacons)
  {
    forall n
      ensures RouterUp(log + [c], n) <==>
              (if c == RouterConnected(n) then true else if c == RouterDisconnected(n) then false else RouterUp(log, n))
    {
      LastCall(log, c, n);
    }
  }

  lemma ToldCounted(told: Told, told': Told, c: Call, beacons: set<Tracker.NodeID>, required: int)
    requires Counted(told, beacons, required)
    requires match c
             case RouterConnected(n) => !RouterUp(told.log, n) && told' == RouterTold(told, n, beacons, required)
             case RouterDisconnected(n) => RouterUp(told.log, n) && told' == RouterUntold(told, n, beacons)
             case _ => told' == told.(log := told.log + [c])
    ensures Counted(told', beacons, required)
  {
    hide RouterUp, TrackerUp;
    assert (told.log + [c])[..|told.log|] == told.log;
    BeaconsAfter(told.log, c, beacons);
    if c.RouterConnected? && c.node in beacons { assert c.node !in UpBeacons(told.log, beacons); }
    if c.RouterDisconnected? && c.node in beacons { assert c.node in UpBeacons(told.log, beacons); }
    if c.RouterDisconnected? && c.node !in beacons {
      assert UpBeacons(told.log, beacons) - {c.node} == UpBeacons(told.log, beacons);
    }
  }

  lemma StepCounted(s: Net, step: Step, beacons: set<Tracker.NodeID>, required: int)
    requires Peers(s.side) && Spoken(s) && Counted(s.told, beacons, required) && Enabled(s, step)
    ensures Counted(Do(s, step, beacons, required).told, beacons, required)
  {
    hide Counted, Peers, SideAfter, DialsAfter, RouterTold, RouterUntold, RouterUp;
    var told' := Do(s, step, beacons, required).told;
    match step
    case TellTracker(p) => ToldCounted(s.told, told', TrackerConnected(s.side.peers[p].node), beacons, required);
    case UntellTracker(p) => ToldCounted(s.told, told', TrackerDisconnected(s.side.peers[p].node), beacons, required);
    case TellRouter(p) =>
      Whose(s.side, p);
      assert !Between(s.side, s.side.peers[p].node, ROUTER_KNOWS);
      ToldCounted(s.told, told', RouterConnected(s.side.peers[p].node), beacons, required);
    case UntellRouter(p) =>
      Whose(s.side, p);
      assert Between(s.side, s.side.peers[p].node, ROUTER_KNOWS);
      ToldCounted(s.told, told', RouterDisconnected(s.side.peers[p].node), beacons, required);
    case _ =>
  }

  // ---------- runs ----------

  ghost predicate IsRun(states: seq<Net>, steps: seq<Step>, beacons: set<Tracker.NodeID>, required: int) {
    && |states| == |steps| + 1
    && states[0] == Start()
    && forall i :: 0 <= i < |steps| ==>
       Enabled(states[i], steps[i]) && states[i + 1] == Do(states[i], steps[i], beacons, required)
  }

  ghost predicate Inv(s: Net, beacons: set<Tracker.NodeID>, required: int) {
    Peers(s.side) && Targets(s.dials, s.side) && Spoken(s) && Counted(s.told, beacons, required)
  }

  lemma StartInv(beacons: set<Tracker.NodeID>, required: int)
    ensures Inv(Start(), beacons, required)
  {
    assert UpBeacons([], beacons) == {};
  }

  /** In every reachable state of every interleaving. */
  lemma {:induction false} RunInv(states: seq<Net>, steps: seq<Step>, beacons: set<Tracker.NodeID>, required: int,
                                  n: nat)
    requires IsRun(states, steps, beacons, required) && n <= |steps|
    ensures Inv(states[n], beacons, required)
  {
    hide Peers, Targets, Spoken, Counted;
    if n == 0 {
      StartInv(beacons, required);
    } else {
      RunInv(states, steps, beacons, required, n - 1);
      var s, step := states[n - 1], steps[n - 1];
      StepPeers(s, step);
      StepTargets(s, step);
      StepSpoken(s, step, beacons, required);
      StepCounted(s, step, beacons, required);
    }
  }

  /** What the run has told alternates, and the beacon count is the number of beacons the router knows connected. */
  lemma LifeCycle(states: seq<Net>, steps: seq<Step>, beacons: set<Tracker.NodeID>, required: int, n: nat)
    requires IsRun(states, steps, beacons, required) && n <= |steps|
    ensures Alternates(states[n].told.log)
    ensures states[n].side.connecting.Keys !! states[n].side.connected.Keys
    ensures !states[n].side.unexpected
    ensures states[n].told.numConns == |UpBeacons(states[n].told.log, beacons)|
    ensures states[n].told.sufficient <==> Reached(states[n].told.log, beacons, required)
  {
    RunInv(states, steps, beacons, required, n);
    var side := states[n].side;
    forall m | m in side.connecting ensures m !in side.connected {
      assert FiledOk(side, m);
    }
  }

  /** At every moment of every run: exactly who is dialed next, who joins and leaves, and no one else is touched. */
  lemma NextInRuns(states: seq<Net>, steps: seq<Step>, beacons: set<Tracker.NodeID>, required: int, i: nat,
                   n: Tracker.NodeID, loop: Serial)
    requires IsRun(states, steps, beacons, required) && i < |steps|
    ensures Dialed(states[i + 1].dials, n) <==> DialedNext(states[i], steps[i], n)
    ensures !Concerns(states[i], steps[i], n) ==> SameTarget(states[i].dials, states[i + 1].dials, n)
    ensures LoopNext(states[i], steps[i], loop, states[i + 1].dials)
    ensures MembersNext(states[i], steps[i], n, states[i + 1].side)
  {
    hide Peers, Targets, Spoken, Counted, SideAfter, DialsAfter, ToldAfter, Dialed, DialedNext, SameTarget, Concerns,
         LoopNext, MembersNext;
    RunInv(states, steps, beacons, required, i);
    var s, step := states[i], steps[i];
    StepDialed(s, step, n);
    StepLoops(s, step, loop);
    StepMembers(s, step, n);
    if !Concerns(s, step, n) { StepSameTargets(s, step, n); }
  }

  /** From the moment the network is closing on, whoever is in a set was in one then. */
  lemma {:induction false} NoneEnterAfterClosing(states: seq<Net>, steps: seq<Step>, beacons: set<Tracker.NodeID>,
                                                 required: int, i: nat, j: nat, n: Tracker.NodeID)
    requires IsRun(states, steps, beacons, required) && i <= j <= |steps| && states[i].side.closing
    ensures states[j].side.closing
    ensures n in states[j].side.connecting ==> n in states[i].side.connecting
    ensures n in states[j].side.connected ==> n in states[i].side.connected || n in states[i].side.connecting
  {
    hide SideAfter, DialsAfter, ToldAfter;
    if i < j {
      NoneEnterAfterClosing(states, steps, beacons, required, i, j - 1, n);
      ClosingOnlyShrinks(states[j - 1], steps[j - 1], n);
    }
  }

  // ---------- the tracker in such a run ----------

  /** The calls about connections among the operations of a tracker. */
  function Calls(ops: seq<Tracker.Op>): seq<Call> {
    if ops == [] then [] else
      Calls(ops[..|ops| - 1]) +
        match ops[|ops| - 1]
        case OpConnect(ip, _, _) => [TrackerConnected(ip.node)]
        case OpDisconnect(n) => [TrackerDisconnected(n)]
        case _ => []
  }

  function ToTrackerOnly(log: seq<Call>): seq<Call> {
    if log == [] then [] else
      ToTrackerOnly(log[..|log| - 1]) +
        match log[|log| - 1]
        case TrackerConnected(n) => [TrackerConnected(n)]
        case TrackerDisconnected(n) => [TrackerDisconnected(n)]
        case _ => []
  }

  lemma {:induction false} OnlyAlternates(log: seq<Call>)
    requires Alternates(log)
    ensures Alternates(ToTrackerOnly(log))
    ensures forall n :: TrackerUp(ToTrackerOnly(log), n) <==> TrackerUp(log, n)
  {
    if log != [] {
      var init, c := log[..|log| - 1], log[|log| - 1];
      OnlyAlternates(init);
      if c.TrackerConnected? || c.TrackerDisconnected? {
        assert ToTrackerOnly(log) == ToTrackerOnly(init) + [c];
        LastCall(ToTrackerOnly(init), c, c.node);
        forall n ensures TrackerUp(ToTrackerOnly(log), n) <==> TrackerUp(log, n) {
          LastCall(ToTrackerOnly(init), c, n);
        }
      } else {
        assert ToTrackerOnly(log) == ToTrackerOnly(init);
      }
    }
  }

  lemma {:induction false} AlternatingIsPossible(st: Tracker.State, ops: seq<Tracker.Op>)
    requires st.connected == map[] && Alternates(Calls(ops))
    ensures TrackerRuns.PossibleRun(st, ops)
    ensures forall n :: n in TrackerRuns.Run(st, ops).connected <==> TrackerUp(Calls(ops), n)
  {
    hide Tracker.Step;
    if ops != [] {
      var init, op := ops[..|ops| - 1], ops[|ops| - 1];
      var st1 := TrackerRuns.Run(st, init);
      if op.OpConnect? || op.OpDisconnect? {
        var c := if op.OpConnect? then TrackerConnected(op.ip.node) else TrackerDisconnected(op.node);
        LastCall(Calls(init), c, c.node);
        AlternatingIsPossible(st, init);
        ConnectedAfter(st1, op);
        forall n ensures n in TrackerRuns.Run(st, ops).connected <==> TrackerUp(Calls(ops), n) {
          LastCall(Calls(init), c, n);
        }
      } else {
        assert Calls(ops) == Calls(init);
        AlternatingIsPossible(st, init);
        ConnectedAfter(st1, op);
      }
    }
  }

  lemma ConnectedAfter(st: Tracker.State, op: Tracker.Op)
    ensures Tracker.Step(st, op).connected.Keys ==
            match op
            case OpConnect(ip, _, _) => st.connected.Keys + {ip.node}
            case OpDisconnect(n) => st.connected.Keys - {n}
            case _ => st.connected.Keys
  {
    hide Tracker.Track, Tracker.ManuallyGossip, Tracker.ValidatorAdded, Tracker.AddIP, Tracker.Connect;
    match op
    case OpTrack(n, r) => Tracker.TrackIs(st, n, None, r);
    case OpGossip(s, n, r) => TrackerRuns.GossipSeen(st, s, n, r, s, n);
    case OpAddIP(ip, r) => TrackerRuns.AddIPSeen(st, ip, r, 0, ip.node);
    case OpConnect(ip, among, r) => TrackerRuns.ConnectSeen(st, ip, among, r, 0, ip.node);
    case OpAdded(s, n, r) => TrackerRuns.AddedSeen(st, s, n, r, s, n);
    case _ =>
  }

  /**
   However the network's steps interleave, if the tracker's connections are the ones the run announced,
   then the tracker's gossip lists are exact.
   */
  lemma TrackerExact(states: seq<Net>, steps: seq<Step>, beacons: set<Tracker.NodeID>, required: int, n: nat,
                     local: set<Tracker.SubnetID>, maxCount: nat, ops: seq<Tracker.Op>)
    requires IsRun(states, steps, beacons, required) && n <= |steps|
    requires Calls(ops) == ToTrackerOnly(states[n].told.log)
    ensures Tracker.Exact(TrackerRuns.Run(Tracker.Start(local, maxCount), ops))
  {
    hide Tracker.Exact, TrackerRuns.Run, TrackerRuns.PossibleRun;
    LifeCycle(states, steps, beacons, required, n);
    OnlyAlternates(states[n].told.log);
    AlternatingIsPossible(Tracker.Start(local, maxCount), ops);
    TrackerRuns.RunExact(local, maxCount, ops);
  }
}
