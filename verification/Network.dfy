/**
 The life of peers and of dial attempts: every section the network runs under its lock, and every call it
 makes to the IP tracker and to the router, is a step, and any of them may interleave.
 */
module Network {
  import opened Tracker

  /** Peer objects and dial targets are numbered in the order they are made. */
  type Serial = nat

  /** How far a peer has come; its own calls come one after the other. */
  datatype Progress =
    | Handshaking
    | ToTracker      // moved to the connected peers, the tracker comes next
    | ToRouter       // the router comes next
    | Ready
    | Leaving(connecting: bool, connected: bool)  // what it saw itself among when it disconnected
    | FromRouter     // the tracker was told, the router comes next
    | FromNetwork    // both were told
    | Gone

  datatype Peer = Peer(node: NodeID, progress: Progress)

  /** The peers: every one ever started, and the two sets they are in. */
  datatype Side = Side(
    peers: map<Serial, Peer>,
    connecting: map<NodeID, Serial>,
    connected: map<NodeID, Serial>,
    closing: bool,
    unexpected: bool,  // a peer connected without being marked as connecting
    next: Serial)

  datatype TrackedIP = TrackedIP(node: NodeID, stopped: bool)

  datatype Loop = Sleeping | Dialing

  /** The dial targets: every one ever made, the current one of a node, and the running loops. */
  datatype Dials = Dials(ips: map<Serial, TrackedIP>, entries: map<NodeID, Serial>, loops: map<Serial, Loop>,
                         next: Serial)

  datatype Call =
    | TrackerConnected(node: NodeID)
    | TrackerDisconnected(node: NodeID)
    | RouterConnected(node: NodeID)
    | RouterDisconnected(node: NodeID)

  /** What the tracker and the router were told, and the count of connected beacons. */
  datatype Told = Told(log: seq<Call>, numConns: int, sufficient: bool)

  datatype Net = Net(side: Side, dials: Dials, told: Told)

  datatype Step =
    | Upgraded(node: NodeID)                       // the locked end of `upgrade`
    | PeerConnected(peer: Serial)                  // the locked part of `Connected`
    | TellTracker(peer: Serial)
    | TellRouter(peer: Serial)
    | PeerDisconnected(peer: Serial)               // `Disconnected` looks where the node is
    | LeaveConnecting(peer: Serial, wants: bool)   // `disconnectedFromConnecting`
    | UntellTracker(peer: Serial)
    | UntellRouter(peer: Serial)
    | LeaveConnected(peer: Serial, wants: bool)    // the locked part of `disconnectedFromConnected`
    | ManuallyTrack(node: NodeID)
    | TrackIP(node: NodeID, added: bool)           // the locked part of `track`
    | LoopExits(ip: Serial)
    | LoopWakes(ip: Serial, wants: bool)           // the locked part of a dial loop
    | LoopFails(ip: Serial)
    | LoopSucceeds(ip: Serial)
    | StartClose

  // ---------- the steps ----------

  predicate At(side: Side, p: Serial, progress: Progress) {
    p in side.peers && side.peers[p].progress == progress
  }

  predicate Enabled(s: Net, step: Step) {
    match step
    case PeerConnected(p) => At(s.side, p, Handshaking)
    case TellTracker(p) => At(s.side, p, ToTracker)
    case TellRouter(p) => At(s.side, p, ToRouter)
    case PeerDisconnected(p) => At(s.side, p, Handshaking) || At(s.side, p, Ready)
    case LeaveConnecting(p, _) =>
      p in s.side.peers && s.side.peers[p].progress.Leaving? && s.side.peers[p].progress.connecting
    case UntellTracker(p) => At(s.side, p, Leaving(false, true))
    case UntellRouter(p) => At(s.side, p, FromRouter)
    case LeaveConnected(p, _) => At(s.side, p, FromNetwork)
    case LoopExits(i) =>
      i in s.dials.loops && s.dials.loops[i].Sleeping? && i in s.dials.ips && (s.dials.ips[i].stopped || s.side.closing)
    case LoopWakes(i, _) => i in s.dials.loops && s.dials.loops[i].Sleeping? && i in s.dials.ips
    case LoopFails(i) => i in s.dials.loops && s.dials.loops[i].Dialing?
    case LoopSucceeds(i) => i in s.dials.loops && s.dials.loops[i].Dialing?
    case _ => true
  }

  function Move(side: Side, p: Serial, progress: Progress): Side
    requires p in side.peers
  {
    side.(peers := side.peers[p := side.peers[p].(progress := progress)])
  }

  function Upgrade(side: Side, n: NodeID): Side {
    if side.closing || n in side.connecting || n in side.connected then side
    else side.(peers := side.peers[side.next := Peer(n, Handshaking)], connecting := side.connecting[n := side.next],
               next := side.next + 1)
  }

  function MarkConnected(side: Side, p: Serial): Side
    requires p in side.peers
  {
    var n := side.peers[p].node;
    if n !in side.connecting then Move(side, p, Ready).(unexpected := true)
    else Move(side, p, ToTracker).(connecting := side.connecting - {n},
                                   connected := side.connected[n := side.connecting[n]])
  }

  function SeeDisconnected(side: Side, p: Serial): Side
    requires p in side.peers
  {
    var n := side.peers[p].node;
    var left := n in side.connecting || n in side.connected;
    Move(side, p, if left then Leaving(n in side.connecting, n in side.connected) else Gone)
  }

  function RemoveConnecting(side: Side, p: Serial): Side
    requires p in side.peers && side.peers[p].progress.Leaving?
  {
    var progress := if side.peers[p].progress.connected then Leaving(false, true) else Gone;
    Move(side, p, progress).(connecting := side.connecting - {side.peers[p].node})
  }

  function RemoveConnected(side: Side, p: Serial): Side
    requires p in side.peers
  {
    Move(side, p, Gone).(connected := side.connected - {side.peers[p].node})
  }

  /** What a step does to the peers. */
  function SideAfter(s: Net, step: Step): Side
    requires Enabled(s, step)
  {
    match step
    case Upgraded(n) => Upgrade(s.side, n)
    case PeerConnected(p) => MarkConnected(s.side, p)
    case TellTracker(p) => Move(s.side, p, ToRouter)
    case TellRouter(p) => Move(s.side, p, Ready)
    case PeerDisconnected(p) => SeeDisconnected(s.side, p)
    case LeaveConnecting(p, _) => RemoveConnecting(s.side, p)
    case UntellTracker(p) => Move(s.side, p, FromRouter)
    case UntellRouter(p) => Move(s.side, p, FromNetwork)
    case LeaveConnected(p, _) => RemoveConnected(s.side, p)
    case StartClose => s.side.(closing := true)
    case _ => s.side
  }

  /** Stops the current target of a node and forgets it. */
  function StopEntry(d: Dials, n: NodeID): Dials {
    if n !in d.entries then d
    else if d.entries[n] !in d.ips then d.(entries := d.entries - {n})
    else d.(entries := d.entries - {n}, ips := d.ips[d.entries[n] := d.ips[d.entries[n]].(stopped := true)])
  }

  /** A new target and its dial loop. */
  function Dial(d: Dials, n: NodeID): Dials {
    d.(ips := d.ips[d.next := TrackedIP(n, false)], entries := d.entries[n := d.next],
       loops := d.loops[d.next := Sleeping], next := d.next + 1)
  }

  function StopAll(d: Dials): Dials {
    d.(ips := map i | i in d.ips :: (if i in d.entries.Values then d.ips[i].(stopped := true) else d.ips[i]),
       entries := map[])
  }

  /** What a dial loop finds when it wakes up. */
  function Wake(d: Dials, side: Side, i: Serial, wants: bool): Dials
    requires i in d.ips
  {
    var n := d.ips[i].node;
    if !wants then StopEntry(d, n).(loops := d.loops - {i})
    else if n in side.connecting || n in side.connected then d.(loops := d.loops - {i})
    else d.(loops := d.loops[i := Dialing])
  }

  /** What a step does to the dial targets. */
  function DialsAfter(s: Net, step: Step): Dials
    requires Enabled(s, step)
  {
    match step
    case PeerConnected(p) =>
      if s.side.peers[p].node in s.side.connecting then StopEntry(s.dials, s.side.peers[p].node) else s.dials
    case LeaveConnecting(p, wants) =>
      var n := s.side.peers[p].node;
      if n !in s.dials.entries then s.dials else if wants then Dial(StopEntry(s.dials, n), n) else StopEntry(s.dials, n)
    case LeaveConnected(p, wants) => if wants then Dial(s.dials, s.side.peers[p].node) else s.dials
    case ManuallyTrack(n) => if n in s.side.connected || n in s.dials.entries then s.dials else Dial(s.dials, n)
    case TrackIP(n, added) => if !added || n in s.side.connected then s.dials else Dial(StopEntry(s.dials, n), n)
    case LoopExits(i) => s.dials.(loops := s.dials.loops - {i})
    case LoopWakes(i, wants) => Wake(s.dials, s.side, i, wants)
    case LoopFails(i) => s.dials.(loops := s.dials.loops[i := Sleeping])
    case LoopSucceeds(i) => s.dials.(loops := s.dials.loops - {i})
    case StartClose => if s.side.closing then s.dials else StopAll(s.dials)
    case _ => s.dials
  }

  /** `Connected` of the beacon manager, which counts the nodes in `beacons` and waits for `required`. */
  function RouterTold(told: Told, n: NodeID, beacons: set<NodeID>, required: int): Told {
    var count := told.numConns + if n in beacons then 1 else 0;
    Told(told.log + [RouterConnected(n)], count, told.sufficient || (n in beacons && count >= required))
  }

  function RouterUntold(told: Told, n: NodeID, beacons: set<NodeID>): Told {
    told.(log := told.log + [RouterDisconnected(n)], numConns := told.numConns - if n in beacons then 1 else 0)
  }

  /** What a step tells the tracker and the router. */
  function ToldAfter(s: Net, step: Step, beacons: set<NodeID>, required: int): Told
    requires Enabled(s, step)
  {
    match step
    case TellTracker(p) => s.told.(log := s.told.log + [TrackerConnected(s.side.peers[p].node)])
    case TellRouter(p) => RouterTold(s.told, s.side.peers[p].node, beacons, required)
    case UntellTracker(p) => s.told.(log := s.told.log + [TrackerDisconnected(s.side.peers[p].node)])
    case UntellRouter(p) => RouterUntold(s.told, s.side.peers[p].node, beacons)
    case _ => s.told
  }

  function Do(s: Net, step: Step, beacons: set<NodeID>, required: int): Net
    requires Enabled(s, step)
  {
    Net(SideAfter(s, step), DialsAfter(s, step), ToldAfter(s, step, beacons, required))
  }

  function Start(): Net {
    Net(Side(map[], map[], map[], false, false, 0), Dials(map[], map[], map[], 0), Told([], 0, false))
  }

  // ---------- the peers ----------

  predicate InConnecting(progress: Progress) {
    progress == Handshaking || progress == Leaving(true, false)
  }

  predicate InConnected(progress: Progress) {
    progress in {ToTracker, ToRouter, Ready, Leaving(false, true), FromRouter, FromNetwork}
  }

  ghost predicate PeerOk(side: Side, p: Serial)
    requires p in side.peers
  {
    var n, progress := side.peers[p].node, side.peers[p].progress;
    && p < side.next
    && (progress.Leaving? ==> InConnecting(progress) || InConnected(progress))
    && (InConnecting(progress) ==> n in side.connecting && side.connecting[n] == p)
    && (InConnected(progress) ==> n in side.connected && side.connected[n] == p)
  }

  ghost predicate FiledOk(side: Side, n: NodeID) {
    && !(n in side.connecting && n in side.connected)
    && (n in side.connecting ==>
        Filed(side, side.connecting[n], n) && InConnecting(side.peers[side.connecting[n]].progress))
    && (n in side.connected ==>
        Filed(side, side.connected[n], n) && InConnected(side.peers[side.connected[n]].progress))
  }

  predicate Filed(side: Side, p: Serial, n: NodeID) {
    p in side.peers && side.peers[p].node == n
  }

  /** Every peer is filed under its node, on one side only, for as long as it is there. */
  ghost predicate Peers(side: Side) {
    !side.unexpected && (forall p :: p in side.peers ==> PeerOk(side, p)) && forall n :: FiledOk(side, n)
  }

  /** A peer may go on as long as it stays on the same side. */
  lemma MovePeers(side: Side, p: Serial, progress: Progress)
    requires Peers(side) && p in side.peers
    requires InConnecting(progress) == InConnecting(side.peers[p].progress)
    requires InConnected(progress) == InConnected(side.peers[p].progress)
    requires progress.Leaving? ==> InConnecting(progress) || InConnected(progress)
    ensures Peers(Move(side, p, progress))
  {
    hide InConnecting, InConnected;
    var side' := Move(side, p, progress);
    assert PeerOk(side, p);
    forall q | q in side'.peers ensures PeerOk(side', q) { assert PeerOk(side, q); }
    forall n ensures FiledOk(side', n) { assert FiledOk(side, n); }
  }

  lemma UpgradePeers(side: Side, n: NodeID)
    requires Peers(side)
    ensures Peers(Upgrade(side, n))
  {
    var side' := Upgrade(side, n);
    forall q | q in side'.peers ensures PeerOk(side', q) {
      if q in side.peers { assert PeerOk(side, q); }
    }
    forall m ensures FiledOk(side', m) {
      assert FiledOk(side, m);
      if m in side.connecting { assert PeerOk(side, side.connecting[m]); }
      if m in side.connected { assert PeerOk(side, side.connected[m]); }
    }
  }

  /** The path for a peer that is not marked as connecting is never taken. */
  lemma MarkConnectedPeers(side: Side, p: Serial)
    requires Peers(side) && At(side, p, Handshaking)
    ensures Peers(MarkConnected(side, p)) && side.peers[p].node in side.connecting &&
            side.connecting[side.peers[p].node] == p
  {
    assert PeerOk(side, p) && FiledOk(side, side.peers[p].node);
    var side' := MarkConnected(side, p);
    forall q | q in side'.peers ensures PeerOk(side', q) { assert PeerOk(side, q); }
    forall m ensures FiledOk(side', m) { assert FiledOk(side, m); }
  }

  lemma SeeDisconnectedPeers(side: Side, p: Serial)
    requires Peers(side) && (At(side, p, Handshaking) || At(side, p, Ready))
    ensures Peers(SeeDisconnected(side, p))
    ensures SeeDisconnected(side, p).peers[p].progress == Leaving(At(side, p, Handshaking), At(side, p, Ready))
  {
    assert PeerOk(side, p) && FiledOk(side, side.peers[p].node);
    MovePeers(side, p, Leaving(At(side, p, Handshaking), At(side, p, Ready)));
  }

  lemma RemoveConnectingPeers(side: Side, p: Serial)
    requires Peers(side) && p in side.peers && side.peers[p].progress.Leaving? && side.peers[p].progress.connecting
    ensures Peers(RemoveConnecting(side, p)) && !side.peers[p].progress.connected
  {
    assert PeerOk(side, p);
    var side' := RemoveConnecting(side, p);
    forall q | q in side'.peers ensures PeerOk(side', q) { assert PeerOk(side, q); }
    forall m ensures FiledOk(side', m) { assert FiledOk(side, m); }
  }

  lemma RemoveConnectedPeers(side: Side, p: Serial)
    requires Peers(side) && At(side, p, FromNetwork)
    ensures Peers(RemoveConnected(side, p))
  {
    assert PeerOk(side, p);
    var side' := RemoveConnected(side, p);
    forall q | q in side'.peers ensures PeerOk(side', q) { assert PeerOk(side, q); }
    forall m ensures FiledOk(side', m) { assert FiledOk(side, m); }
  }

  lemma ClosePeers(side: Side)
    requires Peers(side)
    ensures Peers(side.(closing := true))
  {
    var side' := side.(closing := true);
    forall q | q in side'.peers ensures PeerOk(side', q) { assert PeerOk(side, q); }
    forall m ensures FiledOk(side', m) { assert FiledOk(side, m); }
  }

  lemma StepPeers(s: Net, step: Step)
    requires Peers(s.side) && Enabled(s, step)
    ensures Peers(SideAfter(s, step))
  {
    hide Peers, Upgrade, MarkConnected, Move, SeeDisconnected, RemoveConnecting, RemoveConnected;
    match step
    case Upgraded(n) => UpgradePeers(s.side, n);
    case PeerConnected(p) => MarkConnectedPeers(s.side, p);
    case TellTracker(p) => MovePeers(s.side, p, ToRouter);
    case TellRouter(p) => MovePeers(s.side, p, Ready);
    case PeerDisconnected(p) => SeeDisconnectedPeers(s.side, p);
    case LeaveConnecting(p, wants) => RemoveConnectingPeers(s.side, p);
    case UntellTracker(p) => MovePeers(s.side, p, FromRouter);
    case UntellRouter(p) => MovePeers(s.side, p, FromNetwork);
    case LeaveConnected(p, wants) => RemoveConnectedPeers(s.side, p);
    case StartClose => ClosePeers(s.side);
    case _ =>
  }

  /** Once the network is closing no node newly enters either set. */
  lemma ClosingOnlyShrinks(s: Net, step: Step, n: NodeID)
    requires Enabled(s, step) && s.side.closing
    ensures var side' := SideAfter(s, step);
            && side'.closing
            && (n in side'.connecting ==> n in s.side.connecting)
            && (n in side'.connected ==> n in s.side.connected || n in s.side.connecting)
  {
  }

  // ---------- the dial targets ----------

  ghost predicate TargetOk(d: Dials, i: Serial)
    requires i in d.ips
  {
    i < d.next && (!d.ips[i].stopped ==> d.ips[i].node in d.entries && d.entries[d.ips[i].node] == i)
  }

  ghost predicate EntryOk(d: Dials, side: Side, n: NodeID)
    requires n in d.entries
  {
    n !in side.connected && d.entries[n] in d.ips && d.ips[d.entries[n]] == TrackedIP(n, false)
  }

  /** A target that was not stopped is the current one of its node, and no connected node has one. */
  ghost predicate Targets(d: Dials, side: Side) {
    && (forall i :: i in d.ips ==> TargetOk(d, i))
    && (forall n :: n in d.entries ==> EntryOk(d, side, n))
    && d.loops.Keys <= d.ips.Keys
  }

  lemma StopTargets(d: Dials, side: Side, n: NodeID)
    requires Targets(d, side)
    ensures Targets(StopEntry(d, n), side) && n !in StopEntry(d, n).entries
  {
    var d' := StopEntry(d, n);
    if n in d.entries { assert EntryOk(d, side, n); }
    forall i | i in d'.ips ensures TargetOk(d', i) { assert TargetOk(d, i); }
    forall m | m in d'.entries ensures EntryOk(d', side, m) { assert EntryOk(d, side, m); }
  }

  lemma DialTargets(d: Dials, side: Side, n: NodeID)
    requires Targets(d, side) && n !in d.entries && n !in side.connected
    ensures Targets(Dial(d, n), side)
  {
    var d' := Dial(d, n);
    forall i | i in d'.ips ensures TargetOk(d', i) {
      if i in d.ips { assert TargetOk(d, i); }
    }
    forall m | m in d'.entries ensures EntryOk(d', side, m) {
      if m in d.entries { assert EntryOk(d, side, m); assert TargetOk(d, d.entries[m]); }
    }
  }

  lemma StopAllTargets(d: Dials, side: Side)
    requires Targets(d, side)
    ensures Targets(StopAll(d), side)
  {
    var d' := StopAll(d);
    forall i | i in d'.ips ensures TargetOk(d', i) {
      assert TargetOk(d, i);
      if !d.ips[i].stopped { assert d.ips[i].node in d.entries.Keys; assert i in d.entries.Values; }
    }
  }

  /** The peers matter for the targets only by who is connected. */
  lemma TargetsAside(d: Dials, side: Side, side': Side)
    requires Targets(d, side) && forall n :: n in side'.connected ==> n in side.connected || n !in d.entries
    ensures Targets(d, side')
  {
    forall m | m in d.entries ensures EntryOk(d, side', m) { assert EntryOk(d, side, m); }
  }

  lemma LoopsAside(d: Dials, d': Dials, side: Side)
    requires Targets(d, side) && d' == d.(loops := d'.loops) && d'.loops.Keys <= d.loops.Keys
    ensures Targets(d', side)
  {
    forall i | i in d'.ips ensures TargetOk(d', i) { assert TargetOk(d, i); }
    forall m | m in d'.entries ensures EntryOk(d', side, m) { assert EntryOk(d, side, m); }
  }

  lemma WakeTargets(d: Dials, side: Side, i: Serial, wants: bool)
    requires Targets(d, side) && i in d.ips && i in d.loops
    ensures Targets(Wake(d, side, i, wants), side)
  {
    hide Targets;
    StopTargets(d, side, d.ips[i].node);
    LoopsAside(StopEntry(d, d.ips[i].node), StopEntry(d, d.ips[i].node).(loops := d.loops - {i}), side);
    LoopsAside(d, d.(loops := d.loops - {i}), side);
    LoopsAside(d, d.(loops := d.loops[i := Dialing]), side);
  }

  lemma ConnectedTargets(s: Net, p: Serial)
    requires Peers(s.side) && Targets(s.dials, s.side) && At(s.side, p, Handshaking)
    ensures Targets(DialsAfter(s, PeerConnected(p)), SideAfter(s, PeerConnected(p)))
  {
    hide Targets, StopEntry, Peers;
    MarkConnectedPeers(s.side, p);
    var n := s.side.peers[p].node;
    StopTargets(s.dials, s.side, n);
    TargetsAside(StopEntry(s.dials, n), s.side, MarkConnected(s.side, p));
  }

  lemma LeaveConnectingTargets(s: Net, p: Serial, wants: bool)
    requires Peers(s.side) && Targets(s.dials, s.side) && Enabled(s, LeaveConnecting(p, wants))
    ensures Targets(DialsAfter(s, LeaveConnecting(p, wants)), SideAfter(s, LeaveConnecting(p, wants)))
  {
    var n := s.side.peers[p].node;
    assert PeerOk(s.side, p) && FiledOk(s.side, n);
    hide Targets, StopEntry, Peers, Dial;
    var d := StopEntry(s.dials, n);
    StopTargets(s.dials, s.side, n);
    DialTargets(d, s.side, n);
    var side' := RemoveConnecting(s.side, p);
    TargetsAside(d, s.side, side');
    TargetsAside(Dial(d, n), s.side, side');
    TargetsAside(s.dials, s.side, side');
  }

  lemma LeaveConnectedTargets(s: Net, p: Serial, wants: bool)
    requires Peers(s.side) && Targets(s.dials, s.side) && Enabled(s, LeaveConnected(p, wants))
    ensures Targets(DialsAfter(s, LeaveConnected(p, wants)), SideAfter(s, LeaveConnected(p, wants)))
  {
    var n := s.side.peers[p].node;
    assert PeerOk(s.side, p);
    assert n !in s.dials.entries;
    hide Targets, StopEntry, Peers, Dial;
    var side' := RemoveConnected(s.side, p);
    TargetsAside(s.dials, s.side, side');
    DialTargets(s.dials, side', n);
  }

  lemma StepTargets(s: Net, step: Step)
    requires Peers(s.side) && Targets(s.dials, s.side) && Enabled(s, step)
    ensures Targets(DialsAfter(s, step), SideAfter(s, step))
  {
    hide Targets, Peers, StopEntry, Dial, StopAll, Wake;
    match step
    case PeerConnected(p) => ConnectedTargets(s, p);
    case LeaveConnecting(p, wants) => LeaveConnectingTargets(s, p, wants);
    case LeaveConnected(p, wants) => LeaveConnectedTargets(s, p, wants);
    case ManuallyTrack(n) => if n !in s.side.connected && n !in s.dials.entries { DialTargets(s.dials, s.side, n); }
    case TrackIP(n, added) =>
      StopTargets(s.dials, s.side, n);
      if n !in s.side.connected { DialTargets(StopEntry(s.dials, n), s.side, n); }
    case LoopExits(i) => LoopsAside(s.dials, DialsAfter(s, step), s.side);
    case LoopWakes(i, wants) => WakeTargets(s.dials, s.side, i, wants);
    case LoopFails(i) => LoopsAside(s.dials, DialsAfter(s, step), s.side);
    case LoopSucceeds(i) => LoopsAside(s.dials, DialsAfter(s, step), s.side);
    case StartClose =>
      StopAllTargets(s.dials, s.side);
      TargetsAside(DialsAfter(s, step), s.side, SideAfter(s, step));
    case _ => TargetsAside(s.dials, s.side, SideAfter(s, step));
  }

  // ---------- who is dialed ----------

  /** The node has a current target that was not stopped and whose dial loop is running. */
  predicate Dialed(d: Dials, n: NodeID) {
    && n in d.entries && d.entries[n] in d.ips && d.entries[n] in d.loops
    && d.ips[d.entries[n]].node == n && !d.ips[d.entries[n]].stopped
  }

  /** The loop is that of the node's current target. */
  predicate Runs(d: Dials, n: NodeID, i: Serial) {
    n in d.entries && d.entries[n] == i
  }

  /** Who is dialed after a step, told from what was before it. */
  ghost predicate DialedNext(s: Net, step: Step, n: NodeID)
    requires Enabled(s, step)
  {
    var now := Dialed(s.dials, n);
    match step
    case PeerConnected(p) => now && n != s.side.peers[p].node
    case LeaveConnecting(p, wants) => if n == s.side.peers[p].node then n in s.dials.entries && wants else now
    case LeaveConnected(p, wants) => if n == s.side.peers[p].node then wants else now
    case ManuallyTrack(m) => now || (n == m && n !in s.side.connected && n !in s.dials.entries)
    case TrackIP(m, added) => now || (n == m && added && n !in s.side.connected)
    case LoopExits(i) => now && !Runs(s.dials, n, i)
    case LoopWakes(i, wants) =>
      if n == s.dials.ips[i].node && !wants then false
      else now && (Runs(s.dials, n, i) ==> n !in s.side.connecting && n !in s.side.connected)
    case LoopSucceeds(i) => now && !Runs(s.dials, n, i)
    case StartClose => now && s.side.closing
    case _ => now
  }

  /** A dial loop that ends its sleep for a wanted node that is neither connecting nor connected goes on to dial it. */
  ghost predicate LoopNext(s: Net, step: Step, i: Serial, d': Dials)
    requires Enabled(s, step)
  {
    match step
    case LoopWakes(j, wants) =>
      j == i ==>
        var n := s.dials.ips[i].node;
        var goesOn := wants && n !in s.side.connecting && n !in s.side.connected;
        (i in d'.loops <==> goesOn) && (goesOn ==> d'.loops[i] == Dialing)
    case LoopFails(j) => j == i ==> i in d'.loops && d'.loops[i] == Sleeping
    case LoopSucceeds(j) => j == i ==> i !in d'.loops
    case LoopExits(j) => j == i ==> i !in d'.loops
    case _ => i in s.dials.loops && i in s.dials.ips ==> i in d'.loops && d'.loops[i] == s.dials.loops[i]
  }

  /** The node a step is about, as far as dialing goes. */
  predicate Concerns(s: Net, step: Step, n: NodeID)
    requires Enabled(s, step)
  {
    match step
    case PeerConnected(p) => n == s.side.peers[p].node
    case LeaveConnecting(p, _) => n == s.side.peers[p].node
    case LeaveConnected(p, _) => n == s.side.peers[p].node
    case ManuallyTrack(m) => n == m
    case TrackIP(m, _) => n == m
    case LoopExits(i) => n == s.dials.ips[i].node
    case LoopWakes(i, _) => n == s.dials.ips[i].node
    case LoopFails(i) => i in s.dials.ips && n == s.dials.ips[i].node
    case LoopSucceeds(i) => i in s.dials.ips && n == s.dials.ips[i].node
    case StartClose => true
    case _ => false
  }

  /** The node keeps its target, and the target its loop. */
  ghost predicate SameTarget(d: Dials, d': Dials, n: NodeID) {
    && (n in d'.entries <==> n in d.entries)
    && (n in d.entries && d.entries[n] in d.ips ==>
          var i := d.entries[n];
          && d'.entries[n] == i && i in d'.ips && d'.ips[i] == d.ips[i]
          && (i in d'.loops <==> i in d.loops) && (i in d.loops ==> d'.loops[i] == d.loops[i]))
  }

  lemma TargetHere(s: Net, n: NodeID)
    requires Peers(s.side) && Targets(s.dials, s.side)
    ensures n in s.dials.entries ==> EntryOk(s.dials, s.side, n) && TargetOk(s.dials, s.dials.entries[n])
  {
    if n in s.dials.entries { assert EntryOk(s.dials, s.side, n); }
  }

  lemma PeerHere(s: Net, p: Serial)
    requires Peers(s.side) && Targets(s.dials, s.side) && p in s.side.peers
    ensures PeerOk(s.side, p)
    ensures var n := s.side.peers[p].node;
            n in s.dials.entries ==> EntryOk(s.dials, s.side, n) && TargetOk(s.dials, s.dials.entries[n])
  {
    TargetHere(s, s.side.peers[p].node);
  }

  lemma LoopHere(s: Net, i: Serial)
    requires Peers(s.side) && Targets(s.dials, s.side) && i in s.dials.ips
    ensures TargetOk(s.dials, i)
    ensures var n := s.dials.ips[i].node;
            n in s.dials.entries ==> EntryOk(s.dials, s.side, n) && TargetOk(s.dials, s.dials.entries[n])
  {
    TargetHere(s, s.dials.ips[i].node);
  }

  /** Exactly who is dialed after each step of a reachable state: the other half of the bounds on targets. */
  lemma StepDialed(s: Net, step: Step, n: NodeID)
    requires Peers(s.side) && Targets(s.dials, s.side) && Enabled(s, step)
    ensures Dialed(DialsAfter(s, step), n) <==> DialedNext(s, step, n)
  {
    hide Peers, Targets;
    TargetHere(s, n);
    match step
    case LeaveConnecting(p, _) => PeerHere(s, p);
    case LeaveConnected(p, _) => PeerHere(s, p);
    case PeerConnected(p) => PeerHere(s, p);
    case TrackIP(m, _) => TargetHere(s, m);
    case LoopWakes(i, _) => LoopHere(s, i);
    case _ =>
  }

  /** A step leaves the targets of all nodes it is not about alone. */
  lemma StepSameTargets(s: Net, step: Step, n: NodeID)
    requires Peers(s.side) && Targets(s.dials, s.side) && Enabled(s, step) && !Concerns(s, step, n)
    ensures SameTarget(s.dials, DialsAfter(s, step), n)
  {
    hide Peers, Targets;
    TargetHere(s, n);
    match step
    case LeaveConnecting(p, _) => PeerHere(s, p);
    case LeaveConnected(p, _) => PeerHere(s, p);
    case PeerConnected(p) => PeerHere(s, p);
    case TrackIP(m, _) => TargetHere(s, m);
    case LoopWakes(i, _) => LoopHere(s, i);
    case _ =>
  }

  /** Loops go on, fail, succeed and end as they should, and no other step moves one. */
  lemma StepLoops(s: Net, step: Step, i: Serial)
    requires Peers(s.side) && Targets(s.dials, s.side) && Enabled(s, step)
    ensures LoopNext(s, step, i, DialsAfter(s, step))
  {
    hide Peers, Targets;
    if i in s.dials.ips { LoopHere(s, i); }
  }

  // ---------- who is in the two sets ----------

  /** Who is connecting and who is connected after a step, told from what was before it. */
  ghost predicate MembersNext(s: Net, step: Step, n: NodeID, side': Side)
    requires Enabled(s, step)
  {
    var connecting, connected := n in s.side.connecting, n in s.side.connected;
    && (n in side'.connecting <==>
        match step
        case Upgraded(m) => connecting || (n == m && !s.side.closing && !connected)
        case PeerConnected(p) => connecting && n != s.side.peers[p].node
        case LeaveConnecting(p, _) => connecting && n != s.side.peers[p].node
        case _ => connecting)
    && (n in side'.connected <==>
        match step
        case PeerConnected(p) => connected || n == s.side.peers[p].node
        case LeaveConnected(p, _) => connected && n != s.side.peers[p].node
        case _ => connected)
    && (side'.closing <==> s.side.closing || step.StartClose?)
  }

  lemma StepMembers(s: Net, step: Step, n: NodeID)
    requires Peers(s.side) && Enabled(s, step)
    ensures MembersNext(s, step, n, SideAfter(s, step))
  {
    if step.PeerConnected? { MarkConnectedPeers(s.side, step.peer); }
  }

  /** At most one loop that was not stopped dials a node, and none dials a connected one. */
  lemma SingleDialer(s: Net, i: Serial, j: Serial)
    requires Targets(s.dials, s.side)
    requires i in s.dials.loops && i in s.dials.ips && !s.dials.ips[i].stopped
    ensures s.dials.ips[i].node !in s.side.connected
    ensures (j in s.dials.loops && j in s.dials.ips && !s.dials.ips[j].stopped &&
             s.dials.ips[j].node == s.dials.ips[i].node) ==>
            i == j
  {
    assert TargetOk(s.dials, i) && EntryOk(s.dials, s.side, s.dials.ips[i].node);
    if j in s.dials.ips { assert TargetOk(s.dials, j); }
  }
}
