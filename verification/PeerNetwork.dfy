/** The network and the beacon manager as programmed: sets, targets and counters changed in place. */
module PeerNetwork {
  import opened Network
  import Tracker

  type NodeID = Tracker.NodeID

  class BeaconManager {
    const beacons: set<NodeID>
    const required: int
    var numConns: int
    var sufficient: bool
    ghost var log: seq<Call>

    ghost function Now(): Told
      reads this
    {
      Told(log, numConns, sufficient)
    }

    constructor (beacons: set<NodeID>, required: int)
      ensures Now() == Start().told && this.beacons == beacons && this.required == required
    {
      this.beacons, this.required := beacons, required;
      numConns, sufficient, log := 0, false, [];
    }

    /** For the primary network; connections for other subnets are passed on and not counted. */
    method Connected(n: NodeID)
      modifies this
      ensures Now() == RouterTold(old(Now()), n, beacons, required)
    {
      if n in beacons {
        numConns := numConns + 1;
        if numConns >= required { sufficient := true; }
      }
      log := log + [RouterConnected(n)];
    }

    method Disconnected(n: NodeID)
      modifies this
      ensures Now() == RouterUntold(old(Now()), n, beacons)
    {
      if n in beacons { numConns := numConns - 1; }
      log := log + [RouterDisconnected(n)];
    }
  }

  /** The sections the network runs under its lock. */
  class PeerSets {
    ghost var peers: map<Serial, Peer>
    var connecting: map<NodeID, Serial>
    var connected: map<NodeID, Serial>
    var closing: bool
    var unexpected: bool
    var nextPeer: Serial

    var ips: map<Serial, TrackedIP>
    var trackedIPs: map<NodeID, Serial>
    ghost var loops: map<Serial, Loop>
    var nextIP: Serial

    ghost function Side(): Side
      reads this
    {
      Network.Side(peers, connecting, connected, closing, unexpected, nextPeer)
    }

    ghost function Dials(): Dials
      reads this
    {
      Network.Dials(ips, trackedIPs, loops, nextIP)
    }

    ghost function Now(told: Told): Net
      reads this
    {
      Net(Side(), Dials(), told)
    }

    constructor ()
      ensures Now(Start().told) == Start()
    {
      peers, connecting, connected := map[], map[], map[];
      closing, unexpected, nextPeer := false, false, 0;
      ips, trackedIPs, loops, nextIP := map[], map[], map[], 0;
    }

    method StopTracking(i: Serial)
      requires i in ips
      modifies this`ips
      ensures ips == old(ips)[i := old(ips)[i].(stopped := true)]
    {
      ips := ips[i := ips[i].(stopped := true)];
    }

    /** Makes a target the current one of the node and starts its dial loop. */
    method Dial(n: NodeID)
      modifies this`ips, this`trackedIPs, this`loops, this`nextIP
      ensures Dials() == Network.Dial(old(Dials()), n)
    {
      ips := ips[nextIP := TrackedIP(n, false)];
      trackedIPs := trackedIPs[n := nextIP];
      loops := loops[nextIP := Sleeping];
      nextIP := nextIP + 1;
    }

    method Forget(n: NodeID)
      requires n in trackedIPs && trackedIPs[n] in ips
      modifies this`ips, this`trackedIPs
      ensures Dials() == StopEntry(old(Dials()), n)
    {
      StopTracking(trackedIPs[n]);
      trackedIPs := trackedIPs - {n};
    }

    /** The end of `upgrade`; the answer tells whether a peer was started. */
    method Upgrade(n: NodeID, ghost told: Told) returns (started: bool)
      modifies this
      ensures var s := old(Now(told));
              Now(told) == Do(s, Upgraded(n), {}, 0) &&
              (started <==> !s.side.closing && n !in s.side.connecting && n !in s.side.connected)
    {
      if closing || n in connecting || n in connected { return false; }
      peers := peers[nextPeer := Peer(n, Handshaking)];
      connecting := connecting[n := nextPeer];
      nextPeer := nextPeer + 1;
      return true;
    }

    method Connected(n: NodeID, ghost p: Serial, ghost told: Told)
      requires Enabled(Now(told), PeerConnected(p)) && peers[p].node == n && Targets(Dials(), Side())
      modifies this
      ensures Now(told) == Do(old(Now(told)), PeerConnected(p), {}, 0)
    {
      if n !in connecting {
        unexpected := true;
        peers := peers[p := peers[p].(progress := Ready)];
        return;
      }
      assert n in trackedIPs ==> EntryOk(Dials(), Side(), n);
      if n in trackedIPs { Forget(n); }
      var peer := connecting[n];
      connecting := connecting - {n};
      connected := connected[n := peer];
      peers := peers[p := peers[p].(progress := ToTracker)];
    }

    method DisconnectedFromConnecting(n: NodeID, wants: bool, ghost p: Serial, ghost told: Told)
      requires Enabled(Now(told), LeaveConnecting(p, wants)) && peers[p].node == n && Targets(Dials(), Side())
      modifies this
      ensures Now(told) == Do(old(Now(told)), LeaveConnecting(p, wants), {}, 0)
    {
      assert n in trackedIPs ==> EntryOk(Dials(), Side(), n);
      connecting := connecting - {n};
      peers := peers[p := peers[p].(progress := if peers[p].progress.connected then Leaving(false, true) else Gone)];
      if n in trackedIPs {
        Forget(n);
        if wants { Dial(n); }
      }
    }

    method DisconnectedFromConnected(n: NodeID, wants: bool, ghost p: Serial, ghost told: Told)
      requires Enabled(Now(told), LeaveConnected(p, wants)) && peers[p].node == n
      modifies this
      ensures Now(told) == Do(old(Now(told)), LeaveConnected(p, wants), {}, 0)
    {
      connected := connected - {n};
      peers := peers[p := peers[p].(progress := Gone)];
      if wants { Dial(n); }
    }

    method ManuallyTrack(n: NodeID, ghost told: Told)
      modifies this
      ensures Now(told) == Do(old(Now(told)), Step.ManuallyTrack(n), {}, 0)
    {
      if n in connected { return; }
      if n !in trackedIPs { Dial(n); }
    }

    method Track(n: NodeID, added: bool, ghost told: Told)
      requires Targets(Dials(), Side())
      modifies this
      ensures Now(told) == Do(old(Now(told)), TrackIP(n, added), {}, 0)
    {
      if !added || n in connected { return; }
      assert n in trackedIPs ==> EntryOk(Dials(), Side(), n);
      if n in trackedIPs { Forget(n); }
      Dial(n);
    }

    /** One turn of a dial loop under the lock: whether it goes on to dial. */
    method Wake(i: Serial, wants: bool, ghost told: Told) returns (dials: bool)
      requires Enabled(Now(told), LoopWakes(i, wants)) && Targets(Dials(), Side())
      modifies this
      ensures Now(told) == Do(old(Now(told)), LoopWakes(i, wants), {}, 0)
      ensures dials <==> wants && ips[i].node !in connecting && ips[i].node !in connected
    {
      var n := ips[i].node;
      if !wants {
        assert n in trackedIPs ==> EntryOk(Dials(), Side(), n);
        if n in trackedIPs { Forget(n); }
        loops := loops - {i};
        return false;
      }
      dials := n !in connecting && n !in connected;
      loops := if dials then loops[i := Dialing] else loops - {i};
    }

    /** Stops every target, one after the other. */
    method StopEach()
      requires forall n :: n in trackedIPs ==> trackedIPs[n] in ips
      modifies this`ips, this`trackedIPs
      ensures Dials() == StopAll(old(Dials()))
    {
      ghost var done: set<Serial> := {};
      StoppedNone(ips);
      while trackedIPs != map[]
        invariant old(trackedIPs).Values == done + trackedIPs.Values
        invariant ips == Stopped(old(ips), done)
        invariant forall n :: n in trackedIPs ==> trackedIPs[n] in old(ips)
        decreases trackedIPs.Keys
      {
        hide Stopped;
        var n :| n in trackedIPs;
        var i := trackedIPs[n];
        StoppedOne(old(ips), done, i);
        ValuesDrop(trackedIPs, n);
        StopTracking(i);
        trackedIPs := trackedIPs - {n};
        done := done + {i};
      }
    }

    method StartClose(ghost told: Told)
      requires Targets(Dials(), Side())
      modifies this
      ensures Now(told) == Do(old(Now(told)), Step.StartClose, {}, 0)
    {
      if closing { return; }
      assert forall n :: n in trackedIPs ==> EntryOk(Dials(), Side(), n);
      hide StopAll;
      closing := true;
      StopEach();
    }
  }

  ghost function Stopped(ips: map<Serial, TrackedIP>, done: set<Serial>): map<Serial, TrackedIP> {
    map i | i in ips :: if i in done then ips[i].(stopped := true) else ips[i]
  }

  lemma StoppedNone(ips: map<Serial, TrackedIP>)
    ensures Stopped(ips, {}) == ips
  {
  }

  lemma StoppedOne(ips: map<Serial, TrackedIP>, done: set<Serial>, i: Serial)
    requires i in ips
    ensures i in Stopped(ips, done)
    ensures Stopped(ips, done + {i}) == Stopped(ips, done)[i := Stopped(ips, done)[i].(stopped := true)]
  {
  }

  lemma ValuesDrop(m: map<NodeID, Serial>, n: NodeID)
    requires n in m
    ensures m.Values == (m - {n}).Values + {m[n]}
  {
    forall x ensures x in m.Values <==> x in (m - {n}).Values + {m[n]} {
      if x in m.Values && x != m[n] {
        var k :| k in m && m[k] == x;
        assert k in m - {n} && (m - {n})[k] == x;
      }
    }
  }
}
