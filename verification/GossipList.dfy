/**
 The gossipable list of a subnet, kept contiguous by moving the last IP into the gap, and the part of a
 peer-list reply that comes from it.
 */
module GossipList {
  import opened Results
  import opened Tracker
  import opened Sampler

  /** What a requester has no use for: its own IP, and what its filter contains. */
  predicate Unwanted(ip: IP, except: NodeID, contains: GossipID -> bool) {
    ip.node == except || contains(Gossip(ip))
  }

  ghost function NodesOf(ips: seq<IP>): set<NodeID> {
    set i | 0 <= i < |ips| :: ips[i].node
  }

  predicate DistinctNodes(ips: seq<IP>) {
    forall i, j :: 0 <= i < j < |ips| ==> ips[i].node != ips[j].node
  }

  predicate Lists(listed: map<NodeID, IP>, ip: IP) {
    ip.node in listed && listed[ip.node] == ip
  }

  /** `r` adds to `before` wanted IPs of a list, of nodes not there yet, up to the limit. */
  ghost predicate Extends(before: seq<IP>, r: seq<IP>, listed: map<NodeID, IP>, except: NodeID,
                          contains: GossipID -> bool, max: int) {
    && before <= r
    && DistinctNodes(r)
    && (|before| <= max ==> |r| <= max)
    && (max <= |before| ==> r == before)
    && forall i :: |before| <= i < |r| ==> Lists(listed, r[i]) && !Unwanted(r[i], except, contains)
  }

  /** Nothing wanted is missing. */
  ghost predicate Exhausts(r: seq<IP>, listed: map<NodeID, IP>, except: NodeID, contains: GossipID -> bool) {
    forall n :: n in listed && !Unwanted(listed[n], except, contains) ==> n in NodesOf(r)
  }

  class GossipableSubnet {
    var manual: set<NodeID>
    var ids: set<NodeID>
    var indices: map<NodeID, nat>
    var ips: seq<IP>

    ghost predicate Valid()
      reads this
    {
      && (forall n :: n in indices ==> indices[n] < |ips| && ips[indices[n]].node == n)
      && (forall i :: 0 <= i < |ips| ==> ips[i].node in indices && indices[ips[i].node] == i)
    }

    ghost function Listed(): map<NodeID, IP>
      requires Valid()
      reads this
    {
      map n | n in indices :: ips[indices[n]]
    }

    ghost function View(): Subnet
      requires Valid()
      reads this
    {
      Subnet(manual, ids, Listed())
    }

    /** Which nodes may be gossiped is kept as it is. */
    lemma Fields()
      requires Valid()
      ensures View().ids == ids && View().manual == manual && View().listed == Listed()
    {
    }

    constructor ()
      ensures Valid() && View() == Subnet({}, {}, map[])
    {
      manual, ids, indices, ips := {}, {}, map[], [];
    }

    method SetGossipableIP(ip: IP)
      requires Valid()
      modifies this
      ensures Valid() && View() == old(View()).(listed := old(Listed())[ip.node := ip])
    {
      if ip.node in indices {
        ips := ips[indices[ip.node] := ip];
      } else {
        indices := indices[ip.node := |ips|];
        ips := ips + [ip];
      }
      assert Listed() == old(Listed())[ip.node := ip];
    }

    method RemoveGossipableIP(n: NodeID)
      requires Valid()
      modifies this
      ensures Valid() && View() == old(View()).(listed := old(Listed()) - {n})
    {
      if n in indices {
        var index, last := indices[n], |ips| - 1;
        if last != index {
          var replacement := ips[last];
          indices := indices[replacement.node := index];
          ips := ips[index := replacement];
        }
        indices := indices - {n};
        ips := ips[..last];
      }
      assert Listed() == old(Listed()) - {n};
    }

    /** Lets the node be gossiped, and lists the IP it is given for a node that was not before. */
    method AddID(n: NodeID, manuallyGossiped: bool, ip: Option<IP>)
      requires Valid() && (ip.Some? ==> ip.value.node == n)
      modifies this
      ensures Valid() && View() == AllowIn(old(View()), n, manuallyGossiped, ip)
    {
      if manuallyGossiped { manual := manual + {n}; }
      if n in ids { return; }
      ids := ids + {n};
      if ip.Some? { SetGossipableIP(ip.value); }
    }

    method RemoveID(n: NodeID)
      requires Valid()
      modifies this
      ensures Valid() && View() == ForbidIn(old(View()), n)
    {
      ids := ids - {n};
      RemoveGossipableIP(n);
    }

    /** Draws from the list until the reply is full or the list is exhausted; `random` feeds the sampler. */
    method GetGossipableIPs(except: NodeID, contains: GossipID -> bool, max: int, before: seq<IP>, random: nat -> nat)
      returns (r: seq<IP>)
      requires Valid() && DistinctNodes(before)
      ensures Extends(before, r, Listed(), except, contains, max)
      ensures |r| < max ==> Exhausts(r, Listed(), except, contains)
    {
      var uniform := new Uniform(|ips|);
      r := before;
      ghost var listed := Listed();
      while |r| < max
        invariant Valid() && Listed() == listed && uniform.Valid() && uniform.length == |ips| && fresh(uniform)
        invariant Extends(before, r, listed, except, contains, max)
        invariant forall x :: 0 <= x < |ips| && !uniform.Remains(x) && !Unwanted(ips[x], except, contains) ==>
                  ips[x].node in NodesOf(r)
        invariant forall x: nat :: uniform.Remains(x) ==> x < |ips|
        decreases uniform.length - uniform.drawsCount
      {
        var draw := uniform.Next(random(uniform.drawsCount));
        if draw.None? {
          Drawn(ips, indices, listed, r, except, contains);
          return;
        }
        var ip := ips[draw.value];
        if ip.node == except || HasNode(r, ip.node) || contains(Gossip(ip)) { continue; }
        assert listed[ip.node] == ip;
        Append(before, r, listed, except, contains, max, ip);
        r := r + [ip];
      }
    }
  }

  predicate HasNode(r: seq<IP>, n: NodeID)
    ensures HasNode(r, n) <==> n in NodesOf(r)
  {
    exists i :: 0 <= i < |r| && r[i].node == n
  }

  lemma Append(before: seq<IP>, r: seq<IP>, listed: map<NodeID, IP>, except: NodeID, contains: GossipID -> bool,
               max: int, ip: IP)
    requires Extends(before, r, listed, except, contains, max) && |r| < max
    requires Lists(listed, ip) && !Unwanted(ip, except, contains) && ip.node !in NodesOf(r)
    ensures Extends(before, r + [ip], listed, except, contains, max)
    ensures NodesOf(r + [ip]) == NodesOf(r) + {ip.node}
  {
    forall n ensures n in NodesOf(r + [ip]) <==> n in NodesOf(r) + {ip.node} {
      if n in NodesOf(r) {
        var i :| 0 <= i < |r| && r[i].node == n;
        assert (r + [ip])[i].node == n;
      }
      if n == ip.node { assert (r + [ip])[|r|].node == n; }
    }
  }

  /** When every place was drawn, every listed node was seen. */
  lemma Drawn(ips: seq<IP>, indices: map<NodeID, nat>, listed: map<NodeID, IP>, r: seq<IP>, except: NodeID,
              contains: GossipID -> bool)
    requires forall n :: n in listed ==>
             n in indices && indices[n] < |ips| && listed[n] == ips[indices[n]] && listed[n].node == n
    requires forall x :: 0 <= x < |ips| && !Unwanted(ips[x], except, contains) ==> ips[x].node in NodesOf(r)
    ensures Exhausts(r, listed, except, contains)
  {
  }
}
