/**
 Peer-list replies and what becomes of them: a reply is sound and complete, and once a node has taken in
 a reply, the same sender does not repeat it.
 */
module Gossiping {
  import opened Results
  import opened Tracker
  import opened TrackerRuns
  import opened GossipList

  // ---------- replies ----------

  datatype Query = Query(requested: set<SubnetID>, all: bool, except: NodeID, contains: GossipID -> bool, max: int)

  /** The subnets a query covers: every one, if all are requested of a primary network validator. */
  predicate Covers(st: State, validator: bool, q: Query, s: SubnetID) {
    (s in q.requested || (validator && q.all)) && (validator || IsLocal(st, s))
  }

  /** The node has an IP the query is after. */
  ghost predicate Candidate(st: State, validator: bool, q: Query, n: NodeID) {
    exists s :: Covers(st, validator, q, s) && IsListed(st, s, n) &&
                !Unwanted(st.subnets[s].listed[n], q.except, q.contains)
  }

  ghost predicate Offered(st: State, validator: bool, q: Query, ip: IP) {
    exists s :: Covers(st, validator, q, s) && IsListed(st, s, ip.node) && st.subnets[s].listed[ip.node] == ip &&
                !Unwanted(ip, q.except, q.contains)
  }

  ghost predicate Sound(st: State, validator: bool, q: Query, r: seq<IP>) {
    && DistinctNodes(r)
    && (0 <= q.max ==> |r| <= q.max) && (q.max < 0 ==> r == [])
    && forall i :: 0 <= i < |r| ==> Offered(st, validator, q, r[i])
  }

  /** A reply that is not full misses no candidate. */
  ghost predicate IsReply(st: State, validator: bool, q: Query, r: seq<IP>) {
    && Sound(st, validator, q, r)
    && (|r| < q.max ==> forall n :: n in NodesOf(r) <==> Candidate(st, validator, q, n))
  }

  // ---------- putting a reply together ----------

  /** The subnet is one the code looks at. */
  predicate Looked(st: State, validator: bool, s: SubnetID) {
    (validator || IsLocal(st, s)) && s in st.subnets
  }

  /** What holds of the reply after some of the subnets. */
  ghost predicate Sofar(st: State, validator: bool, q: Query, done: seq<SubnetID>, r: seq<IP>) {
    && DistinctNodes(r)
    && (0 <= q.max ==> |r| <= q.max) && (q.max < 0 ==> r == [])
    && forall i :: 0 <= i < |r| ==> From(st, validator, q, done, r[i])
  }

  ghost predicate From(st: State, validator: bool, q: Query, done: seq<SubnetID>, ip: IP) {
    exists s :: s in done && Looked(st, validator, s) && Lists(st.subnets[s].listed, ip) &&
                !Unwanted(ip, q.except, q.contains)
  }

  ghost predicate Missing(st: State, validator: bool, q: Query, done: seq<SubnetID>, r: seq<IP>) {
    forall s :: s in done && Looked(st, validator, s) ==> Exhausts(r, st.subnets[s].listed, q.except, q.contains)
  }

  lemma Empty(st: State, validator: bool, q: Query)
    ensures Sofar(st, validator, q, [], []) && Missing(st, validator, q, [], [])
  {
  }

  lemma OneMore(st: State, validator: bool, q: Query, done: seq<SubnetID>, s: SubnetID, before: seq<IP>, r: seq<IP>)
    requires Sofar(st, validator, q, done, before) && Looked(st, validator, s)
    requires |before| < q.max ==> Missing(st, validator, q, done, before)
    requires Extends(before, r, st.subnets[s].listed, q.except, q.contains, q.max)
    requires |r| < q.max ==> Exhausts(r, st.subnets[s].listed, q.except, q.contains)
    ensures Sofar(st, validator, q, done + [s], r)
    ensures |r| < q.max ==> Missing(st, validator, q, done + [s], r)
  {
    hide Unwanted;
    forall i | 0 <= i < |r| ensures From(st, validator, q, done + [s], r[i]) {
      if i < |before| {
        assert From(st, validator, q, done, before[i]) && before[i] == r[i];
        var t :| t in done && Looked(st, validator, t) && Lists(st.subnets[t].listed, r[i]) &&
                 !Unwanted(r[i], q.except, q.contains);
        assert t in done + [s];
      } else {
        assert s in done + [s];
      }
    }
    if |r| < q.max {
      forall t | t in done + [s] && Looked(st, validator, t)
        ensures Exhausts(r, st.subnets[t].listed, q.except, q.contains)
      {
        if t != s { StillExhausts(before, r, st.subnets[t].listed, q.except, q.contains); }
      }
    }
  }

  lemma StillExhausts(before: seq<IP>, r: seq<IP>, listed: map<NodeID, IP>, except: NodeID, contains: GossipID -> bool)
    requires before <= r && Exhausts(before, listed, except, contains)
    ensures Exhausts(r, listed, except, contains)
  {
    forall n | n in NodesOf(before) ensures n in NodesOf(r) {
      var i :| 0 <= i < |before| && before[i].node == n;
      assert r[i].node == n;
    }
  }

  lemma Skipped(st: State, validator: bool, q: Query, done: seq<SubnetID>, s: SubnetID, r: seq<IP>)
    requires Sofar(st, validator, q, done, r) && !Looked(st, validator, s)
    ensures Sofar(st, validator, q, done + [s], r)
    ensures Missing(st, validator, q, done, r) ==> Missing(st, validator, q, done + [s], r)
  {
    hide Unwanted;
    forall i | 0 <= i < |r| ensures From(st, validator, q, done + [s], r[i]) {
      assert From(st, validator, q, done, r[i]);
      var t :| t in done && Looked(st, validator, t) && Lists(st.subnets[t].listed, r[i]) &&
               !Unwanted(r[i], q.except, q.contains);
      assert t in done + [s];
    }
  }

  lemma Finished(st: State, validator: bool, q: Query, order: seq<SubnetID>, k: nat, r: seq<IP>)
    requires k <= |order| && Sofar(st, validator, q, order[..k], r)
    requires |r| < q.max ==> Missing(st, validator, q, order, r)
    requires forall s :: s in order <==> if validator && q.all then s in st.subnets else s in q.requested
    ensures IsReply(st, validator, q, r)
  {
    hide Unwanted, DistinctNodes;
    forall i | 0 <= i < |r| ensures Offered(st, validator, q, r[i]) && Candidate(st, validator, q, r[i].node) {
      assert From(st, validator, q, order[..k], r[i]);
      var s :| s in order[..k] && Looked(st, validator, s) && Lists(st.subnets[s].listed, r[i]) &&
               !Unwanted(r[i], q.except, q.contains);
      assert s in order && Covers(st, validator, q, s) && IsListed(st, s, r[i].node);
    }
    if |r| < q.max {
      forall n ensures n in NodesOf(r) <==> Candidate(st, validator, q, n) {
        if Candidate(st, validator, q, n) {
          var s :| Covers(st, validator, q, s) && IsListed(st, s, n) &&
                   !Unwanted(st.subnets[s].listed[n], q.except, q.contains);
          assert s in order && Looked(st, validator, s);
        }
      }
    }
  }

  /** What a reply promises about its nodes, in every reachable state. */
  lemma ReplyMeans(st: State, validator: bool, q: Query, r: seq<IP>, i: nat)
    requires Exact(st) && IsReply(st, validator, q, r) && i < |r|
    ensures r[i].node != q.except && !q.contains(Gossip(r[i]))
    ensures r[i].node in st.connected && st.connected[r[i].node].ip.timestamp <= r[i].timestamp
    ensures r[i].node in st.tracked && st.tracked[r[i].node].ip == Some(r[i])
    ensures exists s ::
              && (s in q.requested || (q.all && validator)) && (validator || s == PRIMARY || s in st.local)
              && s in st.tracked[r[i].node].validated && s in st.connected[r[i].node].subnets
  {
    var n := r[i].node;
    assert Offered(st, validator, q, r[i]);
    var s :| Covers(st, validator, q, s) && IsListed(st, s, n) && st.subnets[s].listed[n] == r[i] &&
             !Unwanted(r[i], q.except, q.contains);
    assert PairOk(st, s, n) && NodeOk(st, n);
  }

  /** A reply with room left misses no connected node that validates and syncs a subnet asked for. */
  lemma ReplyMisses(st: State, validator: bool, q: Query, r: seq<IP>, s: SubnetID, n: NodeID)
    requires Exact(st) && IsReply(st, validator, q, r) && |r| < q.max
    requires (s in q.requested || (q.all && validator)) && (validator || s == PRIMARY || s in st.local)
    requires n in st.tracked && s in st.tracked[n].validated && n in st.connected && s in st.connected[n].subnets
    requires n != q.except && st.tracked[n].ip.Some? && !q.contains(GossipID(n, st.tracked[n].ip.value.timestamp))
    ensures st.tracked[n].ip.value in r
  {
    hide DistinctNodes;
    assert PairOk(st, s, n) && NodeOk(st, n);
    assert Covers(st, validator, q, s) && IsListed(st, s, n);
    assert Candidate(st, validator, q, n);
    assert n in NodesOf(r);
    var i :| 0 <= i < |r| && r[i].node == n;
    ReplyMeans(st, validator, q, r, i);
  }

  // ---------- taking a reply in ----------

  predicate ShouldVerify(st: State, ip: IP, trackAll: bool) {
    && ip.node in st.tracked
    && (trackAll || WantsConnection(st.tracked[ip.node]))
    && (Compare(st, ip).First? || Compare(st, ip).Newer?)
  }

  /** After any history an IP is verified iff it is newer than what is known of a node that matters to the receiver. */
  lemma VerifiedByHistory(local: set<SubnetID>, maxCount: nat, ops: seq<Op>, ip: IP, trackAll: bool)
    requires PossibleRun(Start(local, maxCount), ops)
    ensures ShouldVerify(Run(Start(local, maxCount), ops), ip, trackAll) <==>
            && (if trackAll then Followed(local, ops, ip.node) else Wanted(local, ops, ip.node))
            && (Newest(local, ops, ip.node).None? || Newest(local, ops, ip.node).value.timestamp < ip.timestamp)
  {
    hide Run, PossibleRun, Requested, Active, Newest;
    NewestByHistory(local, maxCount, ops, ip.node);
    WantedByHistory(local, maxCount, ops, ip.node);
  }

  /** The IPs of a reply one after the other; the ones there is use for have good signatures. */
  function Process(st: State, reply: seq<IP>, trackAll: bool, resets: seq<Reset>): State
    requires |resets| == |reply|
  {
    if reply == [] then st else
      var n := |reply| - 1;
      TakeIn(Process(st, reply[..n], trackAll, resets[..n]), reply[n], trackAll, resets[n])
  }

  function TakeIn(st: State, ip: IP, trackAll: bool, reset: Reset): State {
    if ShouldVerify(st, ip, trackAll) then AddIP(st, ip, reset) else st
  }

  /** The receiver has use for the IP, knows no newer one, and may still add the node to its filter. */
  predicate Fresh(st: State, ip: IP, trackAll: bool) {
    && ip.node in st.tracked
    && (trackAll || WantsConnection(st.tracked[ip.node]))
    && !Compare(st, ip).Older?
    && Additions(st.filter, ip.node) < MAX_ENTRIES_PER_NODE
  }

  /** The receiver knows an IP of this time and has it in its filter. */
  predicate Taken(st: State, ip: IP) {
    && ip.node in st.tracked && st.tracked[ip.node].ip.Some? && Gossip(st.tracked[ip.node].ip.value) == Gossip(ip)
    && Gossip(ip) in st.filter.entries
  }

  /** Taking in an IP: the filter and one record, if any, change. */
  lemma TakeInIs(st: State, ip: IP, trackAll: bool, reset: Reset)
    ensures var st' := TakeIn(st, ip, trackAll, reset);
            if ShouldVerify(st, ip, trackAll)
            then && st'.tracked == st.tracked[ip.node := st.tracked[ip.node].(ip := Some(ip))]
                 && st'.filter == Update(st, ip, reset).filter
            else st' == st
  {
    if ShouldVerify(st, ip, trackAll) { UpdateIs(st, ip, reset); }
  }

  lemma TakenNow(st: State, ip: IP, trackAll: bool, reset: Reset)
    requires Fresh(st, ip, trackAll) && Covered(st, ip.node) && reset.Some?
    requires st.tracked[ip.node].ip.Some? ==> st.tracked[ip.node].ip.value.node == ip.node
    ensures Taken(TakeIn(st, ip, trackAll, reset), ip)
  {
    TakeInIs(st, ip, trackAll, reset);
    if ShouldVerify(st, ip, trackAll) {
      var st' := Update(st, ip, reset);
      FreshCovers(st'.tracked, reset.value, ip.node);
    }
  }

  /** An IP of another node leaves all this as it was. */
  lemma TakeInOther(st: State, other: IP, trackAll: bool, reset: Reset, ip: IP)
    requires other.node != ip.node && reset.Some?
    ensures var st' := TakeIn(st, other, trackAll, reset);
            && (ip.node in st'.tracked <==> ip.node in st.tracked)
            && (ip.node in st.tracked ==> st'.tracked[ip.node] == st.tracked[ip.node])
            && (Taken(st, ip) ==> Taken(st', ip))
            && (Fresh(st, ip, trackAll) ==> Fresh(st', ip, trackAll))
            && (Covered(st, ip.node) ==> Covered(st', ip.node))
  {
    TakeInIs(st, other, trackAll, reset);
    if ShouldVerify(st, other, trackAll) {
      var st' := Update(st, other, reset);
      FreshCovers(st'.tracked, reset.value, ip.node);
    }
  }

  /** After a whole reply, each IP in it that was fresh to the receiver is in the receiver's filter. */
  lemma {:induction false} ReplyTaken(st: State, reply: seq<IP>, trackAll: bool, resets: seq<Reset>, ip: IP)
    requires |resets| == |reply| && DistinctNodes(reply) && forall i :: 0 <= i < |resets| ==> resets[i].Some?
    requires ip.node in st.tracked && st.tracked[ip.node].ip.Some? ==> st.tracked[ip.node].ip.value.node == ip.node
    requires Fresh(st, ip, trackAll) && Covered(st, ip.node)
    ensures var st' := Process(st, reply, trackAll, resets);
            && (ip in reply ==> Taken(st', ip))
            && ((forall i :: 0 <= i < |reply| ==> reply[i].node != ip.node) ==>
                  Fresh(st', ip, trackAll) && Covered(st', ip.node) && st'.tracked[ip.node] == st.tracked[ip.node])
  {
    hide TakeIn, Covered, Taken;
    if reply != [] {
      var n := |reply| - 1;
      var last := reply[n];
      ReplyTaken(st, reply[..n], trackAll, resets[..n], ip);
      var st1 := Process(st, reply[..n], trackAll, resets[..n]);
      if last.node == ip.node {
        if ip in reply {
          SameNode(reply, ip);
          assert forall i :: 0 <= i < |reply[..n]| ==> reply[..n][i].node != ip.node;
          TakenNow(st1, ip, trackAll, resets[n]);
        }
      } else {
        assert ip in reply ==> ip in reply[..n];
        TakeInOther(st1, last, trackAll, resets[n], ip);
      }
    }
  }

  lemma SameNode(reply: seq<IP>, ip: IP)
    requires DistinctNodes(reply) && ip in reply && reply[|reply| - 1].node == ip.node
    ensures reply[|reply| - 1] == ip
  {
    var i :| 0 <= i < |reply| && reply[i] == ip;
  }

  /**
   Quiescence: when the receiver asks the unchanged sender again, with any filter that contains its own
   entries, the second reply repeats no IP of the first that was fresh to the receiver.
   */
  lemma NoRepeat(sender: State, validator: bool, q: Query, reply: seq<IP>,
                 receiver: State, trackAll: bool, resets: seq<Reset>, q': Query, reply': seq<IP>, ip: IP)
    requires IsReply(sender, validator, q, reply) && IsReply(sender, validator, q', reply')
    requires Exact(receiver) && AllCovered(receiver)
    requires |resets| == |reply| && forall i :: 0 <= i < |resets| ==> resets[i].Some?
    requires forall g :: g in Process(receiver, reply, trackAll, resets).filter.entries ==> q'.contains(g)
    requires ip in reply && Fresh(receiver, ip, trackAll)
    ensures forall i :: 0 <= i < |reply'| ==> Gossip(reply'[i]) != Gossip(ip)
  {
    assert NodeOk(receiver, ip.node) && Covered(receiver, ip.node);
    ReplyTaken(receiver, reply, trackAll, resets, ip);
    assert q'.contains(Gossip(ip));
    forall i | 0 <= i < |reply'| ensures Gossip(reply'[i]) != Gossip(ip) {
      assert Offered(sender, validator, q', reply'[i]);
    }
  }

  /** With both additions of a node used up and no reset due, its entries in the filter stay as they are. */
  lemma {:induction false} UsedUpStays(st: State, reply: seq<IP>, trackAll: bool, resets: seq<Reset>, g: GossipID)
    requires |resets| == |reply| && st.filter.count + |reply| <= st.filter.maxCount
    requires Additions(st.filter, g.node) == MAX_ENTRIES_PER_NODE && g !in st.filter.entries
    ensures var f := Process(st, reply, trackAll, resets).filter;
            && f.count <= st.filter.count + |reply| && f.maxCount == st.filter.maxCount
            && Additions(f, g.node) == MAX_ENTRIES_PER_NODE && g !in f.entries
  {
    hide TakeIn;
    if reply != [] {
      var n := |reply| - 1;
      UsedUpStays(st, reply[..n], trackAll, resets[..n], g);
      TakeInIs(Process(st, reply[..n], trackAll, resets[..n]), reply[n], trackAll, resets[n]);
    }
  }

  /** A node that is listed with an IP is offered with no other. */
  lemma OneOffer(st: State, validator: bool, q: Query, ip: IP, q': Query, ip': IP)
    requires Exact(st) && Offered(st, validator, q, ip) && Offered(st, validator, q', ip') && ip'.node == ip.node
    ensures ip' == ip
  {
    hide Unwanted, Covers;
    var s :| Covers(st, validator, q, s) && IsListed(st, s, ip.node) && st.subnets[s].listed[ip.node] == ip;
    var t :| Covers(st, validator, q', t) && IsListed(st, t, ip.node) && st.subnets[t].listed[ip.node] == ip';
    assert PairOk(st, s, ip.node) && PairOk(st, t, ip.node);
  }

  /** The same question with another filter. */
  ghost predicate AsksAgain(q: Query, q': Query) {
    q'.requested == q.requested && q'.all == q.all && q'.except == q.except
  }

  /**
   The condition that the additions of the node are not used up matters: with both of them used, a newer IP is taken
   in but does not enter the filter, and a second reply that is not cut short repeats it.
   */
  lemma UsedUpIsRepeated(sender: State, validator: bool, q: Query, reply: seq<IP>,
                         receiver: State, trackAll: bool, resets: seq<Reset>, q': Query, reply': seq<IP>, ip: IP)
    requires Exact(sender) && IsReply(sender, validator, q, reply) && IsReply(sender, validator, q', reply')
    requires |resets| == |reply| && receiver.filter.count + |reply| <= receiver.filter.maxCount
    requires AsksAgain(q, q') && |reply'| < q'.max
    requires forall g :: q'.contains(g) <==> g in Process(receiver, reply, trackAll, resets).filter.entries
    requires ip in reply && Gossip(ip) !in receiver.filter.entries
    requires Additions(receiver.filter, ip.node) == MAX_ENTRIES_PER_NODE
    ensures ip in reply'
  {
    UsedUpStays(receiver, reply, trackAll, resets, Gossip(ip));
    hide Process, Exact;
    OfferedAgain(sender, validator, q, q', ip);
    var i :| 0 <= i < |reply'| && reply'[i].node == ip.node;
    OneOffer(sender, validator, q', ip, q', reply'[i]);
  }

  lemma OfferedAgain(st: State, validator: bool, q: Query, q': Query, ip: IP)
    requires AsksAgain(q, q') && Offered(st, validator, q, ip) && !q'.contains(Gossip(ip))
    ensures Offered(st, validator, q', ip) && Candidate(st, validator, q', ip.node)
  {
    var s :| Covers(st, validator, q, s) && IsListed(st, s, ip.node) && st.subnets[s].listed[ip.node] == ip &&
             !Unwanted(ip, q.except, q.contains);
    assert Covers(st, validator, q', s) && !Unwanted(ip, q'.except, q'.contains);
  }
}
