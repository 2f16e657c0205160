/**
 Whole runs of the locking protocol: no step panics, no run gets stuck before every call is done, every
 run ends, the lock table is empty afterwards, and the commits happened as if one after the other.
 */
module LockRuns {
  import opened Results
  import opened LockTable

  datatype Event = Event(thread: nat, action: Action)

  datatype Committed = Committed(ids: seq<SharedID>, views: seq<Data>, writes: seq<Data>)

  /** One step; what follows a panic is not constrained. */
  ghost predicate Taken(s: Sys, e: Event, s': Sys) {
    Enabled(s, e.thread, e.action) && (!Panics(s, e.thread, e.action) ==> s' == Do(s, e.thread, e.action))
  }

  ghost predicate IsRun(states: seq<Sys>, events: seq<Event>) {
    && |states| == |events| + 1
    && Init(states[0])
    && forall i :: 0 <= i < |events| ==> Taken(states[i], events[i], states[i + 1])
  }

  lemma {:induction false} RunInv(states: seq<Sys>, events: seq<Event>)
    requires IsRun(states, events)
    ensures forall i :: 0 <= i < |states| ==> Inv(states[i])
    ensures forall i :: 0 <= i < |events| ==> Enabled(states[i], events[i].thread, events[i].action)
    ensures forall i :: 0 <= i < |events| ==> !Panics(states[i], events[i].thread, events[i].action)
  {
    hide Inv, Init, Do, Enabled, Panics;
    var n := |events|;
    if n == 0 {
      InitInv(states[0]);
    } else {
      assert IsRun(states[..n], events[..n - 1]) by {
        forall i | 0 <= i < n - 1 ensures Taken(states[..n][i], events[..n - 1][i], states[..n][i + 1]) {
          assert Taken(states[i], events[i], states[i + 1]);
        }
      }
      RunInv(states[..n], events[..n - 1]);
      assert Inv(states[..n][n - 1]);
      assert Taken(states[n - 1], events[n - 1], states[n]);
      StepInv(states[n - 1], events[n - 1].thread, events[n - 1].action);
      forall i | 0 <= i < |states| ensures Inv(states[i]) {
        if i < n { assert Inv(states[..n][i]); }
      }
      forall i | 0 <= i < n
        ensures Enabled(states[i], events[i].thread, events[i].action) &&
                !Panics(states[i], events[i].thread, events[i].action)
      {
        if i < n - 1 {
          assert states[..n][i] == states[i] && events[..n - 1][i] == events[i];
        }
      }
    }
  }

  // ---------- no deadlock ----------

  predicate Done(th: Thread) {
    th.phase == Releasing(0)
  }

  ghost predicate AllDone(s: Sys) {
    forall t :: 0 <= t < |s.threads| ==> Done(s.threads[t])
  }

  ghost predicate CanStep(s: Sys) {
    exists t, a :: Enabled(s, t, a)
  }

  function Bound(threads: seq<Thread>): (b: nat)
    ensures forall t, i :: 0 <= t < |threads| && 0 <= i < |threads[t].ids| ==> threads[t].ids[i] < b
  {
    if threads == [] then 0 else
      var n := |threads| - 1;
      var a, c := Bound(threads[..n]), IdBound(threads[n].ids);
      assert forall t :: 0 <= t < n ==> threads[..n][t] == threads[t];
      if a < c then c else a
  }

  function IdBound(ids: seq<SharedID>): (b: nat)
    ensures forall i :: 0 <= i < |ids| ==> ids[i] < b
  {
    if ids == [] then 0 else
      var a := IdBound(ids[..|ids| - 1]);
      var last := ids[|ids| - 1];
      assert forall i :: 0 <= i < |ids| - 1 ==> ids[..|ids| - 1][i] == ids[i];
      if a <= last then last + 1 else a
  }

  /** A call that is not done and not kept waiting. */
  predicate Ready(s: Sys, t: nat) {
    t < |s.threads| && !Done(s.threads[t]) && (s.threads[t].phase.Waiting? ==> Enabled(s, t, TakeLock))
  }

  /** Who holds the lock a call waits for, if it waits too, waits for a greater ID. */
  lemma HolderWaitsHigher(s: Sys, t: nat, u: nat)
    requires Inv(s) && t < |s.threads| && u < |s.threads|
    requires s.threads[t].phase.Waiting? && s.threads[t].phase.held < |s.threads[t].locks|
    requires Holds(s.threads[u], s.threads[t].locks[s.threads[t].phase.held])
    ensures !Done(s.threads[u])
    ensures s.threads[u].phase.Waiting? ==>
              && s.threads[u].phase.held < |s.threads[u].ids| && s.threads[t].phase.held < |s.threads[t].ids|
              && s.threads[t].ids[s.threads[t].phase.held] < s.threads[u].ids[s.threads[u].phase.held]
  {
    assert ThreadOk(s, t) && ThreadOk(s, u);
  }

  /** From a call that is not done, following who holds what it waits for leads to one that can go on. */
  lemma {:induction false} Follow(s: Sys, t: nat) returns (u: nat)
    requires Inv(s) && t < |s.threads| && !Done(s.threads[t])
    ensures Ready(s, u)
    decreases if s.threads[t].phase.Waiting? && s.threads[t].phase.held < |s.threads[t].ids|
              then Bound(s.threads) - s.threads[t].ids[s.threads[t].phase.held] else Bound(s.threads) + 1
  {
    var th := s.threads[t];
    u := t;
    if th.phase.Waiting? {
      assert ThreadOk(s, t);
      var lock := th.locks[th.phase.held];
      if lock in s.owner {
        assert OwnerOk(s, lock);
        u := s.owner[lock];
        HolderWaitsHigher(s, t, u);
        if s.threads[u].phase.Waiting? { u := Follow(s, u); }
      }
    }
  }

  /** In every reachable state either all calls are done or one of them can take a step. */
  lemma NoDeadlock(s: Sys)
    requires Inv(s)
    ensures CanStep(s) <==> !AllDone(s)
  {
    if !AllDone(s) {
      var t :| 0 <= t < |s.threads| && !Done(s.threads[t]);
      var u := Follow(s, t);
      assert ThreadOk(s, u);
      var th := s.threads[u];
      match th.phase
      case Acquiring(k) =>
        assert Enabled(s, u, if k < |th.ids| then MakeLock else Commit(seq(|th.ids|, i => map[])));
      case Waiting(k) => assert Enabled(s, u, TakeLock);
      case Releasing(k) => assert Enabled(s, u, ReleaseLock);
      case Unlocking(k, lock) => assert Enabled(s, u, Unlock);
    }
  }

  // ---------- termination ----------

  /** An upper bound on the steps a call has left. */
  function Left(th: Thread): int {
    var n := |th.ids|;
    match th.phase
    case Acquiring(k) => 2 * n + 1 + 2 * (n - k)
    case Waiting(k) => 2 * n + 2 * (n - k)
    case Releasing(k) => 2 * k
    case Unlocking(k, _) => 2 * k + 1
  }

  function TotalLeft(threads: seq<Thread>): int {
    if threads == [] then 0 else TotalLeft(threads[..|threads| - 1]) + Left(threads[|threads| - 1])
  }

  lemma {:induction false} TotalUpdate(threads: seq<Thread>, t: nat, th: Thread)
    requires t < |threads|
    ensures TotalLeft(threads[t := th]) == TotalLeft(threads) - Left(threads[t]) + Left(th)
  {
    hide Left;
    var n := |threads| - 1;
    if t < n {
      TotalUpdate(threads[..n], t, th);
      assert threads[t := th][..n] == threads[..n][t := th];
    } else {
      assert threads[t := th][..n] == threads[..n];
    }
  }

  lemma {:induction false} TotalPositive(threads: seq<Thread>)
    requires forall t :: 0 <= t < |threads| ==> LocalOk(threads[t])
    ensures 0 <= TotalLeft(threads)
  {
    if threads != [] {
      assert LocalOk(threads[|threads| - 1]);
      TotalPositive(threads[..|threads| - 1]);
    }
  }

  lemma StepLowers(s: Sys, t: nat, a: Action)
    requires Inv(s) && Enabled(s, t, a) && !Panics(s, t, a)
    ensures TotalLeft(Do(s, t, a).threads) < TotalLeft(s.threads)
  {
    assert ThreadOk(s, t);
    var s' := Do(s, t, a);
    assert s'.threads == s.threads[t := s'.threads[t]];
    TotalUpdate(s.threads, t, s'.threads[t]);
  }

  /** Every run ends: it has no more steps than the calls had at its start. */
  lemma {:induction false} RunsEnd(states: seq<Sys>, events: seq<Event>)
    requires IsRun(states, events)
    ensures |events| + TotalLeft(states[|events|].threads) <= TotalLeft(states[0].threads)
    ensures |events| <= TotalLeft(states[0].threads)
  {
    hide Inv, TotalLeft, Do, Enabled, Panics;
    RunInv(states, events);
    for i := 0 to |events|
      invariant i + TotalLeft(states[i].threads) <= TotalLeft(states[0].threads)
    {
      assert Taken(states[i], events[i], states[i + 1]);
      StepLowers(states[i], events[i].thread, events[i].action);
    }
    AlwaysPositive(states[|events|]);
  }

  lemma AlwaysPositive(s: Sys)
    requires Inv(s)
    ensures 0 <= TotalLeft(s.threads)
  {
    forall t | 0 <= t < |s.threads| ensures LocalOk(s.threads[t]) {
      assert ThreadOk(s, t);
    }
    TotalPositive(s.threads);
  }

  /** A state in which every call is done holds no lock any more. */
  lemma DoneIsEmpty(s: Sys)
    requires Inv(s) && AllDone(s)
    ensures s.table == map[] && s.owner == map[]
  {
    forall t: nat | t < |s.threads| ensures s.threads[t].locks == [] {
      assert ThreadOk(s, t);
    }
    forall id ensures id !in s.table {
      assert Users(s.threads, id) == {};
    }
  }

  /** A run that cannot go on has finished every call, and left no lock behind. */
  lemma MaximalRun(states: seq<Sys>, events: seq<Event>)
    requires IsRun(states, events) && !CanStep(states[|events|])
    ensures AllDone(states[|events|])
    ensures states[|events|].table == map[] && states[|events|].owner == map[]
  {
    hide Do, Enabled, Panics, Inv;
    RunInv(states, events);
    NoDeadlock(states[|events|]);
    DoneIsEmpty(states[|events|]);
  }

  // ---------- the commits, one after the other ----------

  ghost function Commits(states: seq<Sys>, events: seq<Event>, n: nat): seq<Committed>
    requires |states| == |events| + 1 && n <= |events|
  {
    if n == 0 then [] else
      var s, e := states[n - 1], events[n - 1];
      Commits(states, events, n - 1) +
        if e.action.Commit? && e.thread < |s.threads|
        then [Committed(s.threads[e.thread].ids, s.threads[e.thread].views, e.action.writes)] else []
  }

  /** The calls run one at a time: each sees the data its predecessors left, and writes. */
  ghost predicate Replays(db: map<SharedID, Data>, cs: seq<Committed>, db': map<SharedID, Data>) {
    if cs == [] then db' == db else
      var c := cs[|cs| - 1];
      exists d :: Replays(db, cs[..|cs| - 1], d) && Sees(c, d) && db' == Written(d, c.ids, c.writes)
  }

  ghost predicate Sees(c: Committed, db: map<SharedID, Data>) {
    && |c.ids| == |c.views| == |c.writes|
    && forall i :: 0 <= i < |c.ids| ==> c.views[i] == Contents(db, c.ids[i])
  }

  /** The database after any run is the one the committed calls leave when run alone, in commit order. */
  lemma {:induction false} Serializable(states: seq<Sys>, events: seq<Event>, n: nat)
    requires IsRun(states, events) && n <= |events|
    ensures Replays(states[0].db, Commits(states, events, n), states[n].db)
  {
    hide Inv, Panics, Init, Do, Replays;
    if n == 0 {
      NoCommits(states[0].db);
    } else {
      RunInv(states, events);
      Serializable(states, events, n - 1);
      var s, e := states[n - 1], events[n - 1];
      assert Taken(s, e, states[n]);
      var cs := Commits(states, events, n - 1);
      if e.action.Commit? {
        CommitSeesCurrent(s, e.thread, e.action);
        CommitReplays(states[0].db, cs, s, e, states[n]);
      } else {
        OnlyCommitsWrite(s, e.thread, e.action);
        assert Commits(states, events, n) == cs;
      }
    }
  }

  lemma NoCommits(db: map<SharedID, Data>)
    ensures Replays(db, [], db)
  {
  }

  lemma OnlyCommitsWrite(s: Sys, t: nat, a: Action)
    requires Enabled(s, t, a) && !Panics(s, t, a) && !a.Commit?
    ensures Do(s, t, a).db == s.db
  {
  }

  lemma CommitReplays(db: map<SharedID, Data>, cs: seq<Committed>, s: Sys, e: Event, s': Sys)
    requires Replays(db, cs, s.db) && e.action.Commit? && Enabled(s, e.thread, e.action) &&
             s' == Do(s, e.thread, e.action)
    requires var th := s.threads[e.thread];
             |th.views| == |th.ids| && forall i :: 0 <= i < |th.ids| ==> th.views[i] == Contents(s.db, th.ids[i])
    ensures var th := s.threads[e.thread];
            Replays(db, cs + [Committed(th.ids, th.views, e.action.writes)], s'.db)
  {
    var th := s.threads[e.thread];
    var c := Committed(th.ids, th.views, e.action.writes);
    var cs' := cs + [c];
    assert cs'[..|cs'| - 1] == cs && cs'[|cs'| - 1] == c;
    assert Sees(c, s.db);
    assert Replays(db, cs'[..|cs'| - 1], s.db);
  }

  // ---------- the table as programmed ----------

  class Memory {
    var locks: map<SharedID, RcLock>

    constructor ()
      ensures locks == map[]
    {
      locks := map[];
    }

    /** `serial` tells the lock object apart from every earlier one. */
    method MakeLock(id: SharedID, serial: nat) returns (lock: Lock)
      modifies this
      ensures (locks, lock) == Made(old(locks), serial, id)
    {
      if id !in locks {
        locks := locks[id := RcLock(Lock(id, serial), 0)];
      }
      var rc := locks[id].(count := locks[id].count + 1);
      locks := locks[id := rc];
      assert locks == old(locks)[id := rc];
      return rc.lock;
    }

    /** Nothing is returned where the source panics. A count is never zero in the table. */
    method ReleaseLock(id: SharedID) returns (lock: Option<Lock>)
      requires id in locks ==> 0 < locks[id].count
      modifies this
      ensures lock.None? <==> id !in old(locks)
      ensures lock.None? ==> locks == old(locks)
      ensures lock.Some? ==> lock.value == old(locks)[id].lock && locks == Released(old(locks), id)
    {
      if id !in locks { return None; }
      var rc := locks[id].(count := locks[id].count - 1);
      locks := locks[id := rc];
      if rc.count == 0 {
        locks := locks - {id};
        assert locks == old(locks) - {id};
      }
      return Some(rc.lock);
    }
  }
}
