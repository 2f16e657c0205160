/**
 Concurrent calls of `Apply`, `Get` and `Indexed`, from the single lock to the memory they leave: the locking
 protocol run by calls that compute on shared memory and by readers of it. The commits of every interleaving form a
 history, and a reader sees one moment of it. If no chain exports or imports a key twice, every call goes through,
 and the memory holds what was exported and not imported.
 */
module ConcurrentMemory {
  import opened Results
  import opened Bytes
  import opened SharedState
  import opened Confluence
  import opened SharedMemory
  import opened History
  import LT = LockTable
  import LR = LockRuns

  /** The shared ID of an ordered pair of chains; a hash, so in no particular order. */
  type Naming = (ChainID, ChainID) -> LT.SharedID

  ghost predicate Injective(name: Naming) {
    forall a, b, c, d :: name(a, b) == name(c, d) ==> a == c && b == d
  }

  function NameOf(name: Naming, slot: Slot): LT.SharedID {
    name(slot.low, slot.high)
  }

  function StoreIn(data: LT.Data, prefix: nat): Store {
    if prefix in data then data[prefix] else EMPTY
  }

  /** The stores of a database keyed by shared ID and prefix. */
  function StoresOf(name: Naming, db: map<LT.SharedID, LT.Data>): Stores {
    slot => StoreIn(LT.Contents(db, NameOf(name, slot)), slot.prefix)
  }

  // ---------- what a call computes ----------

  /** The IDs a call locks are those of its pairs. */
  ghost predicate LocksFor(name: Naming, c: Call, ids: seq<LT.SharedID>) {
    && (forall p :: p in c.requests ==> NameOf(name, Inbound(c.me, p)) in ids)
    && forall i :: 0 <= i < |ids| ==> exists p :: p in c.requests && ids[i] == NameOf(name, Inbound(c.me, p))
  }

  /** From what it read under its locks the call computes what it writes. */
  ghost predicate Computes(name: Naming, c: Call, ids: seq<LT.SharedID>, views: seq<LT.Data>, writes: seq<LT.Data>) {
    && |ids| == |views| == |writes|
    && forall slot, i :: 0 <= i < |ids| && NameOf(name, slot) == ids[i] ==>
         Run(StoreIn(views[i], slot.prefix), SlotOps(slot, c)) == Ok(StoreIn(writes[i], slot.prefix))
  }

  /** An operation is refused on what it read so far. */
  ghost predicate Stops(name: Naming, c: Call, ids: seq<LT.SharedID>, views: seq<LT.Data>) {
    exists slot, i :: 0 <= i < |ids| && i < |views| && NameOf(name, slot) == ids[i]
                      && Run(StoreIn(views[i], slot.prefix), SlotOps(slot, c)).Err?
  }

  /**
   Thread `t` runs call `calls[t]`: it goes on to the next ID unless an operation was refused, commits
   what it computed, and gives up only when refused. The threads after these are readers, which never commit.
   */
  ghost predicate Follows(name: Naming, calls: seq<Call>, s: LT.Sys, e: LR.Event) {
    e.thread < |s.threads| ==>
      if e.thread >= |calls| then !e.action.Commit? else
        var th := s.threads[e.thread];
        match e.action
        case Commit(writes) => Computes(name, calls[e.thread], th.ids, th.views, writes)
        case Leave => Stops(name, calls[e.thread], th.ids, th.views)
        case MakeLock => !Stops(name, calls[e.thread], th.ids, th.views)
        case _ => true
  }

  /** A call of `Get` or `Indexed` by one chain for what another sent; it locks the one ID of the pair. */
  datatype Reader = Reader(me: ChainID, peer: ChainID)

  function ReaderIDs(name: Naming, r: Reader): seq<LT.SharedID> {
    [NameOf(name, Inbound(r.me, r.peer))]
  }

  ghost predicate ThreadsRun(name: Naming, calls: seq<Call>, readers: seq<Reader>, threads: seq<LT.Thread>) {
    && |threads| == |calls| + |readers|
    && (forall t :: 0 <= t < |calls| ==> LocksFor(name, calls[t], threads[t].ids))
    && forall r :: 0 <= r < |readers| ==> threads[|calls| + r].ids == ReaderIDs(name, readers[r])
  }

  ghost predicate IsExecution(name: Naming, calls: seq<Call>, readers: seq<Reader>, states: seq<LT.Sys>,
                              events: seq<LR.Event>) {
    && Injective(name)
    && LR.IsRun(states, events)
    && ThreadsRun(name, calls, readers, states[0].threads) && states[0].db == map[]
    && forall i :: 0 <= i < |events| ==> Follows(name, calls, states[i], events[i])
  }

  // ---------- no key twice ----------

  function PutsFor(c: Call, a: ChainID, b: ChainID): seq<Element> {
    if c.me == a && b in c.requests then c.requests[b].puts else []
  }

  function RemovesFor(c: Call, b: ChainID, a: ChainID): seq<bytes> {
    if c.me == b && a in c.requests then c.requests[a].removes else []
  }

  /** No chain puts a key twice for the same peer, or removes one twice, in one call or in two. */
  ghost predicate NoKeyTwice(calls: seq<Call>) {
    forall a, b, t :: 0 <= t < |calls| ==>
      && NoRepeat(Keys(PutsFor(calls[t], a, b))) && NoRepeat(RemovesFor(calls[t], b, a))
      && forall u :: 0 <= u < |calls| && u != t ==> Apart(calls[t], calls[u], a, b)
  }

  ghost predicate Apart(c: Call, d: Call, a: ChainID, b: ChainID) {
    && (forall k :: k in Keys(PutsFor(c, a, b)) ==> k !in Keys(PutsFor(d, a, b)))
    && (forall k :: k in RemovesFor(c, b, a) ==> k !in RemovesFor(d, b, a))
  }

  /** Some of the calls, in some order. */
  function Pick(calls: seq<Call>, order: seq<nat>): seq<Call>
    requires forall i :: 0 <= i < |order| ==> order[i] < |calls|
  {
    seq(|order|, i requires 0 <= i < |order| => calls[order[i]])
  }

  /** What is in the exports of some calls is in the puts of one of them. */
  lemma {:induction false} ExportsFrom(calls: seq<Call>, order: seq<nat>, a: ChainID, b: ChainID, k: bytes)
    requires forall i :: 0 <= i < |order| ==> order[i] < |calls|
    ensures k in Keys(Exports(Pick(calls, order), a, b)) <==>
            exists i :: 0 <= i < |order| && k in Keys(PutsFor(calls[order[i]], a, b))
    ensures k in Imports(Pick(calls, order), b, a) <==>
            exists i :: 0 <= i < |order| && k in RemovesFor(calls[order[i]], b, a)
  {
    hide Exports, Imports, PutsFor, RemovesFor, Keys, Pick;
    if order == [] {
      NonePicked(calls, a, b);
    } else {
      var n := |order| - 1;
      ExportsFrom(calls, order[..n], a, b, k);
      LastPicked(calls, order, a, b);
      assert forall i :: 0 <= i < n ==> order[..n][i] == order[i];
      assert k in Keys(PutsFor(calls[order[n]], a, b)) ==> 0 <= n < |order|;
    }
  }

  lemma NonePicked(calls: seq<Call>, a: ChainID, b: ChainID)
    ensures Keys(Exports(Pick(calls, []), a, b)) == [] && Imports(Pick(calls, []), b, a) == []
  {
  }

  lemma LastPicked(calls: seq<Call>, order: seq<nat>, a: ChainID, b: ChainID)
    requires order != [] && forall i :: 0 <= i < |order| ==> order[i] < |calls|
    ensures var init, c := order[..|order| - 1], calls[order[|order| - 1]];
            && Keys(Exports(Pick(calls, order), a, b)) ==
               Keys(Exports(Pick(calls, init), a, b)) + Keys(PutsFor(c, a, b))
            && Imports(Pick(calls, order), b, a) == Imports(Pick(calls, init), b, a) + RemovesFor(c, b, a)
  {
    var n := |order| - 1;
    var p := Pick(calls, order);
    assert p[..n] == Pick(calls, order[..n]) && p[n] == calls[order[n]];
    assert Exports(p, a, b) == Exports(p[..n], a, b) + PutsFor(p[n], a, b);
    assert Imports(p, b, a) == Imports(p[..n], b, a) + RemovesFor(p[n], b, a);
    KeysAppend(Exports(Pick(calls, order[..n]), a, b), PutsFor(calls[order[n]], a, b));
  }

  lemma KeysAppend(es: seq<Element>, fs: seq<Element>)
    ensures Keys(es + fs) == Keys(es) + Keys(fs)
  {
  }

  lemma JoinNoRepeat<T(!new)>(a: seq<T>, b: seq<T>)
    requires NoRepeat(a) && NoRepeat(b) && forall x :: x in b ==> x !in a
    ensures NoRepeat(a + b)
  {
    forall i, j | 0 <= i < j < |a + b| ensures (a + b)[i] != (a + b)[j] {
      if i < |a| <= j { assert (a + b)[j] in b; }
    }
  }

  /** Calls without a key twice are once-each histories in whatever order, and whichever of them. */
  lemma {:induction false} PickedOnce(calls: seq<Call>, order: seq<nat>)
    requires NoKeyTwice(calls) && NoRepeat(order) && forall i :: 0 <= i < |order| ==> order[i] < |calls|
    ensures OnceEach(Pick(calls, order))
  {
    forall a, b
      ensures NoRepeat(Keys(Exports(Pick(calls, order), a, b))) && NoRepeat(Imports(Pick(calls, order), b, a))
    {
      PickedOnceFor(calls, order, a, b);
    }
  }

  lemma {:induction false} PickedOnceFor(calls: seq<Call>, order: seq<nat>, a: ChainID, b: ChainID)
    requires NoKeyTwice(calls) && NoRepeat(order) && forall i :: 0 <= i < |order| ==> order[i] < |calls|
    ensures NoRepeat(Keys(Exports(Pick(calls, order), a, b))) && NoRepeat(Imports(Pick(calls, order), b, a))
  {
    hide Exports, Imports, PutsFor, RemovesFor, Keys, Pick;
    if order == [] {
      NonePicked(calls, a, b);
    } else {
      var n := |order| - 1;
      var init, t := order[..n], order[n];
      PickedOnceFor(calls, init, a, b);
      LastPicked(calls, order, a, b);
      forall k | k in Keys(PutsFor(calls[t], a, b)) ensures k !in Keys(Exports(Pick(calls, init), a, b)) {
        ExportsFrom(calls, init, a, b, k);
        assert forall i :: 0 <= i < n ==> init[i] != t && Apart(calls[t], calls[init[i]], a, b);
      }
      forall k | k in RemovesFor(calls[t], b, a) ensures k !in Imports(Pick(calls, init), b, a) {
        ExportsFrom(calls, init, a, b, k);
        assert forall i :: 0 <= i < n ==> init[i] != t && Apart(calls[t], calls[init[i]], a, b);
      }
      JoinNoRepeat(Keys(Exports(Pick(calls, init), a, b)), Keys(PutsFor(calls[t], a, b)));
      JoinNoRepeat(Imports(Pick(calls, init), b, a), RemovesFor(calls[t], b, a));
    }
  }

  // ---------- a commit is a step of a history ----------

  lemma {:induction false} WrittenAt(db: map<LT.SharedID, LT.Data>, ids: seq<LT.SharedID>, writes: seq<LT.Data>, i: nat)
    requires |ids| == |writes| && LT.Increasing(ids) && i < |ids|
    ensures LT.Contents(LT.Written(db, ids, writes), ids[i]) == writes[i]
  {
    var n := |ids| - 1;
    if i < n { WrittenAt(db, ids[..n], writes[..n], i); }
  }

  /** A store the call has operations for is under one of its IDs. */
  lemma TouchedIsLocked(name: Naming, c: Call, ids: seq<LT.SharedID>, slot: Slot)
    requires LocksFor(name, c, ids) && SlotOps(slot, c) != []
    ensures NameOf(name, slot) in ids
  {
    var peer := Peer(slot, c.me);
    assert peer in c.requests;
    assert slot.low == Inbound(c.me, peer).low && slot.high == Inbound(c.me, peer).high;
  }

  lemma CommitApplies(name: Naming, c: Call, ids: seq<LT.SharedID>, views: seq<LT.Data>, writes: seq<LT.Data>,
                      db: map<LT.SharedID, LT.Data>)
    requires LocksFor(name, c, ids) && LT.Increasing(ids) && Computes(name, c, ids, views, writes)
    requires forall i :: 0 <= i < |ids| ==> views[i] == LT.Contents(db, ids[i])
    ensures AppliedTo(StoresOf(name, db), c, StoresOf(name, LT.Written(db, ids, writes)))
  {
    hide SlotOps;
    var m, m' := StoresOf(name, db), StoresOf(name, LT.Written(db, ids, writes));
    forall slot ensures Run(m(slot), SlotOps(slot, c)) == Ok(m'(slot)) {
      if NameOf(name, slot) in ids {
        var i :| 0 <= i < |ids| && ids[i] == NameOf(name, slot);
        WrittenAt(db, ids, writes, i);
        assert Run(StoreIn(views[i], slot.prefix), SlotOps(slot, c)) == Ok(StoreIn(writes[i], slot.prefix));
      } else {
        LT.WrittenElsewhere(db, ids, writes, NameOf(name, slot));
        if SlotOps(slot, c) != [] { TouchedIsLocked(name, c, ids, slot); }
      }
    }
  }

  /** A refusal on what was read is a refusal by the memory as it is. */
  lemma StopRefused(name: Naming, c: Call, ids: seq<LT.SharedID>, views: seq<LT.Data>, db: map<LT.SharedID, LT.Data>)
    requires Stops(name, c, ids, views)
    requires forall i :: 0 <= i < |views| && i < |ids| ==> views[i] == LT.Contents(db, ids[i])
    ensures RefusedBy(StoresOf(name, db), c)
  {
    var slot, i :| 0 <= i < |ids| && i < |views| && NameOf(name, slot) == ids[i]
                   && Run(StoreIn(views[i], slot.prefix), SlotOps(slot, c)).Err?;
    assert Run(StoresOf(name, db)(slot), SlotOps(slot, c)).Err?;
  }

  // ---------- executions ----------

  /** The threads that have committed, in order. */
  ghost function Order(events: seq<LR.Event>, n: nat): seq<nat>
    requires n <= |events|
  {
    if n == 0 then []
    else Order(events, n - 1) + if events[n - 1].action.Commit? then [events[n - 1].thread] else []
  }

  /** The memory before the first commit and after each. */
  ghost function Moments(name: Naming, states: seq<LT.Sys>, events: seq<LR.Event>, n: nat): seq<Stores>
    requires |states| == |events| + 1 && n <= |events|
  {
    if n == 0 then [StoresOf(name, states[0].db)]
    else Moments(name, states, events, n - 1) +
         if events[n - 1].action.Commit? then [StoresOf(name, states[n].db)] else []
  }

  predicate Left(th: LT.Thread) {
    th.phase.Releasing? || th.phase.Unlocking?
  }

  /** What all threads keep: their IDs, and that they do not begin again. */
  ghost predicate Keeps(s: LT.Sys, s': LT.Sys) {
    && |s'.threads| == |s.threads|
    && forall t :: 0 <= t < |s.threads| ==>
       s'.threads[t].ids == s.threads[t].ids && (Left(s.threads[t]) ==> Left(s'.threads[t]))
  }

  lemma StepKeeps(s: LT.Sys, t: nat, a: LT.Action)
    requires LT.Enabled(s, t, a) && !LT.Panics(s, t, a)
    ensures Keeps(s, LT.Do(s, t, a))
    ensures a.Commit? || a.Leave? ==> !Left(s.threads[t]) && Left(LT.Do(s, t, a).threads[t])
    ensures !a.Commit? && !a.Leave? && Left(LT.Do(s, t, a).threads[t]) ==> Left(s.threads[t])
    ensures !a.Commit? ==> LT.Do(s, t, a).db == s.db
  {
  }

  /** The calls that have left the locked part are those that committed. */
  ghost predicate ThreadsSofar(calls: seq<Call>, s: LT.Sys, order: seq<nat>) {
    && |calls| <= |s.threads|
    && NoRepeat(order)
    && (forall i :: 0 <= i < |order| ==> order[i] < |calls| && Left(s.threads[order[i]]))
    && (forall t :: 0 <= t < |calls| && Left(s.threads[t]) ==> t in order)
  }

  /** The memory so far is a history of the calls that committed. */
  ghost predicate MemorySofar(name: Naming, calls: seq<Call>, db: map<LT.SharedID, LT.Data>, order: seq<nat>,
                              moments: seq<Stores>) {
    && (forall i :: 0 <= i < |order| ==> order[i] < |calls|)
    && |moments| == |order| + 1
    && IsHistory(moments, Pick(calls, order))
    && moments[|order|] == StoresOf(name, db)
  }

  lemma ThreadsQuiet(calls: seq<Call>, s: LT.Sys, s': LT.Sys, t: nat, order: seq<nat>)
    requires ThreadsSofar(calls, s, order) && Keeps(s, s') && t < |s.threads|
    requires t < |calls| && Left(s'.threads[t]) ==> Left(s.threads[t])
    requires forall u :: 0 <= u < |s.threads| && u != t ==> s'.threads[u] == s.threads[u]
    ensures ThreadsSofar(calls, s', order)
  {
    hide NoRepeat, Left;
  }

  lemma ThreadsCommit(calls: seq<Call>, s: LT.Sys, s': LT.Sys, t: nat, order: seq<nat>)
    requires ThreadsSofar(calls, s, order) && Keeps(s, s') && t < |calls|
    requires !Left(s.threads[t]) && Left(s'.threads[t])
    requires forall u :: 0 <= u < |s.threads| && u != t ==> s'.threads[u] == s.threads[u]
    ensures ThreadsSofar(calls, s', order + [t]) && t !in order
  {
    hide Left;
    assert t !in order;
    JoinNoRepeat(order, [t]);
  }

  lemma MemoryCommit(name: Naming, calls: seq<Call>, db: map<LT.SharedID, LT.Data>, db': map<LT.SharedID, LT.Data>,
                     order: seq<nat>, moments: seq<Stores>, t: nat)
    requires MemorySofar(name, calls, db, order, moments) && t < |calls|
    requires AppliedTo(StoresOf(name, db), calls[t], StoresOf(name, db'))
    ensures MemorySofar(name, calls, db', order + [t], moments + [StoresOf(name, db')])
  {
    hide AppliedTo, IsHistory;
    HistoryAppend(moments, Pick(calls, order), calls[t], StoresOf(name, db'));
    PickAppend(calls, order, t);
  }

  /** With no key twice, the memory so far refuses none of the calls that are still to come. */
  lemma MemoryRefusesNone(name: Naming, calls: seq<Call>, db: map<LT.SharedID, LT.Data>, order: seq<nat>,
                          moments: seq<Stores>, t: nat)
    requires MemorySofar(name, calls, db, order, moments) && NoKeyTwice(calls)
    requires NoRepeat(order) && t < |calls| && t !in order
    ensures !RefusedBy(StoresOf(name, db), calls[t])
  {
    hide IsHistory, NoKeyTwice, OnceEach, RefusedBy;
    JoinNoRepeat(order, [t]);
    PickedOnce(calls, order + [t]);
    PickAppend(calls, order, t);
    NotRefused(moments, Pick(calls, order), calls[t]);
  }

  /** Where every key comes once, the next call is not refused. */
  lemma NotRefused(moments: seq<Stores>, cs: seq<Call>, c: Call)
    requires IsHistory(moments, cs) && OnceEach(cs + [c])
    ensures !RefusedBy(moments[|cs|], c)
  {
    hide OnceEach, Run, SlotOps, SlotHistory, IsHistory;
    var all := cs + [c];
    assert all[..|all| - 1] == cs && all[|all| - 1] == c;
    OncePrefix(all);
    EveryCallApplies(moments, cs);
    HistoryLength(moments, cs);
    forall slot ensures Run(moments[|cs|](slot), SlotOps(slot, c)).Ok? {
      LastCall(slot, all, moments[|cs|](slot));
    }
  }

  lemma HistoryLength(moments: seq<Stores>, cs: seq<Call>)
    requires IsHistory(moments, cs)
    ensures |moments| == |cs| + 1
  {
  }

  lemma HistoryAppend(moments: seq<Stores>, cs: seq<Call>, c: Call, m: Stores)
    requires IsHistory(moments, cs) && AppliedTo(moments[|cs|], c, m)
    ensures IsHistory(moments + [m], cs + [c])
  {
    hide AppliedTo, RefusedBy;
    var moments', cs' := moments + [m], cs + [c];
    forall i | 0 <= i < |cs'| ensures Outcome(moments'[i], cs'[i], moments'[i + 1]) {
      if i < |cs| { assert Outcome(moments[i], cs[i], moments[i + 1]); }
    }
  }

  lemma PickAppend(calls: seq<Call>, order: seq<nat>, t: nat)
    requires t < |calls| && forall i :: 0 <= i < |order| ==> order[i] < |calls|
    ensures Pick(calls, order + [t]) == Pick(calls, order) + [calls[t]]
  {
  }

  /** What one event of an execution leaves as it was. */
  lemma Entered(name: Naming, calls: seq<Call>, readers: seq<Reader>, states: seq<LT.Sys>, events: seq<LR.Event>,
                n: nat)
    requires IsExecution(name, calls, readers, states, events) && 0 < n <= |events|
    ensures var s, e := states[n - 1], events[n - 1];
            && LT.Inv(s) && LT.Enabled(s, e.thread, e.action) && e.thread < |s.threads|
            && !LT.Panics(s, e.thread, e.action) && states[n] == LT.Do(s, e.thread, e.action)
            && Follows(name, calls, s, e)
            && Keeps(s, states[n])
            && (e.action.Commit? || e.action.Leave? ==> !Left(s.threads[e.thread]) && Left(states[n].threads[e.thread]))
            && (!e.action.Commit? && !e.action.Leave? && Left(states[n].threads[e.thread]) ==>
                Left(s.threads[e.thread]))
            && (!e.action.Commit? ==> states[n].db == s.db)
            && forall t :: 0 <= t < |s.threads| && t != e.thread ==> states[n].threads[t] == s.threads[t]
  {
    hide LT.Inv, Follows;
    var s, e := states[n - 1], events[n - 1];
    LR.RunInv(states, events);
    assert LR.Taken(s, e, states[n]);
    StepKeeps(s, e.thread, e.action);
  }

  lemma CommitStep(name: Naming, c: Call, s: LT.Sys, t: nat, writes: seq<LT.Data>)
    requires LT.Inv(s) && LT.Enabled(s, t, LT.Commit(writes)) && LocksFor(name, c, s.threads[t].ids)
    requires Computes(name, c, s.threads[t].ids, s.threads[t].views, writes)
    ensures AppliedTo(StoresOf(name, s.db), c, StoresOf(name, LT.Do(s, t, LT.Commit(writes)).db))
  {
    hide AppliedTo, LocksFor, Computes;
    LT.CommitSeesCurrent(s, t, LT.Commit(writes));
    assert LT.ThreadOk(s, t);
    CommitApplies(name, c, s.threads[t].ids, s.threads[t].views, writes, s.db);
  }

  lemma LeaveRefused(name: Naming, c: Call, s: LT.Sys, t: nat)
    requires LT.Inv(s) && LT.Enabled(s, t, LT.Leave) && Stops(name, c, s.threads[t].ids, s.threads[t].views)
    ensures RefusedBy(StoresOf(name, s.db), c)
  {
    hide RefusedBy, Stops;
    assert LT.ThreadOk(s, t);
    StopRefused(name, c, s.threads[t].ids, s.threads[t].views, s.db);
  }

  /** At every moment of every execution the memory is that of a history of the calls committed so far. */
  lemma {:induction false} HistorySofar(name: Naming, calls: seq<Call>, readers: seq<Reader>, states: seq<LT.Sys>,
                                        events: seq<LR.Event>, n: nat)
    requires IsExecution(name, calls, readers, states, events) && n <= |events|
    ensures |states| == |events| + 1
    ensures MemorySofar(name, calls, states[n].db, Order(events, n), Moments(name, states, events, n))
  {
    hide LT.Inv, LT.Do, LT.Panics, LT.Enabled, AppliedTo, Computes, MemorySofar, LR.IsRun, Follows;
    Shape(name, calls, readers, states, events);
    if n == 0 {
      StartHistory(name, calls, readers, states, events);
    } else {
      HistorySofar(name, calls, readers, states, events, n - 1);
      CommitOrNot(name, calls, readers, states, events, n);
    }
  }

  lemma StartHistory(name: Naming, calls: seq<Call>, readers: seq<Reader>, states: seq<LT.Sys>, events: seq<LR.Event>)
    requires IsExecution(name, calls, readers, states, events)
    ensures |states| == |events| + 1
    ensures MemorySofar(name, calls, states[0].db, Order(events, 0), Moments(name, states, events, 0))
  {
    assert Pick(calls, []) == [];
  }

  /** A commit takes the history one call further, and nothing else changes the memory. */
  lemma CommitOrNot(name: Naming, calls: seq<Call>, readers: seq<Reader>, states: seq<LT.Sys>, events: seq<LR.Event>,
                    n: nat)
    requires IsExecution(name, calls, readers, states, events) && 0 < n <= |events| && |states| == |events| + 1
    requires MemorySofar(name, calls, states[n - 1].db, Order(events, n - 1), Moments(name, states, events, n - 1))
    ensures MemorySofar(name, calls, states[n].db, Order(events, n), Moments(name, states, events, n))
  {
    hide IsExecution, LT.Inv, LT.Do, LT.Panics, AppliedTo, Computes, MemorySofar, LocksFor;
    var s, e := states[n - 1], events[n - 1];
    Entered(name, calls, readers, states, events, n);
    LocksKept(name, calls, readers, states, events, n - 1);
    if e.action.Commit? {
      CommitStep(name, calls[e.thread], s, e.thread, e.action.writes);
      MemoryCommit(name, calls, s.db, states[n].db, Order(events, n - 1), Moments(name, states, events, n - 1),
                   e.thread);
    } else {
      assert Order(events, n) == Order(events, n - 1);
      assert Moments(name, states, events, n) == Moments(name, states, events, n - 1);
    }
  }

  /** With no key twice, no call gives up. */
  lemma NoneLeaves(name: Naming, calls: seq<Call>, readers: seq<Reader>, states: seq<LT.Sys>, events: seq<LR.Event>,
                   n: nat)
    requires IsExecution(name, calls, readers, states, events) && 0 < n <= |events| && NoKeyTwice(calls)
    requires ThreadsSofar(calls, states[n - 1], Order(events, n - 1))
    ensures events[n - 1].action.Leave? ==> |calls| <= events[n - 1].thread
  {
    hide IsExecution, LT.Inv, LT.Do, LT.Panics, RefusedBy, Stops, MemorySofar, NoKeyTwice;
    Shape(name, calls, readers, states, events);
    var s, e := states[n - 1], events[n - 1];
    Entered(name, calls, readers, states, events, n);
    if e.action.Leave? && e.thread < |calls| {
      LeaveRefused(name, calls[e.thread], s, e.thread);
      HistorySofar(name, calls, readers, states, events, n - 1);
      MemoryRefusesNone(name, calls, s.db, Order(events, n - 1), Moments(name, states, events, n - 1), e.thread);
    }
  }

  lemma {:induction false} ExecutionSofar(name: Naming, calls: seq<Call>, readers: seq<Reader>, states: seq<LT.Sys>,
                                          events: seq<LR.Event>, n: nat)
    requires IsExecution(name, calls, readers, states, events) && NoKeyTwice(calls) && n <= |events|
    ensures |states| == |events| + 1 && ThreadsSofar(calls, states[n], Order(events, n))
    ensures forall i :: 0 <= i < n && events[i].action.Leave? ==> |calls| <= events[i].thread
  {
    hide IsExecution, NoKeyTwice, ThreadsSofar, LT.Inv, LT.Do, LT.Panics, LT.Enabled;
    Shape(name, calls, readers, states, events);
    if n == 0 {
      StartThreads(name, calls, readers, states, events);
    } else {
      var e := events[n - 1];
      ExecutionSofar(name, calls, readers, states, events, n - 1);
      NoneLeaves(name, calls, readers, states, events, n);
      Entered(name, calls, readers, states, events, n);
      if e.action.Commit? {
        ThreadsCommit(calls, states[n - 1], states[n], e.thread, Order(events, n - 1));
      } else {
        assert Order(events, n) == Order(events, n - 1);
        ThreadsQuiet(calls, states[n - 1], states[n], e.thread, Order(events, n - 1));
      }
    }
  }

  lemma StartThreads(name: Naming, calls: seq<Call>, readers: seq<Reader>, states: seq<LT.Sys>, events: seq<LR.Event>)
    requires IsExecution(name, calls, readers, states, events)
    ensures |states| == |events| + 1 && ThreadsSofar(calls, states[0], Order(events, 0))
  {
    forall t | 0 <= t < |calls| ensures !Left(states[0].threads[t]) {
      assert LT.Fresh(states[0].threads[t]);
    }
  }

  lemma Shape(name: Naming, calls: seq<Call>, readers: seq<Reader>, states: seq<LT.Sys>, events: seq<LR.Event>)
    requires IsExecution(name, calls, readers, states, events)
    ensures |states| == |events| + 1 && LR.IsRun(states, events)
  {
  }

  // ---------- an execution goes on until every call is done ----------

  /** Some thread has a step that its call takes. */
  ghost predicate CanGoOn(name: Naming, calls: seq<Call>, s: LT.Sys) {
    exists e: LR.Event :: LT.Enabled(s, e.thread, e.action) && Follows(name, calls, s, e)
  }

  /** What a store is after the operations of a call, if they are not refused. */
  function Stepped(s: Store, ops: seq<Op>): Store {
    var r := Run(s, ops);
    if r.Ok? then r.value else s
  }

  /** What a call writes for one of its IDs: the two stores it works on, from what it read. */
  function WriteOf(c: Call, low: ChainID, high: ChainID, view: LT.Data): LT.Data {
    view[SMALLER_PREFIX := Stepped(StoreIn(view, SMALLER_PREFIX), SlotOps(Slot(low, high, SMALLER_PREFIX), c))]
        [LARGER_PREFIX := Stepped(StoreIn(view, LARGER_PREFIX), SlotOps(Slot(low, high, LARGER_PREFIX), c))]
  }

  lemma WriteOfIs(c: Call, slot: Slot, view: LT.Data)
    requires Run(StoreIn(view, slot.prefix), SlotOps(slot, c)).Ok?
    ensures Run(StoreIn(view, slot.prefix), SlotOps(slot, c)) ==
            Ok(StoreIn(WriteOf(c, slot.low, slot.high, view), slot.prefix))
  {
    if slot.prefix != SMALLER_PREFIX && slot.prefix != LARGER_PREFIX {
      assert SlotOps(slot, c) == [];
    }
    hide SlotOps;
    assert slot == Slot(slot.low, slot.high, slot.prefix);
  }

  lemma PairOf(name: Naming, c: Call, ids: seq<LT.SharedID>, i: nat) returns (slot: Slot)
    requires LocksFor(name, c, ids) && i < |ids|
    ensures ids[i] == NameOf(name, slot)
  {
    var id := ids[i];
    var p :| p in c.requests && id == NameOf(name, Inbound(c.me, p));
    slot := Inbound(c.me, p);
  }

  /** A call that was not refused on anything it read can compute what it writes. */
  lemma WritesExist(name: Naming, c: Call, ids: seq<LT.SharedID>, views: seq<LT.Data>) returns (writes: seq<LT.Data>)
    requires Injective(name) && LocksFor(name, c, ids) && |views| == |ids| && !Stops(name, c, ids, views)
    ensures Computes(name, c, ids, views, writes)
  {
    hide Run, SlotOps, WriteOf, LocksFor;
    writes := [];
    for i := 0 to |ids|
      invariant |writes| == i
      invariant forall slot, j :: 0 <= j < i && NameOf(name, slot) == ids[j] ==>
                  Run(StoreIn(views[j], slot.prefix), SlotOps(slot, c)) == Ok(StoreIn(writes[j], slot.prefix))
    {
      var pair := PairOf(name, c, ids, i);
      var write := WriteOf(c, pair.low, pair.high, views[i]);
      forall slot | NameOf(name, slot) == ids[i]
        ensures Run(StoreIn(views[i], slot.prefix), SlotOps(slot, c)) == Ok(StoreIn(write, slot.prefix))
      {
        assert slot.low == pair.low && slot.high == pair.high;
        assert !Run(StoreIn(views[i], slot.prefix), SlotOps(slot, c)).Err?;
        WriteOfIs(c, slot, views[i]);
      }
      writes := writes + [write];
    }
  }

  /** The step a thread that is not kept waiting takes. */
  lemma ReadyGoesOn(name: Naming, calls: seq<Call>, readers: seq<Reader>, s: LT.Sys, t: nat)
    requires Injective(name) && LT.Inv(s) && LR.Ready(s, t) && ThreadsRun(name, calls, readers, s.threads)
    ensures CanGoOn(name, calls, s)
  {
    hide LocksFor, Injective, Computes, Stops;
    assert LT.ThreadOk(s, t);
    var th := s.threads[t];
    if |calls| <= t { assert th.ids == ReaderIDs(name, readers[t - |calls|]); }
    var action := LT.Unlock;
    match th.phase {
      case Acquiring(k) =>
        if |calls| <= t {
          action := if k == 0 then LT.MakeLock else LT.Leave;
        } else if Stops(name, calls[t], th.ids, th.views) {
          StopsHolds(name, calls[t], th.ids, th.views);
          action := LT.Leave;
        } else if k < |th.ids| {
          action := LT.MakeLock;
        } else {
          var writes := WritesExist(name, calls[t], th.ids, th.views);
          ComputesLength(name, calls[t], th.ids, th.views, writes);
          action := LT.Commit(writes);
        }
      case Waiting(k) => action := LT.TakeLock;
      case Releasing(k) => action := LT.ReleaseLock;
      case Unlocking(k, lock) =>
    }
    var e := LR.Event(t, action);
    assert LT.Enabled(s, e.thread, e.action) && Follows(name, calls, s, e);
  }

  lemma StopsHolds(name: Naming, c: Call, ids: seq<LT.SharedID>, views: seq<LT.Data>)
    requires Stops(name, c, ids, views)
    ensures views != []
  {
  }

  lemma ComputesLength(name: Naming, c: Call, ids: seq<LT.SharedID>, views: seq<LT.Data>, writes: seq<LT.Data>)
    requires Computes(name, c, ids, views, writes)
    ensures |writes| == |ids|
  {
  }

  lemma {:induction false} LocksKept(name: Naming, calls: seq<Call>, readers: seq<Reader>, states: seq<LT.Sys>,
                                     events: seq<LR.Event>, n: nat)
    requires IsExecution(name, calls, readers, states, events) && n <= |events|
    ensures |states| == |events| + 1 && LT.Inv(states[n]) && ThreadsRun(name, calls, readers, states[n].threads)
  {
    hide LT.Inv, LT.Enabled, LT.Do, LT.Panics, LocksFor, Follows, LT.Init;
    LR.RunInv(states, events);
    if n > 0 {
      LocksKept(name, calls, readers, states, events, n - 1);
      Entered(name, calls, readers, states, events, n);
    }
  }

  /** In every state of an execution, calls refused or not, some call or reader can go on unless all are done. */
  lemma GoesOnUnlessDone(name: Naming, calls: seq<Call>, readers: seq<Reader>, states: seq<LT.Sys>,
                         events: seq<LR.Event>, n: nat)
    requires IsExecution(name, calls, readers, states, events) && n <= |events|
    ensures |states| == |events| + 1
    ensures CanGoOn(name, calls, states[n]) <==> !LR.AllDone(states[n])
  {
    LocksKept(name, calls, readers, states, events, n);
    var s := states[n];
    hide LT.Inv, LocksFor, LR.IsRun, Follows;
    if !LR.AllDone(s) {
      var t :| 0 <= t < |s.threads| && !LR.Done(s.threads[t]);
      var u := LR.Follow(s, t);
      ReadyGoesOn(name, calls, readers, s, u);
    }
  }

  lemma TakeStep(name: Naming, calls: seq<Call>, readers: seq<Reader>, states: seq<LT.Sys>, events: seq<LR.Event>,
                 e: LR.Event)
    requires IsExecution(name, calls, readers, states, events) && |states| == |events| + 1
    requires LT.Enabled(states[|events|], e.thread, e.action) && !LT.Panics(states[|events|], e.thread, e.action)
    requires Follows(name, calls, states[|events|], e)
    ensures IsExecution(name, calls, readers, states + [LT.Do(states[|events|], e.thread, e.action)], events + [e])
  {
    hide LT.Enabled, LT.Panics, LT.Do, LocksFor, Follows, LT.Init;
    var n := |events|;
    var states', events' := states + [LT.Do(states[n], e.thread, e.action)], events + [e];
    forall i | 0 <= i < |events'|
      ensures LR.Taken(states'[i], events'[i], states'[i + 1]) && Follows(name, calls, states'[i], events'[i])
    {
      if i < n { assert LR.Taken(states[i], events[i], states[i + 1]) && Follows(name, calls, states[i], events[i]); }
    }
  }

  /** Every execution can be taken on, and comes to an end with every call done. */
  lemma {:induction false} Completes(name: Naming, calls: seq<Call>, readers: seq<Reader>, states: seq<LT.Sys>,
                                     events: seq<LR.Event>)
    returns (states': seq<LT.Sys>, events': seq<LR.Event>)
    requires IsExecution(name, calls, readers, states, events) && |states| == |events| + 1
    ensures IsExecution(name, calls, readers, states', events') && states <= states' && events <= events'
    ensures |states'| == |events'| + 1 && LR.AllDone(states'[|events'|])
    decreases LR.TotalLeft(states[|events|].threads)
  {
    hide IsExecution, LT.Inv, LT.Enabled, LT.Panics, LT.Do, Follows, LR.TotalLeft, LR.AllDone;
    var s := states[|events|];
    GoesOnUnlessDone(name, calls, readers, states, events, |events|);
    LocksKept(name, calls, readers, states, events, |events|);
    states', events' := states, events;
    if CanGoOn(name, calls, s) {
      var e: LR.Event :| LT.Enabled(s, e.thread, e.action) && Follows(name, calls, s, e);
      LT.StepInv(s, e.thread, e.action);
      LR.StepLowers(s, e.thread, e.action);
      LR.AlwaysPositive(s);
      LR.AlwaysPositive(LT.Do(s, e.thread, e.action));
      TakeStep(name, calls, readers, states, events, e);
      states', events' := Completes(name, calls, readers, states + [LT.Do(s, e.thread, e.action)], events + [e]);
    }
  }

  /** A key some call of `a` puts for `b`. */
  ghost predicate Exported(calls: seq<Call>, a: ChainID, b: ChainID, k: bytes) {
    exists t :: 0 <= t < |calls| && k in Keys(PutsFor(calls[t], a, b))
  }

  ghost predicate Imported(calls: seq<Call>, b: ChainID, a: ChainID, k: bytes) {
    exists t :: 0 <= t < |calls| && k in RemovesFor(calls[t], b, a)
  }

  /** The element is there with its value and its traits, and listed under these and no others. */
  ghost predicate Delivers(s: Store, e: Element) {
    && Visible(s, e.key) && s.values[e.key].value == e.value && s.values[e.key].traits == e.traits
    && forall t :: e.key in Listed(s.index, t) <==> t in e.traits
  }

  /**
   The whole: any number of concurrent calls, in any interleaving of their locking steps, that put and
   remove no key twice. None is refused; an execution that cannot go on has committed all of them and
   left no lock behind; and what one chain finds of another is what was exported and not imported.
   */
  lemma ConcurrentDelivery(name: Naming, calls: seq<Call>, readers: seq<Reader>, states: seq<LT.Sys>,
                           events: seq<LR.Event>, a: ChainID, b: ChainID)
    requires IsExecution(name, calls, readers, states, events) && NoKeyTwice(calls) && a != b
    requires !CanGoOn(name, calls, states[|events|])
    ensures forall i :: 0 <= i < |events| && events[i].action.Leave? ==> |calls| <= events[i].thread
    ensures forall t :: 0 <= t < |calls| ==> t in Order(events, |events|)
    ensures states[|events|].table == map[] && states[|events|].owner == map[]
    ensures var s := StoresOf(name, states[|events|].db)(Inbound(b, a));
            && (forall k :: Visible(s, k) <==> Exported(calls, a, b, k) && !Imported(calls, b, a, k))
            && (forall t, e :: 0 <= t < |calls| && e in PutsFor(calls[t], a, b) && !Imported(calls, b, a, e.key) ==>
                  Delivers(s, e))
  {
    hide IsExecution, NoKeyTwice, CanGoOn, LR.IsRun, MemorySofar, Exported, Imported, LT.Inv, Delivers;
    var n := |events|;
    Shape(name, calls, readers, states, events);
    ExecutionSofar(name, calls, readers, states, events, n);
    HistorySofar(name, calls, readers, states, events, n);
    GoesOnUnlessDone(name, calls, readers, states, events, n);
    LR.RunInv(states, events);
    LR.DoneIsEmpty(states[n]);
    forall t | 0 <= t < |calls| ensures t in Order(events, n) {
      assert LR.Done(states[n].threads[t]);
    }
    FinalMemory(name, calls, states[n].db, Order(events, n), Moments(name, states, events, n), a, b);
  }

  /** The memory once every call has committed, in whatever order. */
  lemma FinalMemory(name: Naming, calls: seq<Call>, db: map<LT.SharedID, LT.Data>, order: seq<nat>,
                    moments: seq<Stores>, a: ChainID, b: ChainID)
    requires NoKeyTwice(calls) && MemorySofar(name, calls, db, order, moments) && NoRepeat(order) && a != b
    requires forall t :: 0 <= t < |calls| ==> t in order
    ensures var s := StoresOf(name, db)(Inbound(b, a));
            && (forall k :: Visible(s, k) <==> Exported(calls, a, b, k) && !Imported(calls, b, a, k))
            && (forall t, e :: 0 <= t < |calls| && e in PutsFor(calls[t], a, b) && !Imported(calls, b, a, e.key) ==>
                  Delivers(s, e))
  {
    hide NoKeyTwice, OnceEach, IsHistory, Exported, Imported, Pick, StoresOf, IsFinal, Delivers, PutsFor, Exports;
    var s := StoresOf(name, db)(Inbound(b, a));
    PickedOnce(calls, order);
    HistoryLength(moments, Pick(calls, order));
    forall k ensures Visible(s, k) <==> Exported(calls, a, b, k) && !Imported(calls, b, a, k) {
      Delivered(moments, Pick(calls, order), a, b, k);
      ExportsFrom(calls, order, a, b, k);
      AnyOrder(calls, order, a, b, k);
    }
    forall t, e | 0 <= t < |calls| && e in PutsFor(calls[t], a, b) && !Imported(calls, b, a, e.key)
      ensures Delivers(s, e)
    {
      PutExported(calls, t, a, b, e);
      ElementPicked(calls, order, t, a, b, e);
      DeliveredElement(moments, Pick(calls, order), a, b, e);
    }
  }

  lemma PutExported(calls: seq<Call>, t: nat, a: ChainID, b: ChainID, e: Element)
    requires t < |calls| && e in PutsFor(calls[t], a, b)
    ensures Exported(calls, a, b, e.key)
  {
    KeyOf(PutsFor(calls[t], a, b), e);
  }

  lemma KeyOf(es: seq<Element>, e: Element)
    requires e in es
    ensures e.key in Keys(es)
  {
    var i :| 0 <= i < |es| && es[i] == e;
    assert Keys(es)[i] == e.key;
  }

  lemma {:induction false} ElementPicked(calls: seq<Call>, order: seq<nat>, t: nat, a: ChainID, b: ChainID, e: Element)
    requires (forall i :: 0 <= i < |order| ==> order[i] < |calls|) && t < |calls| && t in order
    requires e in PutsFor(calls[t], a, b)
    ensures e in Exports(Pick(calls, order), a, b)
  {
    var n := |order| - 1;
    var p := Pick(calls, order);
    assert p[..n] == Pick(calls, order[..n]) && p[n] == calls[order[n]];
    if order[n] != t { ElementPicked(calls, order[..n], t, a, b, e); }
  }

  /** An element that is visible after a once-each history is there with its traits and lists. */
  lemma DeliveredElement(states: seq<Stores>, calls: seq<Call>, a: ChainID, b: ChainID, e: Element)
    requires IsHistory(states, calls) && |states| == |calls| + 1 && OnceEach(calls) && a != b
    requires e in Exports(calls, a, b) && Visible(states[|calls|](Inbound(b, a)), e.key)
    ensures Delivers(states[|calls|](Inbound(b, a)), e)
  {
    hide IsHistory, Exports, Imports, Keys, NoRepeat, Remaining, FinalValue, Compact;
    var s, es, rs := states[|calls|](Inbound(b, a)), Exports(calls, a, b), Imports(calls, b, a);
    Delivered(states, calls, a, b, e.key);
    assert NoRepeat(Keys(es));
    forall t ensures e.key in Listed(s.index, t) <==> t in e.traits {
      assert Listed(s.index, t) == Remaining(es, rs, t);
      RemainingIff(es, rs, t, e);
    }
  }

  /** A trait lists an element iff it has the trait and was not removed. */
  lemma {:induction false} RemainingIff(ps: seq<Element>, rs: seq<bytes>, t: bytes, e: Element)
    requires NoRepeat(Keys(ps)) && e in ps
    ensures e.key in Remaining(ps, rs, t) <==> e.key !in rs && t in e.traits
  {
    hide NoRepeat;
    var n := |ps| - 1;
    LastKey(ps);
    RemainingMember(ps[..n], rs, t);
    if ps[n] == e {
    } else {
      assert e in ps[..n];
      KeyOf(ps[..n], e);
      RemainingIff(ps[..n], rs, t, e);
    }
  }

  lemma LastKey(ps: seq<Element>)
    requires ps != [] && NoRepeat(Keys(ps))
    ensures NoRepeat(Keys(ps[..|ps| - 1])) && ps[|ps| - 1].key !in Keys(ps[..|ps| - 1])
  {
    var n := |ps| - 1;
    assert Keys(ps)[..n] == Keys(ps[..n]) && Keys(ps)[n] == ps[n].key;
  }

  lemma AnyOrder(calls: seq<Call>, order: seq<nat>, a: ChainID, b: ChainID, k: bytes)
    requires (forall i :: 0 <= i < |order| ==> order[i] < |calls|) && forall t :: 0 <= t < |calls| ==> t in order
    ensures Exported(calls, a, b, k) <==> exists i :: 0 <= i < |order| && k in Keys(PutsFor(calls[order[i]], a, b))
    ensures Imported(calls, b, a, k) <==> exists i :: 0 <= i < |order| && k in RemovesFor(calls[order[i]], b, a)
  {
    hide PutsFor, RemovesFor, Keys;
    if Exported(calls, a, b, k) {
      var t :| 0 <= t < |calls| && k in Keys(PutsFor(calls[t], a, b));
      assert t in order;
      var i :| 0 <= i < |order| && order[i] == t;
    }
    if Imported(calls, b, a, k) {
      var t :| 0 <= t < |calls| && k in RemovesFor(calls[t], b, a);
      assert t in order;
      var i :| 0 <= i < |order| && order[i] == t;
    }
  }

  // ---------- reads ----------

  /** The thread holds its one lock and reads. */
  predicate Reading(s: LT.Sys, t: nat) {
    t < |s.threads| && s.threads[t].phase == LT.Acquiring(1) && |s.threads[t].views| == 1
  }

  /** The store a reader has under its lock. */
  function Seen(s: LT.Sys, t: nat, r: Reader): Store
    requires Reading(s, t)
  {
    StoreIn(s.threads[t].views[0], Inbound(r.me, r.peer).prefix)
  }

  /**
   What a reader sees at any moment it holds its lock is what the memory holds at that moment, which is the outcome of
   the calls committed by then, one after the other; and its trait lists agree with its values.
   */
  lemma ReadsAreCurrent(name: Naming, calls: seq<Call>, readers: seq<Reader>, states: seq<LT.Sys>,
                        events: seq<LR.Event>, n: nat, r: nat)
    requires IsExecution(name, calls, readers, states, events) && n <= |events| < |states| && r < |readers|
    requires Reading(states[n], |calls| + r)
    ensures |states| == |events| + 1
    ensures var order, moments := Order(events, n), Moments(name, states, events, n);
            var slot := Inbound(readers[r].me, readers[r].peer);
            && MemorySofar(name, calls, states[n].db, order, moments)
            && Seen(states[n], |calls| + r, readers[r]) == StoresOf(name, states[n].db)(slot) == moments[|order|](slot)
            && SharedState.Indexed(moments[|order|](slot))
  {
    hide IsExecution, MemorySofar, LocksFor, SharedState.Indexed;
    HistorySofar(name, calls, readers, states, events, n);
    LocksKept(name, calls, readers, states, events, n);
    var s, t := states[n], |calls| + r;
    assert LT.ThreadOk(s, t) && s.threads[t].ids == ReaderIDs(name, readers[r]);
    MomentIs(name, calls, s.db, Order(events, n), Moments(name, states, events, n),
             Inbound(readers[r].me, readers[r].peer));
  }

  lemma MomentIs(name: Naming, calls: seq<Call>, db: map<LT.SharedID, LT.Data>, order: seq<nat>, moments: seq<Stores>,
                 slot: Slot)
    requires MemorySofar(name, calls, db, order, moments)
    ensures |moments| == |order| + 1 && moments[|order|] == StoresOf(name, db)
    ensures SharedState.Indexed(moments[|order|](slot))
  {
    hide IsHistory, StoresOf, SharedState.Indexed;
    HistoryIndexed(moments, Pick(calls, order), |order|, slot);
  }

  /** A reader that reads on has not let its lock go in between, so all of it is one look at the store. */
  lemma {:induction false} ReadIsAtomic(name: Naming, calls: seq<Call>, readers: seq<Reader>, states: seq<LT.Sys>,
                                        events: seq<LR.Event>, n: nat, m: nat, r: nat)
    requires IsExecution(name, calls, readers, states, events) && n <= m <= |events| < |states| && r < |readers|
    requires Reading(states[n], |calls| + r)
    ensures |calls| + r < |states[m].threads|
    ensures states[m].threads[|calls| + r] == states[n].threads[|calls| + r] || Left(states[m].threads[|calls| + r])
    decreases m
  {
    hide IsExecution, LocksFor;
    LocksKept(name, calls, readers, states, events, n);
    if n < m {
      ReadIsAtomic(name, calls, readers, states, events, n, m - 1, r);
      LocksKept(name, calls, readers, states, events, m - 1);
      hide LT.Inv;
      Entered(name, calls, readers, states, events, m);
      assert states[m - 1].threads[|calls| + r].ids == ReaderIDs(name, readers[r]);
    }
  }

  /**
   With no key twice, a reader finds of another chain exactly what the calls committed by then exported and none of
   them imported.
   */
  lemma ReaderFinds(name: Naming, calls: seq<Call>, readers: seq<Reader>, states: seq<LT.Sys>,
                    events: seq<LR.Event>, n: nat, r: nat, k: bytes)
    requires IsExecution(name, calls, readers, states, events) && n <= |events| < |states| && r < |readers|
    requires Reading(states[n], |calls| + r) && NoKeyTwice(calls) && readers[r].me != readers[r].peer
    ensures var seen, order := Seen(states[n], |calls| + r, readers[r]), Order(events, n);
            && (forall i :: 0 <= i < |order| ==> order[i] < |calls|)
            && var (me, peer) := (readers[r].me, readers[r].peer);
               Visible(seen, k) <==>
               Exported(Pick(calls, order), peer, me, k) && !Imported(Pick(calls, order), me, peer, k)
  {
    hide IsExecution, NoKeyTwice, OnceEach, IsHistory, PutsFor, RemovesFor, Keys, StoresOf, Reading, Seen, IsFinal;
    ReadsAreCurrent(name, calls, readers, states, events, n, r);
    ExecutionSofar(name, calls, readers, states, events, n);
    var order, moments := Order(events, n), Moments(name, states, events, n);
    PickedOnce(calls, order);
    Delivered(moments, Pick(calls, order), readers[r].peer, readers[r].me, k);
    ExportsFrom(calls, order, readers[r].peer, readers[r].me, k);
    assert forall i :: 0 <= i < |order| ==> Pick(calls, order)[i] == calls[order[i]];
  }
}
