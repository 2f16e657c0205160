/**
 The reference-counted locks of the shared memory, as a protocol between any number of concurrent calls.
 Each call locks its shared IDs in increasing order, reads under the locks, commits or leaves without
 writing (an error, or a call that only reads), and releases in the opposite order; `releaseLock` and
 the unlocking that follows are separate steps.
 */
module LockTable {
  import opened SharedState

  /** Shared IDs, by their place in the byte order. */
  type SharedID = nat

  /** A lock object: created for one ID, and different from every other one ever created. */
  datatype Lock = Lock(id: SharedID, serial: nat)

  datatype RcLock = RcLock(lock: Lock, count: nat)

  /** What is stored under one shared ID: a store per prefix. */
  type Data = map<nat, Store>

  datatype Phase =
    | Acquiring(held: nat)             // the first `held` IDs are locked
    | Waiting(held: nat)               // registered for one more, not locked yet
    | Releasing(held: nat)             // the first `held` IDs are still locked
    | Unlocking(held: nat, lock: Lock) // deregistered from ID `held`, whose lock is still locked

  /** One call. `locks` are the lock objects it registered for and `views` what it read under them. */
  datatype Thread = Thread(ids: seq<SharedID>, phase: Phase, locks: seq<Lock>, views: seq<Data>)

  datatype Sys = Sys(threads: seq<Thread>, table: map<SharedID, RcLock>, owner: map<Lock, nat>, next: nat,
                     db: map<SharedID, Data>)

  datatype Action = MakeLock | TakeLock | Leave | Commit(writes: seq<Data>) | ReleaseLock | Unlock

  function Contents(db: map<SharedID, Data>, id: SharedID): Data {
    if id in db then db[id] else map[]
  }

  // ---------- the steps ----------

  predicate Enabled(s: Sys, t: nat, a: Action) {
    && t < |s.threads|
    && var th := s.threads[t];
       match a
       case MakeLock => th.phase.Acquiring? && th.phase.held < |th.ids|
       case TakeLock => th.phase.Waiting? && th.phase.held < |th.locks| && th.locks[th.phase.held] !in s.owner
       case Leave => th.phase.Acquiring? && 0 < th.phase.held
       case Commit(writes) => th.phase.Acquiring? && th.phase.held == |th.ids| == |writes|
       case ReleaseLock => th.phase.Releasing? && 0 < th.phase.held <= |th.ids|
       case Unlock => th.phase.Unlocking?
  }

  /** Releasing an unknown lock and unlocking an unlocked one panic. */
  predicate Panics(s: Sys, t: nat, a: Action)
    requires Enabled(s, t, a)
  {
    var th := s.threads[t];
    match a
    case ReleaseLock => th.ids[th.phase.held - 1] !in s.table
    case Unlock => th.phase.lock !in s.owner
    case _ => false
  }

  /** `makeLock`: the table afterwards and the lock object. */
  function Made(table: map<SharedID, RcLock>, next: nat, id: SharedID): (map<SharedID, RcLock>, Lock) {
    if id in table then (table[id := table[id].(count := table[id].count + 1)], table[id].lock)
    else (table[id := RcLock(Lock(id, next), 1)], Lock(id, next))
  }

  /** `releaseLock`. */
  function Released(table: map<SharedID, RcLock>, id: SharedID): map<SharedID, RcLock>
    requires id in table
  {
    if table[id].count <= 1 then table - {id} else table[id := table[id].(count := table[id].count - 1)]
  }

  function Written(db: map<SharedID, Data>, ids: seq<SharedID>, writes: seq<Data>): map<SharedID, Data>
    requires |ids| == |writes|
  {
    if ids == [] then db
    else Written(db, ids[..|ids| - 1], writes[..|ids| - 1])[ids[|ids| - 1] := writes[|ids| - 1]]
  }

  function Do(s: Sys, t: nat, a: Action): Sys
    requires Enabled(s, t, a) && !Panics(s, t, a)
  {
    var th := s.threads[t];
    var held := th.phase.held;
    match a
    case MakeLock =>
      var (table, lock) := Made(s.table, s.next, th.ids[held]);
      s.(threads := s.threads[t := th.(phase := Waiting(held), locks := th.locks + [lock])], table := table,
         next := s.next + 1)
    case TakeLock =>
      var views := th.views + [Contents(s.db, th.locks[held].id)];
      s.(threads := s.threads[t := th.(phase := Acquiring(held + 1), views := views)],
         owner := s.owner[th.locks[held] := t])
    case Leave => s.(threads := s.threads[t := th.(phase := Releasing(held))])
    case Commit(writes) =>
      s.(threads := s.threads[t := th.(phase := Releasing(held))], db := Written(s.db, th.ids, writes))
    case ReleaseLock =>
      var id := th.ids[held - 1];
      s.(threads := s.threads[t := th.(phase := Unlocking(held - 1, s.table[id].lock), locks := DropLast(th.locks))],
         table := Released(s.table, id))
    case Unlock =>
      s.(threads := s.threads[t := th.(phase := Releasing(held))], owner := s.owner - {th.phase.lock})
  }

  function DropLast(l: seq<Lock>): seq<Lock> {
    if l == [] then [] else l[..|l| - 1]
  }

  // ---------- the invariant ----------

  predicate Increasing(ids: seq<SharedID>) {
    forall i, j :: 0 <= i < j < |ids| ==> ids[i] < ids[j]
  }

  /** What a thread knows about itself. */
  ghost predicate LocalOk(th: Thread) {
    && Increasing(th.ids)
    && |th.locks| == (if th.phase.Waiting? then th.phase.held + 1 else th.phase.held)
    && |th.locks| <= |th.ids|
    && (forall i :: 0 <= i < |th.locks| ==> th.locks[i].id == th.ids[i])
    && (th.phase.Unlocking? ==> th.phase.held < |th.ids| && th.phase.lock.id == th.ids[th.phase.held])
    && (th.phase.Acquiring? || th.phase.Waiting? ==> |th.views| == th.phase.held)
  }

  /** It registered for `lock` and has not deregistered. */
  predicate Uses(th: Thread, id: SharedID) {
    exists i :: 0 <= i < |th.locks| && th.locks[i].id == id
  }

  ghost function Users(threads: seq<Thread>, id: SharedID): set<nat> {
    set t | 0 <= t < |threads| && Uses(threads[t], id)
  }

  ghost predicate Holds(th: Thread, lock: Lock) {
    || (exists i :: 0 <= i < th.phase.held && i < |th.locks| && th.locks[i] == lock)
    || (th.phase.Unlocking? && th.phase.lock == lock)
  }

  /** Every lock a thread registered for is the one in the table. */
  ghost predicate RegisteredOk(s: Sys, t: nat)
    requires t < |s.threads|
  {
    var th := s.threads[t];
    forall i :: 0 <= i < |th.locks| ==> th.locks[i].id in s.table && s.table[th.locks[i].id].lock == th.locks[i]
  }

  ghost predicate OwnsOk(s: Sys, t: nat)
    requires t < |s.threads|
  {
    forall lock :: Holds(s.threads[t], lock) ==> lock in s.owner && s.owner[lock] == t
  }

  /** What a thread read under its locks is still there, until it commits. */
  ghost predicate ViewsOk(s: Sys, t: nat)
    requires t < |s.threads|
  {
    var th := s.threads[t];
    th.phase.Acquiring? || th.phase.Waiting? ==>
      forall i :: 0 <= i < |th.views| && i < |th.ids| ==> th.views[i] == Contents(s.db, th.ids[i])
  }

  ghost predicate ThreadOk(s: Sys, t: nat)
    requires t < |s.threads|
  {
    LocalOk(s.threads[t]) && RegisteredOk(s, t) && OwnsOk(s, t) && ViewsOk(s, t)
  }

  ghost predicate EntryOk(s: Sys, id: SharedID)
    requires id in s.table
  {
    && 0 < s.table[id].count == |Users(s.threads, id)|
    && s.table[id].lock.id == id && s.table[id].lock.serial < s.next
  }

  ghost predicate OwnerOk(s: Sys, lock: Lock)
    requires lock in s.owner
  {
    s.owner[lock] < |s.threads| && Holds(s.threads[s.owner[lock]], lock) && lock.serial < s.next
  }

  ghost predicate Inv(s: Sys) {
    && (forall t: nat :: t < |s.threads| ==> ThreadOk(s, t))
    && (forall id :: id in s.table ==> EntryOk(s, id))
    && (forall lock :: lock in s.owner ==> OwnerOk(s, lock))
  }

  ghost predicate Init(s: Sys) {
    && s.table == map[] && s.owner == map[]
    && forall t :: 0 <= t < |s.threads| ==> Fresh(s.threads[t])
  }

  predicate Fresh(th: Thread) {
    Increasing(th.ids) && th.phase == Acquiring(0) && th.locks == [] && th.views == []
  }

  lemma InitInv(s: Sys)
    requires Init(s)
    ensures Inv(s)
  {
    forall t: nat | t < |s.threads| ensures ThreadOk(s, t) {
      assert Fresh(s.threads[t]);
    }
  }

  // ---------- what the invariant says ----------

  /** The call is between the return of `GetSharedDatabase` for the ID and the matching `releaseLock`. */
  ghost predicate Locked(th: Thread, id: SharedID) {
    exists i :: 0 <= i < th.phase.held && i < |th.locks| && th.locks[i].id == id
  }

  /** A shared ID belongs to one call at a time, although lock objects for it come and go. */
  lemma MutualExclusion(s: Sys, t: nat, u: nat, id: SharedID)
    requires Inv(s) && t < |s.threads| && u < |s.threads|
    requires Locked(s.threads[t], id) && Locked(s.threads[u], id)
    ensures t == u
  {
    assert ThreadOk(s, t) && ThreadOk(s, u);
    assert Holds(s.threads[t], s.table[id].lock) && Holds(s.threads[u], s.table[id].lock);
  }

  /** Neither `releaseLock` nor `Unlock` ever panics, and the lock released is the one that was taken. */
  lemma NoPanic(s: Sys, t: nat, a: Action)
    requires Inv(s) && Enabled(s, t, a)
    ensures !Panics(s, t, a)
    ensures a.ReleaseLock? ==> var th := s.threads[t];
                               var id := th.ids[th.phase.held - 1];
                               |th.locks| == th.phase.held && s.table[id].lock == th.locks[th.phase.held - 1]
                               && s.owner.Keys >= {s.table[id].lock} && s.owner[s.table[id].lock] == t
  {
    assert ThreadOk(s, t);
    var th := s.threads[t];
    if a.ReleaseLock? {
      assert Holds(th, th.locks[th.phase.held - 1]);
    } else if a.Unlock? {
      assert Holds(th, th.phase.lock);
    }
  }

  /** A call commits on the data it read: as if it had run alone at that moment. */
  lemma CommitSeesCurrent(s: Sys, t: nat, a: Action)
    requires Inv(s) && Enabled(s, t, a) && a.Commit?
    ensures var th := s.threads[t];
            |th.views| == |th.ids| && forall i :: 0 <= i < |th.ids| ==> th.views[i] == Contents(s.db, th.ids[i])
  {
    assert ThreadOk(s, t);
  }

  // ---------- every step keeps the invariant ----------

  lemma UsersAdd(threads: seq<Thread>, t: nat, th: Thread, id: SharedID)
    requires t < |threads|
    ensures Users(threads[t := th], id) == Users(threads, id) - {t} + (if Uses(th, id) then {t} else {})
  {
  }

  /** A step that leaves locks and table alone leaves the entries in order. */
  lemma EntriesKept(s: Sys, s': Sys, t: nat)
    requires Inv(s) && t < |s.threads| && |s'.threads| == |s.threads|
    requires s'.threads == s.threads[t := s'.threads[t]] && s'.threads[t].locks == s.threads[t].locks
    requires s'.table == s.table && s'.next == s.next
    ensures forall id :: id in s'.table ==> EntryOk(s', id)
  {
    forall id | id in s'.table ensures EntryOk(s', id) {
      assert EntryOk(s, id);
      UsersAdd(s.threads, t, s'.threads[t], id);
      assert Users(s'.threads, id) == Users(s.threads, id);
    }
  }

  /** A thread none of whose locks changed is as it was. */
  lemma OtherOk(s: Sys, s': Sys, u: nat)
    requires u < |s.threads| && ThreadOk(s, u) && u < |s'.threads| && s'.threads[u] == s.threads[u] && s'.db == s.db
    requires forall i :: 0 <= i < |s.threads[u].locks| ==> var id := s.threads[u].locks[i].id;
               id in s'.table && s'.table[id].lock == s.threads[u].locks[i]
    requires forall lock :: lock in s.owner && s.owner[lock] == u ==> lock in s'.owner && s'.owner[lock] == u
    ensures ThreadOk(s', u)
  {
  }

  lemma MakeLockInv(s: Sys, t: nat)
    requires Inv(s) && Enabled(s, t, MakeLock)
    ensures Inv(Do(s, t, MakeLock))
  {
    var s' := Do(s, t, MakeLock);
    var th, th' := s.threads[t], s'.threads[t];
    assert ThreadOk(s, t);
    forall x | x in s'.table ensures EntryOk(s', x) {
      MakeLockEntry(s, t, x);
    }
    forall u: nat | u < |s'.threads| ensures ThreadOk(s', u) {
      MakeLockThread(s, t, u);
    }
    forall lock | lock in s'.owner ensures OwnerOk(s', lock) {
      assert OwnerOk(s, lock);
      if s.owner[lock] == t { HoldsAppend(th, th', lock); }
    }
  }

  lemma UsersGrow(threads: seq<Thread>, t: nat, th: Thread, id: SharedID, x: SharedID)
    requires t < |threads| && !Uses(threads[t], id)
    requires Uses(th, x) <==> Uses(threads[t], x) || x == id
    ensures |Users(threads[t := th], x)| == |Users(threads, x)| + if x == id then 1 else 0
  {
    hide Uses;
    UsersAdd(threads, t, th, x);
    assert Users(threads[t := th], x) == Users(threads, x) + if x == id then {t} else {};
  }

  lemma NotYet(th: Thread)
    requires LocalOk(th) && th.phase.Acquiring? && th.phase.held < |th.ids|
    ensures !Uses(th, th.ids[th.phase.held])
  {
  }

  lemma MakeLockEntry(s: Sys, t: nat, x: SharedID)
    requires Inv(s) && Enabled(s, t, MakeLock) && x in Do(s, t, MakeLock).table
    ensures EntryOk(Do(s, t, MakeLock), x)
  {
    hide Uses, Users;
    var s' := Do(s, t, MakeLock);
    var th, th' := s.threads[t], s'.threads[t];
    var id := th.ids[th.phase.held];
    assert ThreadOk(s, t);
    if id in s.table { assert EntryOk(s, id); }
    if x in s.table { assert EntryOk(s, x); } else { Unused(s, x); }
    NotYet(th);
    UsesAppend(th, th', x);
    UsersGrow(s.threads, t, th', id, x);
  }

  lemma MakeLockThread(s: Sys, t: nat, u: nat)
    requires Inv(s) && Enabled(s, t, MakeLock) && u < |s.threads|
    ensures ThreadOk(Do(s, t, MakeLock), u)
  {
    var s' := Do(s, t, MakeLock);
    assert ThreadOk(s, u);
    if u != t {
      OtherOk(s, s', u);
    } else {
      var th, th' := s.threads[t], s'.threads[t];
      forall i | 0 <= i < |th'.locks|
        ensures th'.locks[i].id == th.ids[i] && th'.locks[i].id in s'.table &&
                s'.table[th'.locks[i].id].lock == th'.locks[i]
      {
        if i < |th.locks| { assert th'.locks[i] == th.locks[i]; }
        else if th.ids[i] in s.table { assert EntryOk(s, th.ids[i]); }
      }
      forall lock | Holds(th', lock) ensures Holds(th, lock) {
        var i :| 0 <= i < th.phase.held && th'.locks[i] == lock;
        assert th.locks[i] == lock;
      }
    }
  }

  lemma UsesAppend(th: Thread, th': Thread, x: SharedID)
    requires |th'.locks| == |th.locks| + 1 && th'.locks[..|th.locks|] == th.locks
    ensures Uses(th', x) <==> Uses(th, x) || x == th'.locks[|th.locks|].id
  {
    forall i | 0 <= i < |th.locks| ensures th'.locks[i] == th.locks[i] {
      assert th'.locks[..|th.locks|][i] == th.locks[i];
    }
  }

  lemma HoldsAppend(th: Thread, th': Thread, lock: Lock)
    requires Holds(th, lock) && th.phase.Acquiring? && th'.phase == Waiting(th.phase.held)
    requires |th'.locks| == |th.locks| + 1 && th'.locks[..|th.locks|] == th.locks
    ensures Holds(th', lock)
  {
    var i :| 0 <= i < th.phase.held && i < |th.locks| && th.locks[i] == lock;
    assert th'.locks[..|th.locks|][i] == lock;
    assert th'.locks[i] == lock;
  }

  lemma Unused(s: Sys, id: SharedID)
    requires Inv(s) && id !in s.table
    ensures Users(s.threads, id) == {}
  {
    forall u | 0 <= u < |s.threads| ensures !Uses(s.threads[u], id) {
      assert ThreadOk(s, u);
    }
  }

  lemma TakeLockInv(s: Sys, t: nat)
    requires Inv(s) && Enabled(s, t, TakeLock)
    ensures Inv(Do(s, t, TakeLock))
  {
    var s' := Do(s, t, TakeLock);
    EntriesKept(s, s', t);
    hide OwnerOk, Holds;
    forall u: nat | u < |s'.threads| ensures ThreadOk(s', u) {
      if u == t { TakeLockThread(s, t); } else { assert ThreadOk(s, u); OtherOk(s, s', u); }
    }
    forall x | x in s'.owner ensures OwnerOk(s', x) {
      TakeLockOwner(s, t, x);
    }
  }

  lemma TakeLockOwner(s: Sys, t: nat, x: Lock)
    requires Inv(s) && Enabled(s, t, TakeLock) && x in Do(s, t, TakeLock).owner
    ensures OwnerOk(Do(s, t, TakeLock), x)
  {
    var th, th' := s.threads[t], Do(s, t, TakeLock).threads[t];
    var lock := th.locks[th.phase.held];
    assert ThreadOk(s, t) && EntryOk(s, lock.id);
    if x == lock {
      assert th'.locks[th.phase.held] == lock;
    } else {
      assert OwnerOk(s, x);
      if s.owner[x] == t {
        var i :| 0 <= i < th.phase.held && i < |th.locks| && th.locks[i] == x;
        assert th'.locks[i] == x;
      }
    }
  }

  lemma TakeLockThread(s: Sys, t: nat)
    requires Inv(s) && Enabled(s, t, TakeLock)
    ensures ThreadOk(Do(s, t, TakeLock), t)
  {
    var s' := Do(s, t, TakeLock);
    var th, th' := s.threads[t], s'.threads[t];
    assert ThreadOk(s, t);
    forall x | Holds(th', x) ensures x in s'.owner && s'.owner[x] == t {
      var i :| 0 <= i < th'.phase.held && i < |th.locks| && th.locks[i] == x;
      if i < th.phase.held { assert Holds(th, x); }
    }
  }

  lemma LeaveInv(s: Sys, t: nat)
    requires Inv(s) && Enabled(s, t, Leave)
    ensures Inv(Do(s, t, Leave))
  {
    var s' := Do(s, t, Leave);
    FinishInv(s, s', t);
    forall u: nat | u < |s'.threads| ensures ViewsOk(s', u) {
      assert ThreadOk(s, u);
    }
  }

  /** Turning to the releases changes neither locks nor table. */
  lemma FinishInv(s: Sys, s': Sys, t: nat)
    requires Inv(s) && t < |s.threads| && s.threads[t].phase.Acquiring?
    requires s' == s.(threads := s.threads[t := s.threads[t].(phase := Releasing(s.threads[t].phase.held))],
                      db := s'.db)
    ensures forall u: nat :: u < |s'.threads| ==> LocalOk(s'.threads[u]) && RegisteredOk(s', u) && OwnsOk(s', u)
    ensures forall id :: id in s'.table ==> EntryOk(s', id)
    ensures forall lock :: lock in s'.owner ==> OwnerOk(s', lock)
  {
    var th, th' := s.threads[t], s'.threads[t];
    assert ThreadOk(s, t);
    EntriesKept(s, s', t);
    assert forall lock :: Holds(th', lock) <==> Holds(th, lock);
    forall u: nat | u < |s'.threads| ensures LocalOk(s'.threads[u]) && RegisteredOk(s', u) && OwnsOk(s', u) {
      assert ThreadOk(s, u);
      forall lock | Holds(s'.threads[u], lock) ensures lock in s'.owner && s'.owner[lock] == u {
        assert Holds(s.threads[u], lock);
      }
    }
    forall lock | lock in s'.owner ensures OwnerOk(s', lock) {
      assert OwnerOk(s, lock);
    }
  }

  lemma {:induction false} WrittenElsewhere(db: map<SharedID, Data>, ids: seq<SharedID>, writes: seq<Data>,
                                            id: SharedID)
    requires |ids| == |writes| && id !in ids
    ensures Contents(Written(db, ids, writes), id) == Contents(db, id)
  {
    if ids != [] {
      WrittenElsewhere(db, ids[..|ids| - 1], writes[..|ids| - 1], id);
    }
  }

  /** The call that commits holds all its IDs, so no other call has read any of them. */
  lemma CommitInv(s: Sys, t: nat, writes: seq<Data>)
    requires Inv(s) && Enabled(s, t, Commit(writes))
    ensures Inv(Do(s, t, Commit(writes)))
  {
    var s' := Do(s, t, Commit(writes));
    var th := s.threads[t];
    assert ThreadOk(s, t);
    FinishInv(s, s', t);
    forall u: nat | u < |s'.threads| ensures ViewsOk(s', u) {
      assert ThreadOk(s, u);
      var v := s'.threads[u];
      if v.phase.Acquiring? || v.phase.Waiting? {
        forall i | 0 <= i < |v.views| && i < |v.ids| ensures v.views[i] == Contents(s'.db, v.ids[i]) {
          assert v.locks[i].id == v.ids[i];
          assert Locked(v, v.ids[i]);
          if v.ids[i] in th.ids {
            var j :| 0 <= j < |th.ids| && th.ids[j] == v.ids[i];
            assert th.locks[j].id == v.ids[i];
            assert Locked(th, v.ids[i]);
            MutualExclusion(s, t, u, v.ids[i]);
            assert false;
          }
          WrittenElsewhere(s.db, th.ids, writes, v.ids[i]);
        }
      }
    }
  }

  lemma ReleaseLockEntry(s: Sys, t: nat, x: SharedID)
    requires Inv(s) && Enabled(s, t, ReleaseLock) && !Panics(s, t, ReleaseLock) && x in Do(s, t, ReleaseLock).table
    ensures EntryOk(Do(s, t, ReleaseLock), x)
  {
    var s' := Do(s, t, ReleaseLock);
    var th, th' := s.threads[t], s'.threads[t];
    var id := th.ids[th.phase.held - 1];
    assert ThreadOk(s, t) && EntryOk(s, x);
    UsersAdd(s.threads, t, th', x);
    UsesDrop(th, th', x);
    assert th.locks[th.phase.held - 1].id == id;
    assert t in Users(s.threads, id);
    assert Users(s'.threads, x) == Users(s.threads, x) - if x == id then {t} else {};
  }

  lemma ReleaseLockInv(s: Sys, t: nat)
    requires Inv(s) && Enabled(s, t, ReleaseLock) && !Panics(s, t, ReleaseLock)
    ensures Inv(Do(s, t, ReleaseLock))
  {
    var s' := Do(s, t, ReleaseLock);
    var th, th' := s.threads[t], s'.threads[t];
    assert ThreadOk(s, t);
    forall x | x in s'.table ensures EntryOk(s', x) {
      ReleaseLockEntry(s, t, x);
    }
    forall lock ensures Holds(th', lock) <==> Holds(th, lock) {
      HoldsDrop(th, th', lock);
    }
    forall u: nat | u < |s'.threads| ensures ThreadOk(s', u) {
      ReleaseLockThread(s, t, u);
    }
    forall lock | lock in s'.owner ensures OwnerOk(s', lock) {
      assert OwnerOk(s, lock);
    }
  }

  lemma ReleaseLockThread(s: Sys, t: nat, u: nat)
    requires Inv(s) && Enabled(s, t, ReleaseLock) && !Panics(s, t, ReleaseLock) && u < |s.threads|
    ensures ThreadOk(Do(s, t, ReleaseLock), u)
  {
    var s' := Do(s, t, ReleaseLock);
    var th, th' := s.threads[t], s'.threads[t];
    var n := th.phase.held - 1;
    assert ThreadOk(s, u) && ThreadOk(s, t);
    assert th.locks[n].id == th.ids[n];
    if u != t {
      forall i | 0 <= i < |s.threads[u].locks|
        ensures s.threads[u].locks[i].id in s'.table && s'.table[s.threads[u].locks[i].id].lock == s.threads[u].locks[i]
      {
        if s.threads[u].locks[i].id == th.ids[n] { StillUsed(s, t, u, th.ids[n]); }
      }
      OtherOk(s, s', u);
    } else {
      forall i | 0 <= i < n ensures th.locks[i].id == th.ids[i] != th.ids[n] {
      }
      forall lock | Holds(th', lock) ensures Holds(th, lock) {
        HoldsDrop(th, th', lock);
      }
    }
  }

  lemma UsesDrop(th: Thread, th': Thread, x: SharedID)
    requires LocalOk(th) && th.locks != [] && th'.locks == th.locks[..|th.locks| - 1]
    ensures Uses(th', x) <==> Uses(th, x) && x != th.ids[|th.locks| - 1]
  {
    var n := |th.locks| - 1;
    forall i | 0 <= i < n ensures th'.locks[i] == th.locks[i] && th.locks[i].id < th.ids[n] {
      assert th.locks[i].id == th.ids[i];
    }
    assert th.locks[n].id == th.ids[n];
  }

  lemma HoldsDrop(th: Thread, th': Thread, lock: Lock)
    requires th.phase.Releasing? && 0 < th.phase.held == |th.locks|
    requires th'.locks == th.locks[..th.phase.held - 1] &&
             th'.phase == Unlocking(th.phase.held - 1, th.locks[th.phase.held - 1])
    ensures Holds(th', lock) <==> Holds(th, lock)
  {
    if Holds(th, lock) {
      var i :| 0 <= i < th.phase.held && th.locks[i] == lock;
      if i < th.phase.held - 1 { assert th'.locks[i] == lock; }
    }
  }

  /** While another call is registered the count does not drop to zero. */
  lemma StillUsed(s: Sys, t: nat, u: nat, id: SharedID)
    requires Inv(s) && id in s.table && t != u && t < |s.threads| && u < |s.threads|
    requires Uses(s.threads[t], id) && Uses(s.threads[u], id)
    ensures 1 < s.table[id].count
  {
    assert EntryOk(s, id);
    assert {t, u} <= Users(s.threads, id);
    assert |{t, u}| == 2;
    SubsetSize({t, u}, Users(s.threads, id));
  }

  lemma SubsetSize(a: set<nat>, b: set<nat>)
    requires a <= b
    ensures |a| <= |b|
  {
    assert b == a + (b - a);
  }

  lemma UnlockInv(s: Sys, t: nat)
    requires Inv(s) && Enabled(s, t, Unlock) && !Panics(s, t, Unlock)
    ensures Inv(Do(s, t, Unlock))
  {
    var s' := Do(s, t, Unlock);
    var th, th' := s.threads[t], s'.threads[t];
    var lock := th.phase.lock;
    assert ThreadOk(s, t);
    EntriesKept(s, s', t);
    assert Holds(th, lock);
    forall x | Holds(th', x) ensures Holds(th, x) && x != lock {
      var i :| 0 <= i < th.phase.held && i < |th.locks| && th'.locks[i] == x;
      assert th.locks[i].id == th.ids[i];
    }
    forall u: nat | u < |s'.threads| ensures ThreadOk(s', u) {
      assert ThreadOk(s, u);
      if u != t { OtherOk(s, s', u); }
    }
    forall x | x in s'.owner ensures OwnerOk(s', x) {
      UnlockOwner(s, t, x);
    }
  }

  lemma UnlockOwner(s: Sys, t: nat, x: Lock)
    requires Inv(s) && Enabled(s, t, Unlock) && !Panics(s, t, Unlock) && x in Do(s, t, Unlock).owner
    ensures OwnerOk(Do(s, t, Unlock), x)
  {
    assert OwnerOk(s, x);
  }

  lemma StepInv(s: Sys, t: nat, a: Action)
    requires Inv(s) && Enabled(s, t, a)
    ensures !Panics(s, t, a) && Inv(Do(s, t, a))
  {
    hide Inv, Do;
    NoPanic(s, t, a);
    match a
    case MakeLock => MakeLockInv(s, t);
    case TakeLock => TakeLockInv(s, t);
    case Leave => LeaveInv(s, t);
    case Commit(writes) => CommitInv(s, t, writes);
    case ReleaseLock => ReleaseLockInv(s, t);
    case Unlock => UnlockInv(s, t);
  }
}
