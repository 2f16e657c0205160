/**
 Histories of `Apply` calls by all chains, in any interleaving: when each direction's elements are
 exported once and imported once, every call is accepted, and what is left does not depend on the order.
 */
module History {
  import opened Results
  import opened Bytes
  import opened SharedState
  import opened Confluence
  import opened SharedMemory

  /** All stores at one moment. */
  type Stores = Slot -> Store

  function View(db: DB): Stores {
    slot => At(db, slot)
  }

  /** Every store the call touches took its operations. */
  ghost predicate AppliedTo(m: Stores, c: Call, m': Stores) {
    forall slot :: Run(m(slot), SlotOps(slot, c)) == Ok(m'(slot))
  }

  ghost predicate RefusedBy(m: Stores, c: Call) {
    exists slot :: Run(m(slot), SlotOps(slot, c)).Err?
  }

  /** What a call may do: go through, or change nothing. */
  ghost predicate Outcome(m: Stores, c: Call, m': Stores) {
    AppliedTo(m, c, m') || (RefusedBy(m, c) && forall slot :: m'(slot) == m(slot))
  }

  /** The states a sequence of calls goes through, from empty stores on. */
  ghost predicate IsHistory(states: seq<Stores>, calls: seq<Call>) {
    && |states| == |calls| + 1
    && (forall slot :: states[0](slot) == EMPTY)
    && forall i :: 0 <= i < |calls| ==> Outcome(states[i], calls[i], states[i + 1])
  }

  /** The contract of `Apply` is such an outcome. */
  lemma ApplyOutcome(db: DB, c: Call, db': DB)
    requires Applied(db, c, db') || (Refused(db, c) && db' == db)
    ensures Outcome(View(db), c, View(db'))
  {
    if Applied(db, c, db') {
      forall slot ensures Run(View(db)(slot), SlotOps(slot, c)) == Ok(View(db')(slot)) {
        assert Run(At(db, slot), SlotOps(slot, c)) == Ok(At(db', slot));
      }
    } else {
      var slot :| Run(At(db, slot), SlotOps(slot, c)).Err?;
      assert Run(View(db)(slot), SlotOps(slot, c)).Err?;
    }
  }

  lemma {:induction false} RunIndexed(s: Store, ops: seq<Op>)
    requires SharedState.Indexed(s) && Run(s, ops).Ok?
    ensures SharedState.Indexed(Run(s, ops).value)
  {
    hide SharedState.Indexed, Put, Remove;
    if ops != [] {
      var n := |ops| - 1;
      RunIndexed(s, ops[..n]);
      match ops[n]
      case DoPut(e) => PutIndexed(Run(s, ops[..n]).value, e);
      case DoRemove(k) => RemoveIndexed(Run(s, ops[..n]).value, k);
    }
  }

  /** In every history, refused calls included, the trait lists of every store agree with its values all along. */
  lemma {:induction false} HistoryIndexed(states: seq<Stores>, calls: seq<Call>, i: nat, slot: Slot)
    requires IsHistory(states, calls) && i <= |calls|
    ensures i < |states| && SharedState.Indexed(states[i](slot))
  {
    hide SharedState.Indexed, Run, SlotOps;
    if i == 0 {
      EmptyIndexed();
    } else {
      HistoryIndexed(states, calls, i - 1, slot);
      assert Outcome(states[i - 1], calls[i - 1], states[i]);
      if AppliedTo(states[i - 1], calls[i - 1], states[i]) {
        assert Run(states[i - 1](slot), SlotOps(slot, calls[i - 1])) == Ok(states[i](slot));
        RunIndexed(states[i - 1](slot), SlotOps(slot, calls[i - 1]));
      }
    }
  }

  lemma EmptyIndexed()
    ensures SharedState.Indexed(EMPTY)
  {
  }

  /** Everything `a` put for `b`, in order. */
  function Exports(calls: seq<Call>, a: ChainID, b: ChainID): seq<Element> {
    if calls == [] then [] else
      var c := calls[|calls| - 1];
      Exports(calls[..|calls| - 1], a, b) + if c.me == a && b in c.requests then c.requests[b].puts else []
  }

  /** Every key `b` removed of what `a` puts, in order. */
  function Imports(calls: seq<Call>, b: ChainID, a: ChainID): seq<bytes> {
    if calls == [] then [] else
      var c := calls[|calls| - 1];
      Imports(calls[..|calls| - 1], b, a) + if c.me == b && a in c.requests then c.requests[a].removes else []
  }

  /** No chain puts a key twice for the same peer, and none removes one twice. */
  ghost predicate OnceEach(calls: seq<Call>) {
    forall a, b :: NoRepeat(Keys(Exports(calls, a, b))) && NoRepeat(Imports(calls, b, a))
  }

  /** Everything done to one store. */
  function SlotHistory(slot: Slot, calls: seq<Call>): seq<Op> {
    if calls == [] then [] else
      SlotHistory(slot, calls[..|calls| - 1]) + SlotOps(slot, calls[|calls| - 1])
  }

  function Sender(slot: Slot): ChainID {
    if slot.prefix == SMALLER_PREFIX then slot.high else slot.low
  }

  function Receiver(slot: Slot): ChainID {
    if slot.prefix == SMALLER_PREFIX then slot.low else slot.high
  }

  /** What a call does to a store, seen from the two ends of the store. */
  lemma SlotEnds(slot: Slot, c: Call)
    ensures var a, b := Sender(slot), Receiver(slot);
            SlotOps(slot, c) ==
            if slot == Outbound(a, b) && c.me == a && b in c.requests then AllPuts(c.requests[b].puts)
            else if slot == Inbound(b, a) && c.me == b && a in c.requests then AllRemoves(c.requests[a].removes)
            else []
  {
    hide AllPuts, AllRemoves;
  }

  /** A store sees the exports of one chain and the imports of the other, interleaved, and nothing else. */
  lemma {:induction false} SlotParts(slot: Slot, calls: seq<Call>)
    ensures var a, b := Sender(slot), Receiver(slot);
            && Puts(SlotHistory(slot, calls)) == (if slot == Outbound(a, b) then Exports(calls, a, b) else [])
            && Removes(SlotHistory(slot, calls)) == (if slot == Inbound(b, a) then Imports(calls, b, a) else [])
  {
    hide Puts, Removes, SlotOps, Sender, Receiver, Inbound, Outbound;
    if calls == [] {
      Projections([], []);
      assert AllPuts([]) == [];
    } else {
      var n := |calls| - 1;
      var c := calls[n];
      var a, b := Sender(slot), Receiver(slot);
      SlotParts(slot, calls[..n]);
      SlotEnds(slot, c);
      ProjectionsAppend(SlotHistory(slot, calls[..n]), SlotOps(slot, c));
      Projections([], []);
      assert AllPuts([]) == [];
      if b in c.requests { Projections(c.requests[b].puts, []); }
      if a in c.requests { Projections([], c.requests[a].removes); }
      NotBothEnds(slot, c);
    }
  }

  /** A chain that is its own peer has separate stores for the two directions. */
  lemma NotBothEnds(slot: Slot, c: Call)
    ensures var a, b := Sender(slot), Receiver(slot);
            !(slot == Outbound(a, b) && c.me == a && slot == Inbound(b, a) && c.me == b)
  {
  }

  lemma SlotOnce(slot: Slot, calls: seq<Call>)
    requires OnceEach(calls)
    ensures NoRepeat(Keys(Puts(SlotHistory(slot, calls)))) && NoRepeat(Removes(SlotHistory(slot, calls)))
  {
    hide Puts, Removes, SlotHistory, Exports, Imports;
    SlotParts(slot, calls);
    var a, b := Sender(slot), Receiver(slot);
    assert NoRepeat(Keys(Exports(calls, a, b))) && NoRepeat(Imports(calls, b, a));
  }

  lemma {:induction false} RunAppend(s: Store, a: seq<Op>, b: seq<Op>)
    requires Run(s, a).Ok?
    ensures Run(s, a + b) == Run(Run(s, a).value, b)
  {
    hide Step;
    if b == [] {
      assert a + b == a;
    } else {
      var n := |b| - 1;
      RunAppend(s, a, b[..n]);
      assert (a + b)[..|a| + n] == a + b[..n];
    }
  }

  lemma NoRepeatPrefix<T(!new)>(a: seq<T>, b: seq<T>)
    requires NoRepeat(a + b)
    ensures NoRepeat(a)
  {
    forall i, j | 0 <= i < j < |a| ensures a[i] != a[j] {
      assert (a + b)[i] == a[i] && (a + b)[j] == a[j];
    }
  }

  lemma OncePrefix(calls: seq<Call>)
    requires calls != [] && OnceEach(calls)
    ensures OnceEach(calls[..|calls| - 1])
  {
    hide NoRepeat;
    var n := |calls| - 1;
    var c := calls[n];
    forall a, b
      ensures NoRepeat(Keys(Exports(calls[..n], a, b))) && NoRepeat(Imports(calls[..n], b, a))
    {
      assert NoRepeat(Keys(Exports(calls, a, b))) && NoRepeat(Imports(calls, b, a));
      var more := if c.me == a && b in c.requests then c.requests[b].puts else [];
      assert Keys(Exports(calls, a, b)) == Keys(Exports(calls[..n], a, b)) + Keys(more);
      NoRepeatPrefix(Keys(Exports(calls[..n], a, b)), Keys(more));
      NoRepeatPrefix(Imports(calls[..n], b, a), if c.me == b && a in c.requests then c.requests[a].removes else []);
    }
  }

  /** No call of such a history is refused, and every store holds the outcome of all its operations. */
  lemma {:induction false} EveryCallApplies(states: seq<Stores>, calls: seq<Call>)
    requires IsHistory(states, calls) && OnceEach(calls)
    ensures forall i :: 0 <= i < |calls| ==> AppliedTo(states[i], calls[i], states[i + 1])
    ensures forall slot :: Run(EMPTY, SlotHistory(slot, calls)) == Ok(states[|calls|](slot))
  {
    hide Run, OnceEach, SlotOps, SlotHistory;
    var n := |calls| - 1;
    if calls == [] {
      forall slot ensures Run(EMPTY, SlotHistory(slot, calls)) == Ok(states[0](slot)) {
        Nothing(slot);
      }
    } else {
      OncePrefix(calls);
      EveryCallApplies(states[..n + 1], calls[..n]);
      assert Outcome(states[n], calls[n], states[n + 1]);
      forall slot
        ensures Run(EMPTY, SlotHistory(slot, calls)).Ok?
        ensures Run(EMPTY, SlotHistory(slot, calls)) == Run(states[n](slot), SlotOps(slot, calls[n]))
      {
        LastCall(slot, calls, states[n](slot));
      }
      assert !RefusedBy(states[n], calls[n]);
      forall i | 0 <= i < |calls| ensures AppliedTo(states[i], calls[i], states[i + 1]) {
        if i < n {
          assert calls[..n][i] == calls[i] && states[..n + 1][i] == states[i] &&
                 states[..n + 1][i + 1] == states[i + 1];
        }
      }
    }
  }

  lemma Nothing(slot: Slot)
    ensures Run(EMPTY, SlotHistory(slot, [])) == Ok(EMPTY)
  {
  }

  lemma LastCall(slot: Slot, calls: seq<Call>, s: Store)
    requires calls != [] && OnceEach(calls)
    requires Run(EMPTY, SlotHistory(slot, calls[..|calls| - 1])) == Ok(s)
    ensures Run(EMPTY, SlotHistory(slot, calls)) == Run(s, SlotOps(slot, calls[|calls| - 1]))
    ensures Run(EMPTY, SlotHistory(slot, calls)).Ok?
  {
    hide Run, OnceEach, SlotOps, Puts, Removes;
    RunAppend(EMPTY, SlotHistory(slot, calls[..|calls| - 1]), SlotOps(slot, calls[|calls| - 1]));
    SlotOnce(slot, calls);
    RunFinal(SlotHistory(slot, calls));
  }

  /**
   What `b` finds of `a` after such a history: exactly the elements exported by `a` and not imported by
   `b`, with the values and traits they were exported with, whether the import or the export came first.
   */
  lemma Delivered(states: seq<Stores>, calls: seq<Call>, a: ChainID, b: ChainID, k: bytes)
    requires IsHistory(states, calls) && OnceEach(calls) && a != b
    ensures var s := states[|calls|](Inbound(b, a));
            && IsFinal(s, Exports(calls, a, b), Imports(calls, b, a))
            && (Visible(s, k) <==> k in Keys(Exports(calls, a, b)) && k !in Imports(calls, b, a))
            && forall e :: e in Exports(calls, a, b) && e.key == k && Visible(s, k)
                 ==> s.values[k].value == e.value && s.values[k].traits == e.traits
  {
    hide Run, OnceEach, Puts, Removes, SlotHistory, Exports, Imports, NoRepeat, Remaining;
    var slot := Inbound(b, a);
    var es := Exports(calls, a, b);
    EveryCallApplies(states, calls);
    SlotOnce(slot, calls);
    SlotParts(slot, calls);
    assert Sender(slot) == a && Receiver(slot) == b && slot == Outbound(a, b);
    RunFinal(SlotHistory(slot, calls));
    var s := states[|calls|](slot);
    assert Run(EMPTY, SlotHistory(slot, calls)) == Ok(s);
    assert FinalValue(s, es, Imports(calls, b, a), k);
    LookupNone(es, k);
    forall e | e in es && e.key == k && Visible(s, k)
      ensures s.values[k].value == e.value && s.values[k].traits == e.traits
    {
      OnceFound(es, e);
    }
  }

  lemma {:induction false} OnceFound(es: seq<Element>, e: Element)
    requires NoRepeat(Keys(es)) && e in es
    ensures Lookup(es, e.key) == Some(e)
  {
    var n := |es| - 1;
    var i :| 0 <= i < |es| && es[i] == e;
    if i < n {
      assert Keys(es)[i] != Keys(es)[n];
      assert Keys(es)[..n] == Keys(es[..n]);
      assert es[..n][i] == e;
      OnceFound(es[..n], e);
    }
  }

  /** Two histories in which every chain makes the same exports and imports leave the same memory. */
  lemma OrderOfChainsIrrelevant(states: seq<Stores>, calls: seq<Call>, states': seq<Stores>, calls': seq<Call>,
                                slot: Slot)
    requires IsHistory(states, calls) && IsHistory(states', calls') && OnceEach(calls)
    requires forall a, b ::
               Exports(calls, a, b) == Exports(calls', a, b) && Imports(calls, b, a) == Imports(calls', b, a)
    ensures states[|calls|](slot) == states'[|calls'|](slot)
  {
    hide Run, Puts, Removes, SlotHistory, Exports, Imports, NoRepeat;
    assert OnceEach(calls') by {
      forall a, b ensures NoRepeat(Keys(Exports(calls', a, b))) && NoRepeat(Imports(calls', b, a)) {
        assert Exports(calls, a, b) == Exports(calls', a, b);
      }
    }
    EveryCallApplies(states, calls);
    EveryCallApplies(states', calls');
    SlotOnce(slot, calls);
    SlotParts(slot, calls);
    SlotParts(slot, calls');
    var a, b := Sender(slot), Receiver(slot);
    assert Exports(calls, a, b) == Exports(calls', a, b) && Imports(calls, b, a) == Imports(calls', b, a);
    Confluent(SlotHistory(slot, calls), SlotHistory(slot, calls'));
  }
}
