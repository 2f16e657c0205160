/** The index of accepted containers, across crashes and restarts. */
module Index {
  import opened Results

  const MAX_FETCHED_BY_RANGE: nat := 1024

  const UINT64_SIZE: nat := 0x1_0000_0000_0000_0000

  type uint64 = n: nat | n < UINT64_SIZE

  type ID = nat

  datatype Container = Container(id: ID, bytes: seq<nat>, timestamp: int)

  /** What a slot holds that nothing was read into. */
  const ZERO: Container := Container(0, [], 0)

  datatype Error = NotFound | NoneAccepted | NumToFetchInvalid | StartAfterLast | NoContainerAtIndex

  /** A database with the index: containers by number, numbers by ID, and the next number. */
  datatype DB = DB(containers: map<nat, Container>, indices: map<ID, nat>, next: nat)

  const EMPTY: DB := DB(map[], map[], 0)

  /** `base` is what is on disk, `view` the overlay the index writes to, `next` its counter. */
  datatype State = State(base: DB, view: DB, next: nat)

  // ---------- transitions ----------

  /** The writes of `Accept`, of which a crash may let only the first few happen. */
  function Write(st: State, c: Container, writes: nat): State {
    var st1 := if writes >= 1 then st.(view := st.view.(containers := st.view.containers[st.next := c])) else st;
    var st2 := if writes >= 2 then st1.(view := st1.view.(indices := st1.view.indices[c.id := st.next])) else st1;
    if writes >= 3 then st2.(next := st.next + 1, view := st2.view.(next := st.next + 1)) else st2
  }

  function Accepted(st: State, c: Container): State {
    if c.id in st.view.indices then st
    else var st' := Write(st, c, 3); st'.(base := st'.view)
  }

  /** What is not committed is lost, and the counter is read back. */
  function Restart(st: State): State {
    State(st.base, st.base, st.base.next)
  }

  /** A crash before the commit, after some of the writes, and the restart. */
  function Crash(st: State, c: Container, writes: nat): State {
    Restart(if c.id in st.view.indices then st else Write(st, c, writes))
  }

  datatype Op = OpAccept(c: Container) | OpCrash(c: Container, writes: nat) | OpRestart

  function Step(st: State, op: Op): State {
    match op
    case OpAccept(c) => Accepted(st, c)
    case OpCrash(c, writes) => Crash(st, c, writes)
    case OpRestart => Restart(st)
  }

  function Run(ops: seq<Op>): State {
    if ops == [] then State(EMPTY, EMPTY, 0) else Step(Run(ops[..|ops| - 1]), ops[|ops| - 1])
  }

  // ---------- what it means ----------

  predicate HasID(cs: seq<Container>, id: ID) {
    exists i :: 0 <= i < |cs| && cs[i].id == id
  }

  /** The containers in the order they were first accepted. */
  function Firsts(ops: seq<Op>): seq<Container> {
    if ops == [] then [] else
      var before := Firsts(ops[..|ops| - 1]);
      match ops[|ops| - 1]
      case OpAccept(c) => if HasID(before, c.id) then before else before + [c]
      case _ => before
  }

  /** The two maps are inverse bijections between the numbers below `next` and the IDs, in order. */
  ghost predicate Indexes(db: DB, cs: seq<Container>) {
    && db.next == |cs|
    && (forall i :: i in db.containers <==> 0 <= i < |cs|)
    && (forall i :: 0 <= i < |cs| ==> db.containers[i] == cs[i])
    && (forall i :: 0 <= i < |cs| ==> cs[i].id in db.indices && db.indices[cs[i].id] == i)
    && (forall id :: id in db.indices ==> db.indices[id] < |cs| && cs[db.indices[id]].id == id)
  }

  ghost predicate Holds(st: State, cs: seq<Container>) {
    Indexes(st.base, cs) && st.view == st.base && st.next == st.base.next
  }

  lemma AcceptIndexes(st: State, c: Container, cs: seq<Container>)
    requires Holds(st, cs)
    ensures HasID(cs, c.id) <==> c.id in st.view.indices
    ensures Holds(Accepted(st, c), if HasID(cs, c.id) then cs else cs + [c])
    ensures HasID(cs, c.id) ==> Accepted(st, c) == st
  {
    if c.id in st.view.indices {
      assert cs[st.view.indices[c.id]].id == c.id;
    } else {
      var db, cs' := Accepted(st, c).base, cs + [c];
      assert forall i :: 0 <= i < |cs| ==> cs'[i] == cs[i];
      forall id | id in db.indices ensures db.indices[id] < |cs'| && cs'[db.indices[id]].id == id {
        if id != c.id { assert id in st.view.indices; }
      }
    }
  }

  /** After every history of accepts, crashes and restarts the index holds the first acceptances, in order. */
  lemma {:induction false} RunIndexes(ops: seq<Op>)
    ensures Holds(Run(ops), Firsts(ops))
  {
    hide Indexes, HasID, Accepted;
    if ops == [] {
      StartIndexes();
    } else {
      var init, op := ops[..|ops| - 1], ops[|ops| - 1];
      RunIndexes(init);
      if op.OpAccept? { AcceptIndexes(Run(init), op.c, Firsts(init)); }
    }
  }

  lemma StartIndexes()
    ensures Indexes(EMPTY, [])
  {
  }

  /** A container keeps its number whatever happens later. */
  lemma {:induction false} NumbersStay(ops: seq<Op>, more: seq<Op>, i: nat)
    requires i < |Firsts(ops)|
    ensures |Firsts(ops)| <= |Firsts(ops + more)| && Firsts(ops + more)[i] == Firsts(ops)[i]
  {
    hide HasID;
    if more == [] {
      assert ops + more == ops;
    } else {
      NumbersStay(ops, more[..|more| - 1], i);
      assert (ops + more)[..|ops| + |more| - 1] == ops + more[..|more| - 1];
    }
  }

  // ---------- the index as programmed ----------

  class Indexer {
    var base: DB
    var view: DB
    var nextAcceptedIndex: nat

    ghost function Now(): State
      reads this
    {
      State(base, view, nextAcceptedIndex)
    }

    /** Opens the index over what is on disk. */
    constructor (disk: DB)
      ensures Now() == State(disk, disk, disk.next)
      ensures forall cs :: Indexes(disk, cs) ==> Holds(Now(), cs)
    {
      base, view, nextAcceptedIndex := disk, disk, disk.next;
    }

    method Accept(c: Container)
      modifies this
      ensures Now() == Accepted(old(Now()), c)
      ensures forall cs :: Holds(old(Now()), cs) ==> Holds(Now(), if HasID(cs, c.id) then cs else cs + [c])
    {
      hide HasID;
      forall cs | Holds(Now(), cs)
        ensures Holds(Accepted(Now(), c), if HasID(cs, c.id) then cs else cs + [c])
      {
        AcceptIndexes(Now(), c, cs);
      }
      if c.id in view.indices { return; }
      view := view.(containers := view.containers[nextAcceptedIndex := c]);
      view := view.(indices := view.indices[c.id := nextAcceptedIndex]);
      nextAcceptedIndex := nextAcceptedIndex + 1;
      view := view.(next := nextAcceptedIndex);
      base := view;
    }

    method GetContainerByIndex(i: nat, ghost cs: seq<Container>) returns (r: Result<Container, Error>)
      requires Holds(Now(), cs)
      ensures r == if i < |cs| then Ok(cs[i]) else Err(NoContainerAtIndex)
    {
      if nextAcceptedIndex == 0 || i > nextAcceptedIndex - 1 { return Err(NoContainerAtIndex); }
      if i !in view.containers { return Err(NotFound); }
      return Ok(view.containers[i]);
    }

    method GetIndex(id: ID, ghost cs: seq<Container>) returns (r: Result<nat, Error>)
      requires Holds(Now(), cs)
      ensures if HasID(cs, id) then r.Ok? && r.value < |cs| && cs[r.value].id == id else r == Err(NotFound)
    {
      if id !in view.indices { return Err(NotFound); }
      return Ok(view.indices[id]);
    }

    /**
     The containers from `start` on, at most `num` of them, as far as there are any. When the last position does not
     fit 64 bits it wraps around to one before `start`, and what comes back are `num` slots with nothing in them.
     */
    method GetContainerRange(start: uint64, num: uint64, ghost cs: seq<Container>)
      returns (r: Result<seq<Container>, Error>)
      requires Holds(Now(), cs)
      ensures r == if num == 0 || num > MAX_FETCHED_BY_RANGE then Err(NumToFetchInvalid)
                     else if cs == [] then Err(NoneAccepted)
                     else if start >= |cs| then Err(StartAfterLast)
                     else if start + num > UINT64_SIZE then Ok(seq(num, _ => ZERO))
                     else Ok(cs[start..if start + num <= |cs| then start + num else |cs|])
    {
      if num == 0 || num > MAX_FETCHED_BY_RANGE { return Err(NumToFetchInvalid); }
      if nextAcceptedIndex == 0 { return Err(NoneAccepted); }
      var lastAccepted := nextAcceptedIndex - 1;
      if start > lastAccepted { return Err(StartAfterLast); }
      var end := (start + num - 1) % UINT64_SIZE;
      var last := if end < lastAccepted then end else lastAccepted;
      var containers := seq((last - start + 1) % UINT64_SIZE, _ => ZERO);
      var j := start;
      while j <= last
        invariant start <= j && (j <= last + 1 || j == start)
        invariant last < start ==> containers == seq(num, _ => ZERO)
        invariant start <= last ==> |containers| == last - start + 1 && containers[..j - start] == cs[start..j]
      {
        var c := GetContainerByIndex(j, cs);
        if c.Err? { return Err(NotFound); }
        containers := containers[j - start := c.value];
        assert containers[..j + 1 - start] == containers[..j - start] + [c.value];
        j := j + 1;
      }
      assert start <= last ==> containers[..last + 1 - start] == containers;
      return Ok(containers);
    }

    method GetContainerByID(id: ID, ghost cs: seq<Container>) returns (r: Result<Container, Error>)
      requires Holds(Now(), cs)
      ensures if HasID(cs, id) then r.Ok? && r.value in cs && r.value.id == id else r == Err(NotFound)
    {
      if id !in view.indices { return Err(NotFound); }
      var i := view.indices[id];
      if i !in view.containers { return Err(NotFound); }
      return Ok(view.containers[i]);
    }

    method GetLastAccepted(ghost cs: seq<Container>) returns (r: Result<Container, Error>)
      requires Holds(Now(), cs)
      ensures r == if cs == [] then Err(NoneAccepted) else Ok(cs[|cs| - 1])
    {
      if nextAcceptedIndex == 0 { return Err(NoneAccepted); }
      r := GetContainerByIndex(nextAcceptedIndex - 1, cs);
    }
  }
}
