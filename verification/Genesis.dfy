/**
 The genesis allocations: how the staked funds are split over the initial stakers, and that nothing is
 lost between the configuration and the genesis of the two chains.
 */
module Genesis {
  const MAX_UINT64: nat := 0xFFFF_FFFF_FFFF_FFFF

  /** Unsigned addition as the machine does it. */
  function Add64(a: nat, b: nat): nat {
    (a + b) % (MAX_UINT64 + 1)
  }

  type Address = nat

  datatype LockedAmount = LockedAmount(amount: nat, locktime: nat)

  datatype Allocation = Allocation(eth: Address, avax: Address, initialAmount: nat, schedule: seq<LockedAmount>)

  /** An amount of one owner that unlocks at one time. */
  datatype UTXO = UTXO(eth: Address, avax: Address, locktime: nat, amount: nat)

  // ---------- the unlocks ----------

  /** The unlocks of an allocation, one by one. */
  function Unlocked(a: Allocation): (r: seq<UTXO>)
    ensures |r| == |a.schedule|
  {
    seq(|a.schedule|, j requires 0 <= j < |a.schedule| =>
      UTXO(a.eth, a.avax, a.schedule[j].locktime, a.schedule[j].amount))
  }

  function AllUnlocked(allocations: seq<Allocation>): seq<UTXO> {
    if allocations == [] then [] else
      AllUnlocked(allocations[..|allocations| - 1]) + Unlocked(allocations[|allocations| - 1])
  }

  /** How many unlocks come before those of the allocation at this place. */
  function Before(allocations: seq<Allocation>, i: nat): nat
    requires i <= |allocations|
  {
    if i == 0 then 0 else Before(allocations, i - 1) + |allocations[i - 1].schedule|
  }

  /** The output of one unlock is at its place. */
  ghost predicate InPlace(allocations: seq<Allocation>, utxos: seq<UTXO>, i: nat, j: nat)
    requires i < |allocations| && j < |allocations[i].schedule|
  {
    var a, at := allocations[i], Before(allocations, i) + j;
    at < |utxos| && utxos[at] == UTXO(a.eth, a.avax, a.schedule[j].locktime, a.schedule[j].amount)
  }

  /** One output for each unlock, in the order of the allocations and of their schedules. */
  ghost predicate OneEach(allocations: seq<Allocation>, utxos: seq<UTXO>) {
    && |utxos| == Before(allocations, |allocations|)
    && forall i: nat, j: nat :: i < |allocations| && j < |allocations[i].schedule| ==> InPlace(allocations, utxos, i, j)
  }

  lemma UnlockedAppend(allocations: seq<Allocation>, a: Allocation)
    ensures AllUnlocked(allocations + [a]) == AllUnlocked(allocations) + Unlocked(a)
  {
    assert (allocations + [a])[..|allocations|] == allocations;
  }

  lemma {:induction false} UnlockedAt(allocations: seq<Allocation>, i: nat)
    requires i <= |allocations|
    ensures |AllUnlocked(allocations[..i])| == Before(allocations, i)
    ensures AllUnlocked(allocations[..i]) <= AllUnlocked(allocations)
    decreases |allocations| - i
  {
    if i == |allocations| {
      assert allocations[..i] == allocations;
      UnlockedLength(allocations, i);
    } else {
      UnlockedAt(allocations, i + 1);
      assert allocations[..i + 1][..i] == allocations[..i];
    }
  }

  lemma {:induction false} UnlockedLength(allocations: seq<Allocation>, i: nat)
    requires i <= |allocations|
    ensures |AllUnlocked(allocations[..i])| == Before(allocations, i)
  {
    if i > 0 {
      UnlockedLength(allocations, i - 1);
      assert allocations[..i][..i - 1] == allocations[..i - 1];
    }
  }

  /** Where the unlocks of one allocation lie. */
  lemma UnlockedHere(allocations: seq<Allocation>, i: nat)
    requires i < |allocations|
    ensures var all, base := AllUnlocked(allocations), Before(allocations, i);
            && base + |allocations[i].schedule| == Before(allocations, i + 1) <= |all|
            && all[base..base + |allocations[i].schedule|] == Unlocked(allocations[i])
  {
    UnlockedAt(allocations, i);
    UnlockedAt(allocations, i + 1);
    assert allocations[..i + 1][..i] == allocations[..i];
    var all := AllUnlocked(allocations);
    assert AllUnlocked(allocations[..i + 1]) == AllUnlocked(allocations[..i]) + Unlocked(allocations[i]);
    assert all[..Before(allocations, i + 1)] == AllUnlocked(allocations[..i + 1]);
  }

  lemma UnlockedPlace(allocations: seq<Allocation>, i: nat, j: nat)
    requires i < |allocations| && j < |allocations[i].schedule|
    ensures InPlace(allocations, AllUnlocked(allocations), i, j)
  {
    hide AllUnlocked;
    UnlockedHere(allocations, i);
    var all, base := AllUnlocked(allocations), Before(allocations, i);
    assert all[base..base + |allocations[i].schedule|][j] == all[base + j];
  }

  lemma UnlockedOneEach(allocations: seq<Allocation>)
    ensures OneEach(allocations, AllUnlocked(allocations))
  {
    hide AllUnlocked, InPlace;
    assert allocations[..|allocations|] == allocations;
    UnlockedAt(allocations, |allocations|);
    forall i: nat, j: nat | i < |allocations| && j < |allocations[i].schedule|
      ensures InPlace(allocations, AllUnlocked(allocations), i, j)
    {
      UnlockedPlace(allocations, i, j);
    }
  }

  // ---------- pieces of unlocks ----------

  predicate PieceOf(part: UTXO, whole: UTXO) {
    part.eth == whole.eth && part.avax == whole.avax && part.locktime == whole.locktime && part.amount <= whole.amount
  }

  /** The parts are pieces of different unlocks before `bound`, in their order. */
  ghost predicate PiecesAt(all: seq<UTXO>, parts: seq<UTXO>, at: seq<nat>, bound: nat) {
    && |at| == |parts| && bound <= |all|
    && (forall i, j :: 0 <= i < j < |at| ==> at[i] < at[j])
    && forall i :: 0 <= i < |at| ==> at[i] < bound && PieceOf(parts[i], all[at[i]])
  }

  ghost predicate Pieces(all: seq<UTXO>, parts: seq<UTXO>, bound: nat) {
    exists at :: PiecesAt(all, parts, at, bound)
  }

  lemma NoPieces(all: seq<UTXO>, bound: nat)
    requires bound <= |all|
    ensures Pieces(all, [], bound)
  {
    assert PiecesAt(all, [], [], bound);
  }

  lemma PiecesLater(all: seq<UTXO>, parts: seq<UTXO>, bound: nat, later: nat)
    requires Pieces(all, parts, bound) && bound <= later <= |all|
    ensures Pieces(all, parts, later)
  {
    var at :| PiecesAt(all, parts, at, bound);
    assert PiecesAt(all, parts, at, later);
  }

  lemma PiecesAdd(all: seq<UTXO>, parts: seq<UTXO>, bound: nat, p: UTXO)
    requires Pieces(all, parts, bound) && bound < |all| && PieceOf(p, all[bound])
    ensures Pieces(all, parts + [p], bound + 1)
  {
    var at :| PiecesAt(all, parts, at, bound);
    assert PiecesAt(all, parts + [p], at + [bound], bound + 1);
  }

  // ---------- the coins ----------

  /** The smallest unit of a locked amount: whose it is, and when it unlocks. */
  datatype Coin = Coin(eth: Address, avax: Address, locktime: nat)

  ghost function Repeat(c: Coin, n: nat): (r: seq<Coin>)
    ensures |r| == n
  {
    seq(n, i => c)
  }

  /** The coins of a schedule, in order. */
  ghost function Unlocks(eth: Address, avax: Address, schedule: seq<LockedAmount>): seq<Coin> {
    if schedule == [] then [] else
      var u := schedule[|schedule| - 1];
      Unlocks(eth, avax, schedule[..|schedule| - 1]) + Repeat(Coin(eth, avax, u.locktime), u.amount)
  }

  ghost function Coins(allocations: seq<Allocation>): seq<Coin> {
    if allocations == [] then [] else
      var a := allocations[|allocations| - 1];
      Coins(allocations[..|allocations| - 1]) + Unlocks(a.eth, a.avax, a.schedule)
  }

  ghost function AllCoins(groups: seq<seq<Allocation>>): seq<Coin> {
    if groups == [] then [] else AllCoins(groups[..|groups| - 1]) + Coins(groups[|groups| - 1])
  }

  lemma UnlocksAppend(eth: Address, avax: Address, schedule: seq<LockedAmount>, u: LockedAmount)
    ensures Unlocks(eth, avax, schedule + [u]) ==
            Unlocks(eth, avax, schedule) + Repeat(Coin(eth, avax, u.locktime), u.amount)
  {
    assert (schedule + [u])[..|schedule|] == schedule;
  }

  lemma CoinsAppend(allocations: seq<Allocation>, a: Allocation)
    ensures Coins(allocations + [a]) == Coins(allocations) + Unlocks(a.eth, a.avax, a.schedule)
  {
    assert (allocations + [a])[..|allocations|] == allocations;
  }

  lemma AllCoinsAppend(groups: seq<seq<Allocation>>, g: seq<Allocation>)
    ensures AllCoins(groups + [g]) == AllCoins(groups) + Coins(g)
  {
    assert (groups + [g])[..|groups|] == groups;
  }

  lemma RepeatSplit(c: Coin, a: nat, b: nat)
    ensures Repeat(c, a) + Repeat(c, b) == Repeat(c, a + b)
  {
  }

  lemma {:induction false} CoinsGrow(allocations: seq<Allocation>, i: nat)
    requires i <= |allocations|
    ensures Coins(allocations[..i]) <= Coins(allocations)
  {
    if i < |allocations| {
      CoinsGrow(allocations[..|allocations| - 1], i);
      assert allocations[..|allocations| - 1][..i] == allocations[..i];
    } else {
      assert allocations[..i] == allocations;
    }
  }

  lemma {:induction false} UnlocksGrow(eth: Address, avax: Address, schedule: seq<LockedAmount>, j: nat)
    requires j <= |schedule|
    ensures Unlocks(eth, avax, schedule[..j]) <= Unlocks(eth, avax, schedule)
  {
    if j < |schedule| {
      UnlocksGrow(eth, avax, schedule[..|schedule| - 1], j);
      assert schedule[..|schedule| - 1][..j] == schedule[..j];
    } else {
      assert schedule[..j] == schedule;
    }
  }

  /** The coins up to a point within an allocation are a beginning of all coins. */
  lemma Within(allocations: seq<Allocation>, i: nat, j: nat)
    requires i < |allocations| && j < |allocations[i].schedule|
    ensures var a, u := allocations[i], allocations[i].schedule[j];
            && Coins(allocations[..i]) + Unlocks(a.eth, a.avax, a.schedule[..j]) +
               Repeat(Coin(a.eth, a.avax, u.locktime), u.amount)
               == Coins(allocations[..i]) + Unlocks(a.eth, a.avax, a.schedule[..j + 1])
            && |Coins(allocations[..i])| + |Unlocks(a.eth, a.avax, a.schedule[..j + 1])| <= |Coins(allocations)|
  {
    var a := allocations[i];
    assert a.schedule[..j + 1] == a.schedule[..j] + [a.schedule[j]];
    UnlocksAppend(a.eth, a.avax, a.schedule[..j], a.schedule[j]);
    assert allocations[..i + 1] == allocations[..i] + [a];
    CoinsAppend(allocations[..i], a);
    CoinsGrow(allocations, i + 1);
    UnlocksGrow(a.eth, a.avax, a.schedule, j + 1);
  }

  // ---------- the split ----------

  method TotalAmount(allocations: seq<Allocation>) returns (total: nat)
    requires |Coins(allocations)| <= MAX_UINT64
    ensures total == |Coins(allocations)|
  {
    total := 0;
    for i := 0 to |allocations|
      invariant total == |Coins(allocations[..i])|
    {
      var a := allocations[i];
      for j := 0 to |a.schedule|
        invariant total == |Coins(allocations[..i])| + |Unlocks(a.eth, a.avax, a.schedule[..j])|
      {
        Within(allocations, i, j);
        total := Add64(total, a.schedule[j].amount);
      }
      assert a.schedule[..|a.schedule|] == a.schedule;
      assert allocations[..i + 1] == allocations[..i] + [a];
      CoinsAppend(allocations[..i], a);
    }
    assert allocations[..|allocations|] == allocations;
  }

  /** The groups closed so far hold the node weight each, and all the coins together are the ones taken so far. */
  ghost predicate Sofar(groups: seq<seq<Allocation>>, current: seq<Allocation>, open: Allocation, weight: nat,
                        taken: seq<Coin>) {
    && (forall k :: 0 <= k < |groups| ==> |Coins(groups[k])| == weight)
    && AllCoins(groups) + Coins(current) + Unlocks(open.eth, open.avax, open.schedule) == taken
  }

  /** The amount in the group that is being filled. */
  ghost function Filled(current: seq<Allocation>, open: Allocation): nat {
    |Coins(current)| + |Unlocks(open.eth, open.avax, open.schedule)|
  }

  function Emptied(a: Allocation): Allocation {
    Allocation(a.eth, a.avax, 0, [])
  }

  ghost predicate NoInitial(allocations: seq<Allocation>) {
    forall i :: 0 <= i < |allocations| ==> allocations[i].initialAmount == 0
  }

  /** Adding an amount to the open allocation. */
  lemma Put(groups: seq<seq<Allocation>>, current: seq<Allocation>, open: Allocation, weight: nat, taken: seq<Coin>,
            u: LockedAmount)
    requires Sofar(groups, current, open, weight, taken)
    ensures var open' := open.(schedule := open.schedule + [u]);
            && Sofar(groups, current, open', weight, taken + Repeat(Coin(open.eth, open.avax, u.locktime), u.amount))
            && Filled(current, open') == Filled(current, open) + u.amount
  {
    hide Coins, AllCoins;
    UnlocksAppend(open.eth, open.avax, open.schedule, u);
  }

  /** Closing the open allocation and the group it is in. */
  lemma CloseGroup(groups: seq<seq<Allocation>>, current: seq<Allocation>, open: Allocation, weight: nat,
                   taken: seq<Coin>)
    requires Sofar(groups, current, open, weight, taken) && Filled(current, open) == weight
    ensures Sofar(groups + [current + [open]], [], Emptied(open), weight, taken)
    ensures Filled([], Emptied(open)) == 0
  {
    hide Unlocks;
    CoinsAppend(current, open);
    AllCoinsAppend(groups, current + [open]);
    NoUnlocks(open.eth, open.avax);
    assert AllCoins(groups) + (Coins(current) + Unlocks(open.eth, open.avax, open.schedule)) == taken;
    assert taken + [] + [] == taken;
  }

  lemma NoUnlocks(eth: Address, avax: Address)
    ensures Unlocks(eth, avax, []) == []
  {
  }

  /** Going on with the next allocation in the same group. */
  lemma NextAllocation(groups: seq<seq<Allocation>>, current: seq<Allocation>, open: Allocation, weight: nat,
                       taken: seq<Coin>, a: Allocation)
    requires Sofar(groups, current, open, weight, taken)
    ensures var current' := if open.schedule == [] then current else current + [open];
            Sofar(groups, current', Emptied(a), weight, taken) && Filled(current', Emptied(a)) == Filled(current, open)
  {
    hide Unlocks;
    CoinsAppend(current, open);
    NoUnlocks(open.eth, open.avax);
    NoUnlocks(a.eth, a.avax);
    assert AllCoins(groups) + (Coins(current) + Unlocks(open.eth, open.avax, open.schedule)) + [] == taken;
    assert AllCoins(groups) + Coins(current) + [] == AllCoins(groups) + Coins(current);
  }

  /** Each group holds at most one piece of each unlock, and the open one none from `bound` on. */
  ghost predicate Placed(all: seq<UTXO>, groups: seq<seq<Allocation>>, current: seq<Allocation>, open: Allocation,
                         bound: nat) {
    && (forall k :: 0 <= k < |groups| ==> Pieces(all, AllUnlocked(groups[k]), |all|))
    && Pieces(all, AllUnlocked(current) + Unlocked(open), bound)
  }

  lemma PlacePut(all: seq<UTXO>, groups: seq<seq<Allocation>>, current: seq<Allocation>, open: Allocation, bound: nat,
                 u: LockedAmount)
    requires Placed(all, groups, current, open, bound) && bound < |all|
    requires PieceOf(UTXO(open.eth, open.avax, u.locktime, u.amount), all[bound])
    ensures Placed(all, groups, current, open.(schedule := open.schedule + [u]), bound + 1)
  {
    hide Pieces, AllUnlocked;
    var p := UTXO(open.eth, open.avax, u.locktime, u.amount);
    PiecesAdd(all, AllUnlocked(current) + Unlocked(open), bound, p);
    assert Unlocked(open.(schedule := open.schedule + [u])) == Unlocked(open) + [p];
    assert AllUnlocked(current) + Unlocked(open) + [p] == AllUnlocked(current) + (Unlocked(open) + [p]);
  }

  lemma PlaceClose(all: seq<UTXO>, groups: seq<seq<Allocation>>, current: seq<Allocation>, open: Allocation, bound: nat,
                   next: nat)
    requires Placed(all, groups, current, open, bound) && bound <= |all| && next <= |all|
    ensures Placed(all, groups + [current + [open]], [], Emptied(open), next)
  {
    hide Pieces;
    UnlockedAppend(current, open);
    PiecesLater(all, AllUnlocked(current) + Unlocked(open), bound, |all|);
    NoPieces(all, next);
    assert AllUnlocked([]) + Unlocked(Emptied(open)) == [];
  }

  lemma PlaceSkip(all: seq<UTXO>, groups: seq<seq<Allocation>>, current: seq<Allocation>, open: Allocation, bound: nat)
    requires Placed(all, groups, current, open, bound) && bound < |all|
    ensures Placed(all, groups, current, open, bound + 1)
  {
    PiecesLater(all, AllUnlocked(current) + Unlocked(open), bound, bound + 1);
  }

  lemma PlaceNext(all: seq<UTXO>, groups: seq<seq<Allocation>>, current: seq<Allocation>, open: Allocation, bound: nat,
                  a: Allocation)
    requires Placed(all, groups, current, open, bound)
    ensures Placed(all, groups, if open.schedule == [] then current else current + [open], Emptied(a), bound)
  {
    hide Pieces;
    UnlockedAppend(current, open);
    assert Unlocked(Emptied(a)) == [];
    assert AllUnlocked(current) + Unlocked(open) + [] == AllUnlocked(current) + Unlocked(open);
    assert open.schedule == [] ==> AllUnlocked(current) + [] == AllUnlocked(current) + Unlocked(open);
  }

  /** Everything the loops of the split keep. */
  ghost predicate Filling(groups: seq<seq<Allocation>>, current: seq<Allocation>, open: Allocation, amount: nat,
                          numSplits: nat, weight: nat, taken: seq<Coin>) {
    && |groups| < numSplits
    && Sofar(groups, current, open, weight, taken)
    && amount == Filled(current, open)
    && (|groups| < numSplits - 1 ==> amount <= weight)
    && NoInitial(current) && forall k :: 0 <= k < |groups| ==> NoInitial(groups[k])
  }

  /** Fills groups with one unlock of an allocation. */
  method SplitUnlock(a: Allocation, u: LockedAmount, numSplits: nat, weight: nat,
                     groups0: seq<seq<Allocation>>, current0: seq<Allocation>, open0: Allocation, amount0: nat,
                     ghost taken: seq<Coin>, ghost all: seq<UTXO>, ghost at: nat)
    returns (groups: seq<seq<Allocation>>, current: seq<Allocation>, open: Allocation, amount: nat)
    requires Filling(groups0, current0, open0, amount0, numSplits, weight, taken)
    requires open0 == Emptied(a).(schedule := open0.schedule)
    requires |taken| + u.amount <= MAX_UINT64
    requires at < |all| && all[at] == UTXO(a.eth, a.avax, u.locktime, u.amount)
    requires Placed(all, groups0, current0, open0, at)
    ensures Filling(groups, current, open, amount, numSplits, weight,
                    taken + Repeat(Coin(a.eth, a.avax, u.locktime), u.amount))
    ensures open == Emptied(a).(schedule := open.schedule)
    ensures groups == groups0 || 0 < |taken| + u.amount
    ensures Placed(all, groups, current, open, at + 1)
  {
    hide Coins, AllCoins, Unlocks, Placed, AllUnlocked, Unlocked, Sofar, Filled;
    groups, current, open, amount := groups0, current0, open0, amount0;
    var left: nat := u.amount;
    var c := Coin(a.eth, a.avax, u.locktime);
    ghost var now := taken;
    assert taken + Repeat(c, 0) == taken;
    FilledBound(groups, current, open, weight, now);
    while Add64(amount, left) > weight && |groups| < numSplits - 1
      invariant Filling(groups, current, open, amount, numSplits, weight, now)
      invariant left <= u.amount && now == taken + Repeat(c, u.amount - left) && amount <= |now|
      invariant open == Emptied(a).(schedule := open.schedule)
      invariant groups == groups0 || 0 < |taken| + u.amount
      invariant Placed(all, groups, current, open, at)
      decreases numSplits - |groups|
    {
      var amountToAdd := weight - amount;
      Put(groups, current, open, weight, now, LockedAmount(amountToAdd, u.locktime));
      PlacePut(all, groups, current, open, at, LockedAmount(amountToAdd, u.locktime));
      open := open.(schedule := open.schedule + [LockedAmount(amountToAdd, u.locktime)]);
      RepeatSplit(c, u.amount - left, amountToAdd);
      now := now + Repeat(c, amountToAdd);
      assert now == taken + (Repeat(c, u.amount - left) + Repeat(c, amountToAdd));
      left := left - amountToAdd;
      CloseGroup(groups, current, open, weight, now);
      PlaceClose(all, groups, current, open, at + 1, at);
      groups := groups + [current + [open]];
      current, open, amount := [], Emptied(a), 0;
    }
    PlaceSkip(all, groups, current, open, at);
    if left != 0 {
      Put(groups, current, open, weight, now, LockedAmount(left, u.locktime));
      PlacePut(all, groups, current, open, at, LockedAmount(left, u.locktime));
      open := open.(schedule := open.schedule + [LockedAmount(left, u.locktime)]);
      amount := Add64(amount, left);
    }
    RepeatSplit(c, u.amount - left, left);
    assert now + Repeat(c, left) == taken + (Repeat(c, u.amount - left) + Repeat(c, left));
    assert left == 0 ==> now + Repeat(c, left) == now;
  }

  /** Fills groups with one allocation; `before` are the coins of the allocations before it. */
  method SplitAllocation(a: Allocation, numSplits: nat, weight: nat,
                         groups0: seq<seq<Allocation>>, current0: seq<Allocation>, amount0: nat,
                         ghost before: seq<Coin>, ghost all: seq<UTXO>, ghost base: nat)
    returns (groups: seq<seq<Allocation>>, current: seq<Allocation>, amount: nat)
    requires Filling(groups0, current0, Emptied(a), amount0, numSplits, weight, before)
    requires |before| + |Unlocks(a.eth, a.avax, a.schedule)| <= MAX_UINT64
    requires base + |a.schedule| <= |all| && all[base..base + |a.schedule|] == Unlocked(a)
    requires Placed(all, groups0, current0, Emptied(a), base)
    ensures Filling(groups, current, Emptied(a), amount, numSplits, weight, before + Unlocks(a.eth, a.avax, a.schedule))
    ensures groups == groups0 || 0 < |before + Unlocks(a.eth, a.avax, a.schedule)|
    ensures Placed(all, groups, current, Emptied(a), base + |a.schedule|)
  {
    groups, current, amount := groups0, current0, amount0;
    var open := Emptied(a);
    Nothing(before, a);
    hide Filling, Unlocks, Placed;
    for j := 0 to |a.schedule|
      invariant Filling(groups, current, open, amount, numSplits, weight,
                        before + Unlocks(a.eth, a.avax, a.schedule[..j]))
      invariant open == Emptied(a).(schedule := open.schedule)
      invariant groups == groups0 || 0 < |before + Unlocks(a.eth, a.avax, a.schedule[..j])|
      invariant Placed(all, groups, current, open, base + j)
    {
      UnlocksStep(a, j);
      assert all[base + j] == all[base..base + |a.schedule|][j];
      ghost var taken := before + Unlocks(a.eth, a.avax, a.schedule[..j]);
      groups, current, open, amount :=
        SplitUnlock(a, a.schedule[j], numSplits, weight, groups, current, open, amount, taken, all, base + j);
      assert taken + Repeat(Coin(a.eth, a.avax, a.schedule[j].locktime), a.schedule[j].amount)
          == before + Unlocks(a.eth, a.avax, a.schedule[..j + 1]);
    }
    assert a.schedule[..|a.schedule|] == a.schedule;
    AllocationDone(groups, current, open, amount, numSplits, weight, before + Unlocks(a.eth, a.avax, a.schedule), a);
    PlaceNext(all, groups, current, open, base + |a.schedule|, a);
    if |open.schedule| > 0 {
      current := current + [open];
    }
  }

  lemma UnlocksStep(a: Allocation, j: nat)
    requires j < |a.schedule|
    ensures var u := a.schedule[j];
            && Unlocks(a.eth, a.avax, a.schedule[..j + 1]) ==
               Unlocks(a.eth, a.avax, a.schedule[..j]) + Repeat(Coin(a.eth, a.avax, u.locktime), u.amount)
            && |Unlocks(a.eth, a.avax, a.schedule[..j + 1])| <= |Unlocks(a.eth, a.avax, a.schedule)|
  {
    assert a.schedule[..j + 1] == a.schedule[..j] + [a.schedule[j]];
    UnlocksAppend(a.eth, a.avax, a.schedule[..j], a.schedule[j]);
    UnlocksGrow(a.eth, a.avax, a.schedule, j + 1);
  }

  /** The allocation that was filled joins its group, unless it got nothing. */
  lemma AllocationDone(groups: seq<seq<Allocation>>, current: seq<Allocation>, open: Allocation, amount: nat,
                       numSplits: nat, weight: nat, taken: seq<Coin>, a: Allocation)
    requires Filling(groups, current, open, amount, numSplits, weight, taken) && open.initialAmount == 0
    ensures var current' := if open.schedule == [] then current else current + [open];
            Filling(groups, current', Emptied(a), amount, numSplits, weight, taken)
  {
    hide Sofar, Filled;
    NextAllocation(groups, current, open, weight, taken, a);
  }

  lemma FilledBound(groups: seq<seq<Allocation>>, current: seq<Allocation>, open: Allocation, weight: nat,
                    taken: seq<Coin>)
    requires Sofar(groups, current, open, weight, taken)
    ensures Filled(current, open) <= |taken|
  {
  }

  /** What the groups of a split are, in terms of all coins: consecutive runs of the node weight, and the rest. */
  ghost predicate IsSplit(allocations: seq<Allocation>, numSplits: nat, groups: seq<seq<Allocation>>)
    requires 1 <= numSplits
  {
    var all := Coins(allocations);
    var weight := |all| / numSplits;
    && |groups| == (if |all| > 0 then numSplits else 1)
    && Runs(all, weight, groups)
    && (forall k :: 0 <= k < |groups| ==> NoInitial(groups[k]))
    && InPieces(allocations, groups)
  }

  /** No group holds two pieces of one unlock. */
  ghost predicate InPieces(allocations: seq<Allocation>, groups: seq<seq<Allocation>>) {
    forall k :: 0 <= k < |groups| ==>
                  Pieces(AllUnlocked(allocations), AllUnlocked(groups[k]), |AllUnlocked(allocations)|)
  }

  /** All groups but the last hold `weight` coins each, and the last one the rest, one after the other. */
  ghost predicate Runs(all: seq<Coin>, weight: nat, groups: seq<seq<Allocation>>) {
    && groups != []
    && (forall k :: 0 <= k < |groups| - 1 ==> Run(all, groups[k], k * weight, (k + 1) * weight))
    && Run(all, groups[|groups| - 1], (|groups| - 1) * weight, |all|)
  }

  /** The group holds exactly the coins from one place to another, in order. */
  ghost predicate Run(all: seq<Coin>, group: seq<Allocation>, from: int, to: int) {
    0 <= from <= to <= |all| && Coins(group) == all[from..to]
  }

  method SplitAllocations(allocations: seq<Allocation>, numSplits: nat) returns (r: seq<seq<Allocation>>)
    requires 1 <= numSplits && |Coins(allocations)| <= MAX_UINT64
    ensures IsSplit(allocations, numSplits, r)
  {
    hide Coins, AllCoins, Unlocks, Filling, IsSplit, Sofar, Filled, Placed, AllUnlocked;
    ghost var all := AllUnlocked(allocations);
    var total := TotalAmount(allocations);
    var weight := total / numSplits;
    var groups: seq<seq<Allocation>>, current: seq<Allocation>, amount: nat := [], [], 0;
    Begin(numSplits, weight);
    BeginPlaced(all);
    for i := 0 to |allocations|
      invariant Filling(groups, current, NOBODY, amount, numSplits, weight, Coins(allocations[..i]))
      invariant groups == [] || 0 < |Coins(allocations[..i])|
      invariant Placed(all, groups, current, NOBODY, Before(allocations, i))
    {
      var a := allocations[i];
      CoinsStep(allocations, i);
      UnlockedHere(allocations, i);
      PlaceNext(all, groups, current, NOBODY, Before(allocations, i), a);
      AllocationDone(groups, current, NOBODY, amount, numSplits, weight, Coins(allocations[..i]), a);
      groups, current, amount :=
        SplitAllocation(a, numSplits, weight, groups, current, amount, Coins(allocations[..i]), all,
                        Before(allocations, i));
      PlaceNext(all, groups, current, Emptied(a), Before(allocations, i + 1), NOBODY);
      AllocationDone(groups, current, Emptied(a), amount, numSplits, weight, Coins(allocations[..i + 1]), NOBODY);
    }
    assert allocations[..|allocations|] == allocations;
    UnlockedAt(allocations, |allocations|);
    AllPlaced(allocations, groups, current);
    Finish(allocations, numSplits, groups, current, amount, weight);
    return groups + [current];
  }

  lemma CoinsStep(allocations: seq<Allocation>, i: nat)
    requires i < |allocations|
    ensures var a := allocations[i];
            && Coins(allocations[..i + 1]) == Coins(allocations[..i]) + Unlocks(a.eth, a.avax, a.schedule)
            && |Coins(allocations[..i])| + |Unlocks(a.eth, a.avax, a.schedule)| <= |Coins(allocations)|
  {
    assert allocations[..i + 1] == allocations[..i] + [allocations[i]];
    CoinsAppend(allocations[..i], allocations[i]);
    CoinsGrow(allocations, i + 1);
  }

  const NOBODY: Allocation := Allocation(0, 0, 0, [])

  lemma Begin(numSplits: nat, weight: nat)
    requires 1 <= numSplits
    ensures Filling([], [], NOBODY, 0, numSplits, weight, Coins([]))
  {
  }

  lemma BeginPlaced(all: seq<UTXO>)
    ensures Placed(all, [], [], NOBODY, 0)
  {
    NoPieces(all, 0);
    assert AllUnlocked([]) + Unlocked(NOBODY) == [];
  }

  lemma AllPlaced(allocations: seq<Allocation>, groups: seq<seq<Allocation>>, current: seq<Allocation>)
    requires |AllUnlocked(allocations)| == Before(allocations, |allocations|)
    requires Placed(AllUnlocked(allocations), groups, current, NOBODY, Before(allocations, |allocations|))
    ensures InPieces(allocations, groups + [current])
  {
    hide Pieces, AllUnlocked;
    assert AllUnlocked(current) + Unlocked(NOBODY) == AllUnlocked(current);
  }

  lemma Nothing(coins: seq<Coin>, a: Allocation)
    ensures coins + Unlocks(a.eth, a.avax, a.schedule[..0]) == coins
  {
  }

  lemma Finish(allocations: seq<Allocation>, numSplits: nat, groups: seq<seq<Allocation>>, current: seq<Allocation>,
               amount: nat, weight: nat)
    requires 1 <= numSplits && weight == |Coins(allocations)| / numSplits
    requires Filling(groups, current, NOBODY, amount, numSplits, weight, Coins(allocations))
    requires groups == [] || 0 < |Coins(allocations)|
    requires InPieces(allocations, groups + [current])
    ensures IsSplit(allocations, numSplits, groups + [current])
  {
    hide Coins, AllCoins, NoInitial, InPieces;
    var all := Coins(allocations);
    NoUnlocks(0, 0);
    hide Unlocks;
    assert AllCoins(groups) + Coins(current) + [] == AllCoins(groups) + Coins(current);
    assert AllCoins(groups) + Coins(current) == all;
    GroupRuns(groups, weight);
    assert AllCoins(groups) == all[..|groups| * weight];
    if 0 < |all| { HowMany(|all|, numSplits, weight, |groups|, |Coins(current)|); }
    var r := groups + [current];
    assert forall k :: 0 <= k < |groups| ==> r[k] == groups[k];
    assert r[|groups|] == current;
    forall k | 0 <= k < |r| - 1 ensures Run(all, r[k], k * weight, (k + 1) * weight) {
      assert Run(AllCoins(groups), groups[k], k * weight, (k + 1) * weight);
      assert all[k * weight..(k + 1) * weight] == AllCoins(groups)[k * weight..(k + 1) * weight];
    }
    assert Run(all, current, |groups| * weight, |all|);
  }

  /** How many groups were closed, by arithmetic alone. */
  lemma HowMany(total: nat, numSplits: nat, weight: nat, closed: nat, rest: nat)
    requires 1 <= numSplits && weight == total / numSplits && closed < numSplits && 0 < total
    requires total == closed * weight + rest && (closed < numSplits - 1 ==> rest <= weight)
    ensures closed + 1 == numSplits
  {
    assert (numSplits - 1) * weight + weight == numSplits * weight <= total;
    if closed < numSplits - 1 {
      Monotone(closed + 1, numSplits - 1, weight);
    }
  }

  lemma Monotone(a: nat, b: nat, w: nat)
    requires a <= b
    ensures a * w <= b * w
  {
  }

  /** Groups of the same size lie one after the other. */
  lemma {:induction false} GroupRuns(groups: seq<seq<Allocation>>, weight: nat)
    requires forall k :: 0 <= k < |groups| ==> |Coins(groups[k])| == weight
    ensures |AllCoins(groups)| == |groups| * weight
    ensures forall k :: 0 <= k < |groups| ==> Run(AllCoins(groups), groups[k], k * weight, (k + 1) * weight)
  {
    hide Coins;
    if groups != [] {
      var n := |groups| - 1;
      GroupRuns(groups[..n], weight);
      var before := AllCoins(groups[..n]);
      assert n * weight + weight == (n + 1) * weight;
      forall k | 0 <= k < |groups| ensures Run(AllCoins(groups), groups[k], k * weight, (k + 1) * weight) {
        if k < n {
          assert Run(before, groups[..n][k], k * weight, (k + 1) * weight);
          assert AllCoins(groups)[k * weight..(k + 1) * weight] == before[k * weight..(k + 1) * weight];
        }
      }
    }
  }
}
