/** The genesis of the two chains built from a configuration, and that it holds exactly the initial supply. */
module GenesisSupply {
  import opened Results
  import opened Genesis
  import opened Parts

  /** When the network starts, how long the first staker stakes, and by how much less each further one; in seconds. */
  datatype Times = Times(start: uint64, duration: uint64, offset: uint64)

  datatype Config = Config(allocations: seq<Allocation>, stakedFunds: set<Address>, stakers: nat, times: Times)

  const MAX_INT64: nat := 0x7FFF_FFFF_FFFF_FFFF
  const NANOSECONDS: nat := 1_000_000_000

  type uint64 = n: nat | n <= MAX_UINT64

  datatype Holder = Holder(avax: Address, amount: nat)

  /** X-chain holders, P-chain outputs, and the stake of each initial staker with the time it ends. */
  datatype Data =
    Data(supply: nat, holders: seq<Holder>, utxos: seq<UTXO>, stakes: seq<seq<UTXO>>, ends: seq<uint64>)

  /** What is refused; `NoStakers` and `IndexOutOfRange` are panics. */
  datatype Error =
    | Overflow
    | NoStakers
    | IndexOutOfRange
    | NoValue
    | StakeOverflow
    | NoWeight
    | AlreadyExited

  // ---------- the supply ----------

  function Initial(allocations: seq<Allocation>): nat {
    if allocations == [] then 0
    else Initial(allocations[..|allocations| - 1]) + allocations[|allocations| - 1].initialAmount
  }

  ghost function Supply(allocations: seq<Allocation>): nat {
    Initial(allocations) + |Coins(allocations)|
  }

  lemma {:induction false} SupplyGrows(allocations: seq<Allocation>, i: nat)
    requires i <= |allocations|
    ensures Initial(allocations[..i]) <= Initial(allocations) && Supply(allocations[..i]) <= Supply(allocations)
  {
    if i < |allocations| {
      SupplyGrows(allocations[..|allocations| - 1], i);
      assert allocations[..|allocations| - 1][..i] == allocations[..i];
    } else {
      assert allocations[..i] == allocations;
    }
  }

  /** One allocation more. */
  lemma SupplyStep(allocations: seq<Allocation>, i: nat)
    requires i < |allocations|
    ensures var a := allocations[i];
            Supply(allocations[..i + 1]) ==
            Supply(allocations[..i]) + a.initialAmount + |Unlocks(a.eth, a.avax, a.schedule)|
    ensures Supply(allocations[..i + 1]) <= Supply(allocations)
    ensures Initial(allocations[..i + 1]) == Initial(allocations[..i]) + allocations[i].initialAmount
  {
    assert allocations[..i + 1][..i] == allocations[..i];
    CoinsStep(allocations, i);
    SupplyGrows(allocations, i + 1);
  }

  /** Addition that reports overflow. */
  function Add(a: nat, b: nat): (r: Result<nat, Error>)
    ensures r.Ok? <==> a + b <= MAX_UINT64
    ensures r.Ok? ==> r.value == a + b
  {
    if a + b > MAX_UINT64 then Err(Overflow) else Ok(a + b)
  }

  method InitialSupply(allocations: seq<Allocation>) returns (r: Result<nat, Error>)
    ensures r == if Supply(allocations) <= MAX_UINT64 then Ok(Supply(allocations)) else Err(Overflow)
  {
    hide Supply, Unlocks;
    var supply: nat := 0;
    assert Supply(allocations[..0]) == 0 by { NoSupply(allocations); }
    for i := 0 to |allocations|
      invariant supply == Supply(allocations[..i]) <= MAX_UINT64
    {
      var a := allocations[i];
      SupplyStep(allocations, i);
      var sum := Add(supply, a.initialAmount);
      if sum.Err? { return Err(Overflow); }
      NoUnlocks(a.eth, a.avax);
      for j := 0 to |a.schedule|
        invariant sum == Ok(supply + a.initialAmount + |Unlocks(a.eth, a.avax, a.schedule[..j])|) &&
                  sum.value <= MAX_UINT64
      {
        UnlocksStep(a, j);
        sum := Add(sum.value, a.schedule[j].amount);
        if sum.Err? { return Err(Overflow); }
      }
      assert a.schedule[..|a.schedule|] == a.schedule;
      supply := sum.value;
    }
    assert allocations[..|allocations|] == allocations;
    return Ok(supply);
  }

  lemma NoSupply(allocations: seq<Allocation>)
    ensures Supply(allocations[..0]) == 0
  {
  }

  // ---------- the outputs ----------

  ghost function OutputCoins(utxos: seq<UTXO>): seq<Coin> {
    if utxos == [] then [] else
      var u := utxos[|utxos| - 1];
      OutputCoins(utxos[..|utxos| - 1]) + Repeat(Coin(u.eth, u.avax, u.locktime), u.amount)
  }

  lemma OutputAppend(utxos: seq<UTXO>, u: UTXO)
    ensures OutputCoins(utxos + [u]) == OutputCoins(utxos) + Repeat(Coin(u.eth, u.avax, u.locktime), u.amount)
  {
    assert (utxos + [u])[..|utxos|] == utxos;
  }

  predicate AllPositive(utxos: seq<UTXO>) {
    forall i :: 0 <= i < |utxos| ==> utxos[i].amount > 0
  }

  const POSITIVE: UTXO -> bool := (u: UTXO) => u.amount > 0

  function Positive(utxos: seq<UTXO>): (r: seq<UTXO>)
    ensures AllPositive(r)
  {
    if utxos == [] then [] else
      var u := utxos[|utxos| - 1];
      Positive(utxos[..|utxos| - 1]) + if u.amount > 0 then [u] else []
  }

  lemma {:induction false} PositiveIs(utxos: seq<UTXO>)
    ensures PartOf(utxos, Positive(utxos), POSITIVE)
  {
    hide PartOf, AllPositive;
    if utxos == [] {
      NoPart(POSITIVE);
    } else {
      var n := |utxos| - 1;
      PositiveIs(utxos[..n]);
      PartStep(utxos[..n], Positive(utxos[..n]), POSITIVE, utxos[n]);
      assert utxos == utxos[..n] + [utxos[n]];
      assert Positive(utxos[..n]) + [] == Positive(utxos[..n]);
    }
  }

  lemma {:induction false} PositiveAppend(a: seq<UTXO>, b: seq<UTXO>)
    ensures Positive(a + b) == Positive(a) + Positive(b)
  {
    if b == [] {
      assert a + b == a && Positive(a) + [] == Positive(a);
    } else {
      var n := |b| - 1;
      hide AllPositive;
      PositiveAppend(a, b[..n]);
      assert (a + b)[..|a| + n] == a + b[..n] && (a + b)[|a| + n] == b[n];
      var last := if b[n].amount > 0 then [b[n]] else [];
      assert Positive(a + b) == Positive(a) + Positive(b[..n]) + last;
      assert Positive(b) == Positive(b[..n]) + last;
    }
  }

  /** The outputs of an allocation; outputs of nothing are left out unless `keepZero`. */
  method Outputs(a: Allocation, keepZero: bool, before: seq<UTXO>) returns (utxos: seq<UTXO>)
    ensures utxos == before + if keepZero then Unlocked(a) else Positive(Unlocked(a))
  {
    utxos := before;
    assert before + [] == before;
    for j := 0 to |a.schedule|
      invariant utxos == before + if keepZero then Unlocked(a)[..j] else Positive(Unlocked(a)[..j])
    {
      var u := a.schedule[j];
      assert Unlocked(a)[..j + 1][..j] == Unlocked(a)[..j];
      assert Unlocked(a)[..j + 1] == Unlocked(a)[..j] + [Unlocked(a)[j]];
      if u.amount > 0 || keepZero {
        utxos := utxos + [UTXO(a.eth, a.avax, u.locktime, u.amount)];
      }
    }
    assert Unlocked(a)[..|a.schedule|] == Unlocked(a);
  }

  method StakeOf(group: seq<Allocation>) returns (utxos: seq<UTXO>)
    ensures utxos == AllUnlocked(group)
    ensures OneEach(group, utxos) && OutputCoins(utxos) == Coins(group)
  {
    utxos := [];
    for i := 0 to |group|
      invariant utxos == AllUnlocked(group[..i])
    {
      assert group[..i + 1][..i] == group[..i];
      utxos := Outputs(group[i], true, utxos);
    }
    assert group[..|group|] == group;
    UnlockedOneEach(group);
    UnlockedCoins(group);
  }

  /** The coins of the outputs are those of the allocations, with or without outputs of nothing. */
  lemma {:induction false} UnlockedCoins(allocations: seq<Allocation>)
    ensures OutputCoins(AllUnlocked(allocations)) == Coins(allocations)
    ensures OutputCoins(Positive(AllUnlocked(allocations))) == Coins(allocations)
  {
    hide Unlocked, Unlocks;
    PositiveCoins(AllUnlocked(allocations));
    if allocations != [] {
      var n := |allocations| - 1;
      UnlockedCoins(allocations[..n]);
      OutputJoin(AllUnlocked(allocations[..n]), Unlocked(allocations[n]));
      ScheduleCoins(allocations[n], |allocations[n].schedule|);
      assert Unlocked(allocations[n])[..|allocations[n].schedule|] == Unlocked(allocations[n]);
      assert allocations[n].schedule[..|allocations[n].schedule|] == allocations[n].schedule;
    }
  }

  lemma {:induction false} ScheduleCoins(a: Allocation, j: nat)
    requires j <= |a.schedule|
    ensures OutputCoins(Unlocked(a)[..j]) == Unlocks(a.eth, a.avax, a.schedule[..j])
  {
    if j > 0 {
      ScheduleCoins(a, j - 1);
      assert Unlocked(a)[..j][..j - 1] == Unlocked(a)[..j - 1] && a.schedule[..j][..j - 1] == a.schedule[..j - 1];
    }
  }

  lemma {:induction false} OutputJoin(a: seq<UTXO>, b: seq<UTXO>)
    ensures OutputCoins(a + b) == OutputCoins(a) + OutputCoins(b)
  {
    if b == [] {
      assert a + b == a && OutputCoins(a) + [] == OutputCoins(a);
    } else {
      var n := |b| - 1;
      hide Repeat;
      OutputJoin(a, b[..n]);
      assert (a + b)[..|a| + n] == a + b[..n] && (a + b)[|a| + n] == b[n];
      var last := Repeat(Coin(b[n].eth, b[n].avax, b[n].locktime), b[n].amount);
      assert OutputCoins(a + b) == OutputCoins(a) + OutputCoins(b[..n]) + last;
      assert OutputCoins(b) == OutputCoins(b[..n]) + last;
    }
  }

  lemma {:induction false} PositiveCoins(utxos: seq<UTXO>)
    ensures OutputCoins(Positive(utxos)) == OutputCoins(utxos)
  {
    if utxos != [] {
      var n := |utxos| - 1;
      PositiveCoins(utxos[..n]);
      OutputAppend(Positive(utxos[..n]), utxos[n]);
      assert Positive(utxos[..n]) + [] == Positive(utxos[..n]);
      assert OutputCoins(utxos[..n]) + [] == OutputCoins(utxos[..n]);
    }
  }

  // ---------- staked and unstaked ----------

  function Select(allocations: seq<Allocation>, funds: set<Address>, staked: bool): seq<Allocation> {
    if allocations == [] then [] else
      var a := allocations[|allocations| - 1];
      Select(allocations[..|allocations| - 1], funds, staked) + if (a.avax in funds) == staked then [a] else []
  }

  lemma SelectStep(allocations: seq<Allocation>, funds: set<Address>, staked: bool, i: nat)
    requires i < |allocations|
    ensures Select(allocations[..i + 1], funds, staked) ==
            Select(allocations[..i], funds, staked) +
            if (allocations[i].avax in funds) == staked then [allocations[i]] else []
  {
    assert allocations[..i + 1][..i] == allocations[..i];
  }

  /** Every coin is either staked or not. */
  lemma {:induction false} SelectSplits(allocations: seq<Allocation>, funds: set<Address>)
    ensures |Coins(Select(allocations, funds, true))| + |Coins(Select(allocations, funds, false))| ==
            |Coins(allocations)|
  {
    if allocations != [] {
      var n := |allocations| - 1;
      var a := allocations[n];
      SelectSplits(allocations[..n], funds);
      CoinsAppend(Select(allocations[..n], funds, true), a);
      CoinsAppend(Select(allocations[..n], funds, false), a);
      assert Select(allocations[..n], funds, true) + [] == Select(allocations[..n], funds, true);
      assert Select(allocations[..n], funds, false) + [] == Select(allocations[..n], funds, false);
    }
  }

  /** The selection is the part of the allocations to addresses with, or without, staked funds. */
  lemma {:induction false} SelectIs(allocations: seq<Allocation>, funds: set<Address>, staked: bool)
    ensures PartOf(allocations, Select(allocations, funds, staked), (a: Allocation) => (a.avax in funds) == staked)
  {
    hide PartOf;
    var keep := (a: Allocation) => (a.avax in funds) == staked;
    if allocations == [] {
      NoPart(keep);
    } else {
      var n := |allocations| - 1;
      SelectIs(allocations[..n], funds, staked);
      PartStep(allocations[..n], Select(allocations[..n], funds, staked), keep, allocations[n]);
      assert allocations == allocations[..n] + [allocations[n]];
      assert Select(allocations[..n], funds, staked) + [] == Select(allocations[..n], funds, staked);
    }
  }

  /** The unstaked outputs, and the staked allocations in order. */
  method Platform(c: Config) returns (utxos: seq<UTXO>, skipped: seq<Allocation>)
    ensures utxos == Positive(AllUnlocked(Select(c.allocations, c.stakedFunds, false)))
    ensures OutputCoins(utxos) == Coins(Select(c.allocations, c.stakedFunds, false)) && AllPositive(utxos)
    ensures skipped == Select(c.allocations, c.stakedFunds, true)
  {
    hide Coins, Positive, AllUnlocked, Unlocked;
    utxos, skipped := [], [];
    assert Positive(AllUnlocked([])) == [] by { NothingPositive(); }
    for i := 0 to |c.allocations|
      invariant utxos == Positive(AllUnlocked(Select(c.allocations[..i], c.stakedFunds, false)))
      invariant skipped == Select(c.allocations[..i], c.stakedFunds, true)
    {
      var a := c.allocations[i];
      SelectStep(c.allocations, c.stakedFunds, true, i);
      SelectStep(c.allocations, c.stakedFunds, false, i);
      ghost var unstaked := Select(c.allocations[..i], c.stakedFunds, false);
      UnlockedAppend(unstaked, a);
      PositiveAppend(AllUnlocked(unstaked), Unlocked(a));
      assert unstaked + [] == unstaked;
      if a.avax in c.stakedFunds {
        skipped := skipped + [a];
      } else {
        utxos := Outputs(a, false, utxos);
      }
    }
    assert c.allocations[..|c.allocations|] == c.allocations;
    UnlockedCoins(Select(c.allocations, c.stakedFunds, false));
  }

  lemma NothingPositive()
    ensures Positive(AllUnlocked([])) == []
  {
  }

  function Held(holders: seq<Holder>): nat {
    if holders == [] then 0 else Held(holders[..|holders| - 1]) + holders[|holders| - 1].amount
  }

  /** The order of the holders: by amount, then by address. */
  predicate Below(a: Holder, b: Holder) {
    a.amount < b.amount || (a.amount == b.amount && a.avax <= b.avax)
  }

  predicate Ordered(holders: seq<Holder>) {
    forall i :: 0 < i < |holders| ==> Below(holders[i - 1], holders[i])
  }

  function Insert(holders: seq<Holder>, h: Holder): seq<Holder> {
    if holders == [] || Below(holders[|holders| - 1], h) then holders + [h]
    else Insert(holders[..|holders| - 1], h) + [holders[|holders| - 1]]
  }

  /** How often a holder is in the list. */
  function Count(holders: seq<Holder>, x: Holder): nat {
    if holders == [] then 0
    else Count(holders[..|holders| - 1], x) + if holders[|holders| - 1] == x then 1 else 0
  }

  lemma OneMore(holders: seq<Holder>, h: Holder, x: Holder)
    ensures Held(holders + [h]) == Held(holders) + h.amount
    ensures Count(holders + [h], x) == Count(holders, x) + if h == x then 1 else 0
  {
    assert (holders + [h])[..|holders|] == holders;
  }

  lemma {:induction false} InsertAdds(holders: seq<Holder>, h: Holder, x: Holder)
    ensures Held(Insert(holders, h)) == Held(holders) + h.amount
    ensures Count(Insert(holders, h), x) == Count(holders, x) + if h == x then 1 else 0
  {
    if holders == [] || Below(holders[|holders| - 1], h) {
      OneMore(holders, h, x);
    } else {
      var n := |holders| - 1;
      InsertAdds(holders[..n], h, x);
      OneMore(Insert(holders[..n], h), holders[n], x);
    }
  }

  lemma {:induction false} InsertOrdered(holders: seq<Holder>, h: Holder)
    requires Ordered(holders)
    ensures Ordered(Insert(holders, h)) && |Insert(holders, h)| == |holders| + 1
    ensures Insert(holders, h)[|holders|] == h ||
            (holders != [] && Insert(holders, h)[|holders|] == holders[|holders| - 1])
  {
    if holders != [] && !Below(holders[|holders| - 1], h) {
      InsertOrdered(holders[..|holders| - 1], h);
    }
  }

  /** How often the configuration makes this holder, by an initial amount that is not zero. */
  function Grants(allocations: seq<Allocation>, x: Holder): nat {
    if allocations == [] then 0 else
      var a := allocations[|allocations| - 1];
      Grants(allocations[..|allocations| - 1], x) +
      if a.initialAmount > 0 && Holder(a.avax, a.initialAmount) == x then 1 else 0
  }

  /** Both counts count places: where the holder is in the list, and which allocations make it. */
  lemma {:induction false} CountIs(holders: seq<Holder>, x: Holder)
    ensures Count(holders, x) == |PlacesOf(holders, (h: Holder) => h == x)|
  {
    hide PlacesOf;
    var keep := (h: Holder) => h == x;
    if holders == [] {
      NoPlaces(keep);
    } else {
      CountIs(holders[..|holders| - 1], x);
      OneMorePlace(holders, keep);
    }
  }

  lemma {:induction false} GrantsIs(allocations: seq<Allocation>, x: Holder)
    ensures Grants(allocations, x) ==
            |PlacesOf(allocations, (a: Allocation) => 0 < a.initialAmount == x.amount && a.avax == x.avax)|
  {
    hide PlacesOf;
    var keep := (a: Allocation) => 0 < a.initialAmount == x.amount && a.avax == x.avax;
    if allocations == [] {
      NoPlaces(keep);
    } else {
      GrantsIs(allocations[..|allocations| - 1], x);
      OneMorePlace(allocations, keep);
    }
  }

  ghost predicate HoldersOf(holders: seq<Holder>, allocations: seq<Allocation>) {
    Ordered(holders) && forall x :: Count(holders, x) == Grants(allocations, x)
  }

  /** The X-chain holders in order; who holds nothing is left out. */
  method Exchange(allocations: seq<Allocation>) returns (holders: seq<Holder>)
    ensures HoldersOf(holders, allocations)
    ensures Held(holders) == Initial(allocations)
  {
    holders := [];
    for i := 0 to |allocations|
      invariant HoldersOf(holders, allocations[..i])
      invariant Held(holders) == Initial(allocations[..i])
    {
      var a := allocations[i];
      assert allocations[..i + 1][..i] == allocations[..i];
      if a.initialAmount > 0 {
        var h := Holder(a.avax, a.initialAmount);
        InsertOrdered(holders, h);
        forall x { InsertAdds(holders, h, x); }
        assert Held(Insert(holders, h)) == Held(holders) + h.amount by { InsertAdds(holders, h, h); }
        holders := Insert(holders, h);
      }
    }
    assert allocations[..|allocations|] == allocations;
  }

  lemma {:induction false} Counted(holders: seq<Holder>, x: Holder)
    ensures Count(holders, x) > 0 <==> x in holders
  {
    if holders != [] {
      var n := |holders| - 1;
      Counted(holders[..n], x);
      assert holders == holders[..n] + [holders[n]];
    }
  }

  lemma {:induction false} LastIsTop(holders: seq<Holder>, i: nat)
    requires Ordered(holders) && i < |holders|
    ensures Below(holders[i], holders[|holders| - 1])
  {
    if i < |holders| - 1 {
      LastIsTop(holders[..|holders| - 1], i);
    }
  }

  lemma SameLast(a: seq<Holder>, b: seq<Holder>)
    requires Ordered(a) && Ordered(b) && a != [] && b != []
    requires a[|a| - 1] in b && b[|b| - 1] in a
    ensures a[|a| - 1] == b[|b| - 1]
  {
    var i :| 0 <= i < |b| && b[i] == a[|a| - 1];
    LastIsTop(b, i);
    var j :| 0 <= j < |a| && a[j] == b[|b| - 1];
    LastIsTop(a, j);
  }

  /** The configuration leaves only one list of holders. */
  lemma {:induction false} OneList(a: seq<Holder>, b: seq<Holder>)
    requires Ordered(a) && Ordered(b) && forall x :: Count(a, x) == Count(b, x)
    ensures a == b
  {
    if a != [] { Counted(a, a[|a| - 1]); Counted(b, a[|a| - 1]); }
    if b != [] { Counted(a, b[|b| - 1]); Counted(b, b[|b| - 1]); }
    if a != [] && b != [] {
      SameLast(a, b);
      var n, m := |a| - 1, |b| - 1;
      forall x ensures Count(a[..n], x) == Count(b[..m], x) {
        assert Count(a, x) == Count(b, x);
      }
      OneList(a[..n], b[..m]);
      assert a == a[..n] + [a[n]] && b == b[..m] + [b[m]];
    }
  }

  // ---------- the whole ----------

  ghost function Staked(stakes: seq<seq<UTXO>>): nat {
    if stakes == [] then 0 else Staked(stakes[..|stakes| - 1]) + |OutputCoins(stakes[|stakes| - 1])|
  }

  /** The stakes are the groups of the split: one output for each unlock in the group. */
  ghost predicate StakesOf(stakes: seq<seq<UTXO>>, groups: seq<seq<Allocation>>) {
    && |stakes| <= |groups|
    && (forall k :: 0 <= k < |stakes| ==> OutputCoins(stakes[k]) == Coins(groups[k]))
    && (forall k :: 0 <= k < |stakes| ==> OneEach(groups[k], stakes[k]))
  }

  lemma {:induction false} StakedPrefix(stakes: seq<seq<UTXO>>, groups: seq<seq<Allocation>>, weight: nat, n: nat)
    requires StakesOf(stakes, groups) && n <= |stakes|
    requires forall k :: 0 <= k < n ==> |Coins(groups[k])| == weight
    ensures Staked(stakes[..n]) == n * weight
  {
    hide Coins, OutputCoins;
    if n > 0 {
      StakedPrefix(stakes, groups, weight, n - 1);
      assert stakes[..n][..n - 1] == stakes[..n - 1];
      assert (n - 1) * weight + weight == n * weight;
    }
  }

  lemma RunLength(all: seq<Coin>, group: seq<Allocation>, k: nat, weight: nat)
    requires Run(all, group, k * weight, (k + 1) * weight)
    ensures |Coins(group)| == weight
  {
    assert (k + 1) * weight == k * weight + weight;
  }

  lemma RunsTotal(all: seq<Coin>, weight: nat, groups: seq<seq<Allocation>>, stakes: seq<seq<UTXO>>)
    requires Runs(all, weight, groups) && StakesOf(stakes, groups) && |stakes| == |groups|
    ensures Staked(stakes) == |all|
  {
    hide Coins, OutputCoins;
    var n := |groups| - 1;
    forall k | 0 <= k < n ensures |Coins(groups[k])| == weight {
      RunLength(all, groups[k], k, weight);
    }
    StakedPrefix(stakes, groups, weight, n);
  }

  lemma StakedAll(allocations: seq<Allocation>, numSplits: nat, groups: seq<seq<Allocation>>, stakes: seq<seq<UTXO>>)
    requires 1 <= numSplits && IsSplit(allocations, numSplits, groups) && StakesOf(stakes, groups) &&
             |stakes| == |groups|
    ensures Staked(stakes) == |Coins(allocations)|
  {
    hide Coins, OutputCoins, Staked, StakesOf, Runs;
    RunsTotal(Coins(allocations), |Coins(allocations)| / numSplits, groups, stakes);
  }

  // ---------- staking times ----------

  /** An integer as a signed 64-bit number. */
  function Wrap64(n: int): int {
    (n + 0x8000_0000_0000_0000) % (MAX_UINT64 + 1) - 0x8000_0000_0000_0000
  }

  lemma WrapShift(n: int, q: int)
    ensures Wrap64(n + q * (MAX_UINT64 + 1)) == Wrap64(n)
  {
  }

  lemma WrapIs(n: int) returns (q: int)
    ensures Wrap64(n) == n + q * (MAX_UINT64 + 1)
  {
    q := -((n + 0x8000_0000_0000_0000) / (MAX_UINT64 + 1));
  }

  lemma WrapAdd(a: int, b: int)
    ensures Wrap64(Wrap64(a) + Wrap64(b)) == Wrap64(a + b) && Wrap64(-Wrap64(a)) == Wrap64(-a)
  {
    hide Wrap64;
    var p := WrapIs(a);
    var q := WrapIs(b);
    WrapShift(a + b, p + q);
    WrapShift(-a, -p);
  }

  /** The end of staking of the staker with this index; durations are nanoseconds in 64 bits. */
  function End(t: Times, k: nat): uint64 {
    var length := Wrap64(t.duration * NANOSECONDS) + Wrap64(-(k * t.offset * NANOSECONDS));
    (t.start + length / NANOSECONDS) % (MAX_UINT64 + 1)
  }

  /** In the range of the clock the stakers end one offset after the other, before the first. */
  lemma EndIs(t: Times, k: nat)
    requires t.duration * NANOSECONDS <= MAX_INT64 && k * t.offset <= t.duration && t.start + t.duration <= MAX_UINT64
    ensures End(t, k) == t.start + t.duration - k * t.offset
  {
    hide Wrap64;
    var d, o := t.duration, k * t.offset;
    Small(d * NANOSECONDS);
    Small(-(o * NANOSECONDS));
    WholeSeconds(d - o);
    assert d * NANOSECONDS + -(o * NANOSECONDS) == (d - o) * NANOSECONDS;
  }

  lemma WholeSeconds(n: nat)
    ensures n * NANOSECONDS / NANOSECONDS == n
  {
  }

  lemma Small(n: int)
    requires 0 <= n + MAX_INT64 && n <= MAX_INT64
    ensures Wrap64(n) == n
  {
  }

  method Ends(t: Times, n: nat) returns (ends: seq<uint64>)
    ensures |ends| == n && forall k :: 0 <= k < n ==> ends[k] == End(t, k)
  {
    ends := [];
    var first, stakingOffset := Wrap64(t.duration * NANOSECONDS), 0;
    for k := 0 to n
      invariant |ends| == k && forall j :: 0 <= j < k ==> ends[j] == End(t, j)
      invariant stakingOffset == Wrap64(k * t.offset * NANOSECONDS)
    {
      WrapAdd(k * t.offset * NANOSECONDS, t.offset * NANOSECONDS);
      assert k * t.offset * NANOSECONDS + t.offset * NANOSECONDS == (k + 1) * t.offset * NANOSECONDS;
      ends := ends + [(t.start + (first + Wrap64(-stakingOffset)) / NANOSECONDS) % (MAX_UINT64 + 1)];
      stakingOffset := Wrap64(stakingOffset + Wrap64(t.offset * NANOSECONDS));
    }
  }

  // ---------- what the platform chain accepts ----------

  /** Why a validator is refused, if it is. */
  ghost function StakeError(stake: seq<UTXO>, start: uint64, end: uint64): Option<Error> {
    if |OutputCoins(stake)| > MAX_UINT64 then Some(StakeOverflow)
    else if OutputCoins(stake) == [] then Some(NoWeight)
    else if end <= start then Some(AlreadyExited)
    else None
  }

  lemma NoStakeError(stake: seq<UTXO>, start: uint64, end: uint64)
    requires StakeError(stake, start, end).None?
    ensures OutputCoins(stake) != [] && start < end
  {
  }

  /** The weight of a validator, unless it overflows. */
  method Weight(stake: seq<UTXO>) returns (r: Result<nat, Error>)
    ensures r == if |OutputCoins(stake)| > MAX_UINT64 then Err(StakeOverflow) else Ok(|OutputCoins(stake)|)
  {
    var weight := 0;
    for i := 0 to |stake|
      invariant weight == |OutputCoins(stake[..i])| <= MAX_UINT64
    {
      assert stake[..i + 1] == stake[..i] + [stake[i]];
      OutputAppend(stake[..i], stake[i]);
      OutputsGrow(stake, i + 1);
      var sum := Add(weight, stake[i].amount);
      if sum.Err? { return Err(StakeOverflow); }
      weight := sum.value;
    }
    assert stake[..|stake|] == stake;
    return Ok(weight);
  }

  lemma {:induction false} OutputsGrow(utxos: seq<UTXO>, i: nat)
    requires i <= |utxos|
    ensures |OutputCoins(utxos[..i])| <= |OutputCoins(utxos)|
  {
    if i < |utxos| {
      OutputsGrow(utxos[..|utxos| - 1], i);
      assert utxos[..|utxos| - 1][..i] == utxos[..i];
    } else {
      assert utxos[..i] == utxos;
    }
  }

  /** `BuildGenesis` of the platform chain: the first output or validator there is something wrong with. */
  method BuildPlatform(utxos: seq<UTXO>, stakes: seq<seq<UTXO>>, start: uint64, ends: seq<uint64>)
    returns (err: Option<Error>)
    requires |stakes| == |ends|
    ensures !AllPositive(utxos) ==> err == Some(NoValue)
    ensures AllPositive(utxos) && err.None? ==>
              forall k :: 0 <= k < |stakes| ==> StakeError(stakes[k], start, ends[k]).None?
    ensures AllPositive(utxos) && err.Some? ==>
              exists k :: 0 <= k < |stakes| && StakeError(stakes[k], start, ends[k]) == err
                          && forall j :: 0 <= j < k ==> StakeError(stakes[j], start, ends[j]).None?
  {
    hide OutputCoins;
    for i := 0 to |utxos|
      invariant forall j :: 0 <= j < i ==> utxos[j].amount > 0
    {
      if utxos[i].amount == 0 { return Some(NoValue); }
    }
    for k := 0 to |stakes|
      invariant forall j :: 0 <= j < k ==> StakeError(stakes[j], start, ends[j]).None?
    {
      var weight := Weight(stakes[k]);
      if weight.Err? { return Some(weight.error); }
      if weight.value == 0 { return Some(NoWeight); }
      if ends[k] <= start { return Some(AlreadyExited); }
    }
    return None;
  }

  // ---------- the whole ----------

  /** How much is staked. */
  ghost function StakedCoins(c: Config): nat {
    |Coins(Select(c.allocations, c.stakedFunds, true))|
  }

  ghost predicate SomeExited(c: Config) {
    exists k :: 0 <= k < c.stakers && End(c.times, k) <= c.times.start
  }

  /** Why there is no genesis for a configuration, if there is none. */
  ghost function Failure(c: Config): Option<Error> {
    if Supply(c.allocations) > MAX_UINT64 then Some(Overflow)
    else if c.stakers == 0 then Some(NoStakers)
    else if StakedCoins(c) == 0 && c.stakers > 1 then Some(IndexOutOfRange)
    else if StakedCoins(c) < c.stakers then Some(NoWeight)
    else if SomeExited(c) then Some(AlreadyExited)
    else None
  }

  /** Every group of a split has coins iff there is at least one for each; otherwise the first group has none. */
  lemma SplitWeights(allocations: seq<Allocation>, numSplits: nat, groups: seq<seq<Allocation>>, k: nat)
    requires 1 <= numSplits && IsSplit(allocations, numSplits, groups) && k < |groups|
    ensures |Coins(groups[k])| <= |Coins(allocations)|
    ensures numSplits <= |Coins(allocations)| ==> 0 < |Coins(groups[k])|
    ensures |Coins(allocations)| < numSplits ==> Coins(groups[0]) == []
  {
    hide Coins, NoInitial, InPieces;
    var total := |Coins(allocations)|;
    var weight := total / numSplits;
    var n := |groups| - 1;
    Shares(total, numSplits, weight);
    if k < n {
      assert Run(Coins(allocations), groups[k], k * weight, (k + 1) * weight);
      RunLength(Coins(allocations), groups[k], k, weight);
    }
    if total < numSplits && 0 < n { assert Run(Coins(allocations), groups[0], 0 * weight, (0 + 1) * weight); }
  }

  /** All but the last get an equal share, and something is left for the last iff the share is not nothing. */
  lemma Shares(total: nat, numSplits: nat, weight: nat)
    requires 1 <= numSplits && weight == total / numSplits
    ensures numSplits <= total ==> 1 <= weight && (numSplits - 1) * weight < total
    ensures total < numSplits ==> weight == 0
  {
    assert numSplits * weight <= total;
    assert (numSplits - 1) * weight + weight == numSplits * weight;
  }

  /** The platform chain finds the same wrong with the stakes as `Failure` with the configuration. */
  lemma PlatformFailure(c: Config, groups: seq<seq<Allocation>>, stakes: seq<seq<UTXO>>, ends: seq<uint64>, k: nat)
    requires Supply(c.allocations) <= MAX_UINT64 && 1 <= c.stakers && |stakes| == |ends| == |groups| == c.stakers
    requires IsSplit(Select(c.allocations, c.stakedFunds, true), c.stakers, groups) && StakesOf(stakes, groups)
    requires (forall j :: 0 <= j < c.stakers ==> ends[j] == End(c.times, j)) && k < c.stakers
    ensures StakedCoins(c) < c.stakers ==> StakeError(stakes[0], c.times.start, ends[0]) == Some(NoWeight)
    ensures c.stakers <= StakedCoins(c) ==>
              StakeError(stakes[k], c.times.start, ends[k]) ==
              if End(c.times, k) <= c.times.start then Some(AlreadyExited) else None
  {
    hide Coins, OutputCoins, IsSplit, Select, End;
    SelectSplits(c.allocations, c.stakedFunds);
    SplitWeights(Select(c.allocations, c.stakedFunds, true), c.stakers, groups, k);
    assert OutputCoins(stakes[0]) == Coins(groups[0]) && OutputCoins(stakes[k]) == Coins(groups[k]);
  }

  /** A stake for each staker, if there are enough groups. */
  method Stakes(groups: seq<seq<Allocation>>, n: nat) returns (r: Result<seq<seq<UTXO>>, Error>)
    ensures if n <= |groups| then r.Ok? && |r.value| == n && StakesOf(r.value, groups) else r == Err(IndexOutOfRange)
  {
    hide Coins, OutputCoins;
    var stakes: seq<seq<UTXO>> := [];
    for i := 0 to n
      invariant |stakes| == i <= |groups| && StakesOf(stakes, groups)
    {
      if i >= |groups| { return Err(IndexOutOfRange); }
      var stake := StakeOf(groups[i]);
      stakes := stakes + [stake];
    }
    return Ok(stakes);
  }

  /** What a genesis is to a configuration: nothing is lost, and everything is where it belongs. */
  ghost predicate IsGenesis(c: Config, d: Data)
    requires 1 <= c.stakers
  {
    var staked := Select(c.allocations, c.stakedFunds, true);
    && d.supply == Supply(c.allocations)
    && d.supply == Held(d.holders) + |OutputCoins(d.utxos)| + Staked(d.stakes)
    && HoldersOf(d.holders, c.allocations)
    && UnstakedOutputs(Select(c.allocations, c.stakedFunds, false), d.utxos)
    && |d.stakes| == |d.ends| == c.stakers
    && (forall k :: 0 <= k < c.stakers ==> OutputCoins(d.stakes[k]) != [])
    && (forall k :: 0 <= k < c.stakers ==> c.times.start < d.ends[k] == End(c.times, k))
    && exists groups :: IsSplit(staked, c.stakers, groups) && StakesOf(d.stakes, groups)
  }

  /** One output for each unlock of a positive amount, in order. */
  ghost predicate UnstakedOutputs(unstaked: seq<Allocation>, utxos: seq<UTXO>) {
    && OutputCoins(utxos) == Coins(unstaked)
    && exists all :: OneEach(unstaked, all) && PartOf(all, utxos, POSITIVE)
  }

  lemma OutputsOfUnstaked(unstaked: seq<Allocation>)
    ensures UnstakedOutputs(unstaked, Positive(AllUnlocked(unstaked)))
  {
    UnlockedOneEach(unstaked);
    PositiveIs(AllUnlocked(unstaked));
    UnlockedCoins(unstaked);
  }

  /**
   Builds the genesis. The stakers are given the groups of the split of the staked allocations, by index, and the
   platform chain refuses one without weight or one that ends at once. Nothing is lost.
   */
  method FromConfig(c: Config) returns (r: Result<Data, Error>)
    ensures match r case Ok(d) => Failure(c).None? && IsGenesis(c, d) case Err(e) => Failure(c) == Some(e)
  {
    hide Coins, OutputCoins, Select, HoldersOf, IsSplit, StakeError, Held, Initial, Staked, AllPositive,
         UnstakedOutputs;
    var holders := Exchange(c.allocations);
    var supply := InitialSupply(c.allocations);
    if supply.Err? { return Err(Overflow); }
    var utxos, skipped := Platform(c);
    OutputsOfUnstaked(Select(c.allocations, c.stakedFunds, false));
    SelectSplits(c.allocations, c.stakedFunds);
    if c.stakers == 0 { return Err(NoStakers); }
    var groups := SplitAllocations(skipped, c.stakers);
    HowManyGroups(skipped, c.stakers, groups);
    var stakes := Stakes(groups, c.stakers);
    if stakes.Err? { return Err(IndexOutOfRange); }
    var ends := Ends(c.times, c.stakers);
    forall k: nat | k < c.stakers { PlatformFailure(c, groups, stakes.value, ends, k); }
    StakedAll(skipped, c.stakers, groups, stakes.value);
    var err := BuildPlatform(utxos, stakes.value, c.times.start, ends);
    if err.Some? { return Err(err.value); }
    assert StakeError(stakes.value[0], c.times.start, ends[0]).None? && !SomeExited(c);
    assert IsSplit(skipped, c.stakers, groups) && StakesOf(stakes.value, groups);
    forall k | 0 <= k < c.stakers
      ensures OutputCoins(stakes.value[k]) != [] && c.times.start < ends[k]
    {
      NoStakeError(stakes.value[k], c.times.start, ends[k]);
    }
    return Ok(Data(supply.value, holders, utxos, stakes.value, ends));
  }

  lemma HowManyGroups(allocations: seq<Allocation>, numSplits: nat, groups: seq<seq<Allocation>>)
    requires 1 <= numSplits && IsSplit(allocations, numSplits, groups)
    ensures |groups| == if Coins(allocations) == [] then 1 else numSplits
  {
  }

  // ---------- configurations that are valid and have no genesis ----------

  predicate IsAllocated(allocations: seq<Allocation>, a: Address) {
    exists i :: 0 <= i < |allocations| && allocations[i].avax == a
  }

  /** `validateConfig`, for a start that is not in the future; the product is one of 64 bits. */
  ghost predicate Validated(c: Config, maxDuration: nat) {
    && 0 < Supply(c.allocations) <= MAX_UINT64
    && 0 < c.times.duration <= maxDuration
    && 0 < c.stakers && c.times.offset * (c.stakers - 1) % (MAX_UINT64 + 1) <= c.times.duration
    && c.stakedFunds != {} && forall a :: a in c.stakedFunds ==> IsAllocated(c.allocations, a)
  }

  /** With durations the clock can hold, none ends at once iff the offsets do not use up the whole duration. */
  lemma ExitedIff(c: Config)
    requires 0 < c.stakers && c.times.duration * NANOSECONDS <= MAX_INT64
    requires c.times.start + c.times.duration <= MAX_UINT64 && c.times.offset * (c.stakers - 1) <= c.times.duration
    ensures SomeExited(c) <==> c.times.offset * (c.stakers - 1) == c.times.duration
  {
    hide End;
    var t, last := c.times, c.stakers - 1;
    assert last * t.offset == t.offset * (c.stakers - 1);
    forall k: nat | k < c.stakers
      ensures End(t, k) == t.start + t.duration - k * t.offset && k * t.offset <= last * t.offset
    {
      Monotone(k, last, t.offset);
      EndIs(t, k);
    }
    assert End(t, last) == t.start + t.duration - last * t.offset;
  }

  /** One allocation, to an address all of whose funds are staked; staking takes 10 seconds. */
  function Funded(amount: nat, stakers: nat, offset: uint64): Config {
    Config([Allocation(1, 2, 1, [LockedAmount(amount, 0)])], {2}, stakers, Times(0, 10, offset))
  }

  lemma FundedIs(amount: nat, stakers: nat, offset: uint64)
    ensures var c := Funded(amount, stakers, offset);
            Supply(c.allocations) == 1 + amount && StakedCoins(c) == amount && IsAllocated(c.allocations, 2)
  {
    var a := Allocation(1, 2, 1, [LockedAmount(amount, 0)]);
    assert [a][..0] == [] && a.schedule[..0] == [];
    assert Unlocks(1, 2, a.schedule) == Unlocks(1, 2, []) + Repeat(Coin(1, 2, 0), amount);
    assert Coins([a]) == Coins([]) + Unlocks(1, 2, a.schedule) && Initial([a]) == Initial([]) + 1;
    assert Select([a], {2}, true) == Select([], {2}, true) + [a] == [a];
    assert Funded(amount, stakers, offset).allocations[0].avax == 2;
  }

  /**
   Valid configurations without a genesis: nothing is staked by two stakers, nothing by one, one coin by two, and the
   last of two stakers has nothing left of the duration.
   */
  lemma ValidAndRefused()
    ensures Validated(Funded(0, 2, 1), 10) && Failure(Funded(0, 2, 1)) == Some(IndexOutOfRange)
    ensures Validated(Funded(0, 1, 1), 10) && Failure(Funded(0, 1, 1)) == Some(NoWeight)
    ensures Validated(Funded(1, 2, 1), 10) && Failure(Funded(1, 2, 1)) == Some(NoWeight)
    ensures Validated(Funded(2, 2, 10), 10) && Failure(Funded(2, 2, 10)) == Some(AlreadyExited)
    ensures Validated(Funded(2, 2, 9), 10) && Failure(Funded(2, 2, 9)).None?
  {
    hide Supply, StakedCoins, SomeExited, IsAllocated;
    FundedIs(0, 2, 1);
    FundedIs(0, 1, 1);
    FundedIs(1, 2, 1);
    FundedIs(2, 2, 10);
    FundedIs(2, 2, 9);
    ExitedIff(Funded(2, 2, 10));
    ExitedIff(Funded(2, 2, 9));
  }
}
