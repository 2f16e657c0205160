/** Health checks: the gauges kept step by step against a recount from the results. */
module Health {
  import opened Results

  /** Check names and tags, by number. */
  type Name = nat
  type Tag = nat

  const ALL: Tag := 0
  const APPLICATION: Tag := 1

  datatype Error = RestrictedTag | DuplicateCheck

  datatype Check = Check(isApplication: bool, tags: seq<Tag>)

  datatype CheckResult = CheckResult(failing: bool, contiguousFailures: nat)

  const NOT_YET_RUN: CheckResult := CheckResult(true, 0)

  datatype State = State(
    checks: map<Name, Check>,
    results: map<Name, CheckResult>,
    tags: map<Tag, set<Name>>,
    gauges: map<Tag, int>,
    numFailingApplication: int)

  function Gauge(g: map<Tag, int>, t: Tag): int {
    if t in g then g[t] else 0
  }

  function Names(tags: map<Tag, set<Name>>, t: Tag): set<Name> {
    if t in tags then tags[t] else {}
  }

  // ---------- transitions ----------

  function AddName(tags: map<Tag, set<Name>>, list: seq<Tag>, name: Name): map<Tag, set<Name>> {
    if list == [] then tags else
      var before := AddName(tags, list[..|list| - 1], name);
      before[list[|list| - 1] := Names(before, list[|list| - 1]) + {name}]
  }

  /** Adds to the gauge of every registered tag. */
  function BumpAll(g: map<Tag, int>, tags: set<Tag>, k: int): map<Tag, int> {
    map t | t in g.Keys + tags :: Gauge(g, t) + if t in tags then k else 0
  }

  /** Adds to the gauge of each tag of a list, as often as it is there. */
  function BumpEach(g: map<Tag, int>, list: seq<Tag>, k: Tag -> int): map<Tag, int> {
    if list == [] then g else
      var t := list[|list| - 1];
      var before := BumpEach(g, list[..|list| - 1], k);
      before[t := Gauge(before, t) + k(t)]
  }

  /** What `updateMetrics` adds for a tag of a check that is not application-wide. */
  function Amount(st: State, healthy: bool, register: bool): Tag -> int {
    (t: Tag) => if healthy then -1
         else if register && |Names(st.tags, t)| == 1 then 1 + st.numFailingApplication
         else 1
  }

  function UpdateMetrics(st: State, c: Check, healthy: bool, register: bool): State {
    var sign := if healthy then -1 else 1;
    if c.isApplication
    then st.(gauges := BumpAll(st.gauges, st.tags.Keys, sign), numFailingApplication := st.numFailingApplication + sign)
    else
      var g := BumpEach(st.gauges, c.tags, Amount(st, healthy, register));
      st.(gauges := g[ALL := Gauge(g, ALL) + sign])
  }

  function Register(st: State, name: Name, tags: seq<Tag>): Result<State, Error> {
    if ALL in tags then Err(RestrictedTag)
    else if name in st.checks then Err(DuplicateCheck)
    else
      var tags' := AddName(st.tags, tags + [ALL], name);
      var c := Check(name in Names(tags', APPLICATION), tags);
      Ok(UpdateMetrics(
        st.(checks := st.checks[name := c], results := st.results[name := NOT_YET_RUN], tags := tags'), c, false, true))
  }

  /** The locked end of `runCheck`, for a check that was registered. */
  function Ran(st: State, name: Name, failing: bool): State
    requires name in st.checks && name in st.results
  {
    var prev := st.results[name];
    var st1 := if failing != prev.failing then UpdateMetrics(st, st.checks[name], !failing, false) else st;
    st1.(results := st.results[name := CheckResult(failing, if failing then prev.contiguousFailures + 1 else 0)])
  }

  // ---------- the recount ----------

  predicate IsFailing(st: State, n: Name) {
    n in st.results && st.results[n].failing
  }

  /** The failing checks `Results` looks at for a tag: those with the tag, and the application-wide ones. */
  function Failing(st: State, t: Tag): set<Name> {
    set n | n in st.checks && IsFailing(st, n) && (n in Names(st.tags, t) || st.checks[n].isApplication)
  }

  function FailingApplication(st: State): set<Name> {
    set n | n in st.checks && IsFailing(st, n) && st.checks[n].isApplication
  }

  predicate Carries(c: Check, t: Tag) {
    t == ALL || t in c.tags
  }

  /** A tag lists the checks that carry it, and is not counted before there is one. */
  ghost predicate TagOk(st: State, t: Tag) {
    && (forall n :: n in Names(st.tags, t) <==> n in st.checks && Carries(st.checks[n], t))
    && (t in st.tags ==> st.tags[t] != {})
    && (t !in st.tags ==> Gauge(st.gauges, t) == 0)
  }

  ghost predicate CheckOk(st: State, n: Name)
    requires n in st.checks
  {
    n in st.results && ALL !in st.checks[n].tags && (st.checks[n].isApplication <==> APPLICATION in st.checks[n].tags)
  }

  predicate NoRepeats(list: seq<Tag>) {
    forall i, j :: 0 <= i < j < |list| ==> list[i] != list[j]
  }

  ghost predicate Wf(st: State) {
    && (forall t :: TagOk(st, t))
    && (forall n :: n in st.checks ==> CheckOk(st, n))
    && st.results.Keys == st.checks.Keys
    && st.numFailingApplication == |FailingApplication(st)|
  }

  ghost predicate GaugeOk(st: State, t: Tag) {
    t in st.tags ==> Gauge(st.gauges, t) == |Failing(st, t)|
  }

  /** Every gauge is what a recount gives. */
  ghost predicate Exact(st: State) {
    forall t :: GaugeOk(st, t)
  }

  /** Checks that are not application-wide list no tag twice. */
  ghost predicate Tidy(st: State) {
    forall n :: n in st.checks && !st.checks[n].isApplication ==> NoRepeats(st.checks[n].tags)
  }

  const START: State := State(map[], map[], map[], map[ALL := 0, APPLICATION := 0], 0)

  lemma StartOk()
    ensures Wf(START) && Exact(START) && Tidy(START)
  {
    assert FailingApplication(START) == {};
  }

  // ---------- gauges ----------

  /** What the occurrences of a tag in a list add up to. */
  function Extra(list: seq<Tag>, t: Tag, k: int): int {
    if list == [] then 0 else Extra(list[..|list| - 1], t, k) + if list[|list| - 1] == t then k else 0
  }

  lemma {:induction false} BumpEachAt(g: map<Tag, int>, list: seq<Tag>, k: Tag -> int, t: Tag)
    ensures Gauge(BumpEach(g, list, k), t) == Gauge(g, t) + Extra(list, t, k(t))
  {
    if list != [] {
      BumpEachAt(g, list[..|list| - 1], k, t);
    }
  }

  lemma {:induction false} ExtraOnce(list: seq<Tag>, t: Tag, k: int)
    requires NoRepeats(list)
    ensures Extra(list, t, k) == if t in list then k else 0
  {
    if list != [] {
      var n := |list| - 1;
      ExtraOnce(list[..n], t, k);
      assert list == list[..n] + [list[n]];
      if t in list[..n] {
        var i :| 0 <= i < n && list[..n][i] == t;
        assert list[i] != list[n];
      }
    }
  }

  lemma {:induction false} ExtraAtLeast(list: seq<Tag>, t: Tag, k: int)
    requires 0 < k
    ensures 0 <= Extra(list, t, k)
    ensures t in list ==> k <= Extra(list, t, k)
  {
    if list != [] {
      var n := |list| - 1;
      ExtraAtLeast(list[..n], t, k);
      assert list == list[..n] + [list[n]];
    }
  }

  /** A tag that is there twice counts too much. */
  lemma {:induction false} ExtraTwice(list: seq<Tag>, i: nat, j: nat, k: int)
    requires i < j < |list| && list[i] == list[j] && 0 < k
    ensures k < Extra(list, list[j], k)
  {
    var n := |list| - 1;
    if j < n {
      ExtraTwice(list[..n], i, j, k);
    } else {
      assert list[..n][i] == list[j];
      ExtraAtLeast(list[..n], list[j], k);
    }
  }

  lemma {:induction false} AddNameAt(tags: map<Tag, set<Name>>, list: seq<Tag>, name: Name, t: Tag)
    ensures Names(AddName(tags, list, name), t) == Names(tags, t) + if t in list then {name} else {}
    ensures t in AddName(tags, list, name) <==> t in tags || t in list
  {
    if list != [] {
      var n := |list| - 1;
      AddNameAt(tags, list[..n], name, t);
      assert list == list[..n] + [list[n]];
    }
  }

  // ---------- registering a check ----------

  /** Who a new check counts for. */
  predicate CountsFor(tags: seq<Tag>, t: Tag) {
    t == ALL || t in tags || APPLICATION in tags
  }

  /** What a registration does to the tags. */
  lemma RegisterTags(st: State, name: Name, tags: seq<Tag>, t: Tag)
    requires Wf(st) && ALL !in tags && name !in st.checks
    ensures Register(st, name, tags).Ok?
    ensures var st' := Register(st, name, tags).value;
            && st'.checks == st.checks[name := Check(APPLICATION in tags, tags)]
            && st'.results == st.results[name := NOT_YET_RUN]
            && Names(st'.tags, t) == Names(st.tags, t) + (if t in tags || t == ALL then {name} else {})
            && (t in st'.tags <==> t in st.tags || t in tags || t == ALL)
  {
    AddNameAt(st.tags, tags + [ALL], name, t);
    RegisterShape(st, name, tags);
    MetricsOnly(st.(checks := st.checks[name := Check(APPLICATION in tags, tags)],
                    results := st.results[name := NOT_YET_RUN],
                    tags := AddName(st.tags, tags + [ALL], name)), Check(APPLICATION in tags, tags), false, true);
    hide Wf, AddName, UpdateMetrics, Register;
  }

  /** What it does to the recount. */
  lemma RegisterIs(st: State, name: Name, tags: seq<Tag>, t: Tag)
    requires Wf(st) && ALL !in tags && name !in st.checks
    ensures Register(st, name, tags).Ok?
    ensures var st' := Register(st, name, tags).value;
            && Failing(st', t) == Failing(st, t) + (if CountsFor(tags, t) then {name} else {})
            && name !in Failing(st, t)
            && FailingApplication(st') == FailingApplication(st) + (if APPLICATION in tags then {name} else {})
            && name !in FailingApplication(st)
  {
    RegisterTags(st, name, tags, t);
    Known(st, t, name);
    RegisteredFailing(st, Register(st, name, tags).value, name, tags, t);
    hide Register, Wf, CountsFor;
  }

  lemma Known(st: State, t: Tag, name: Name)
    requires Wf(st) && name !in st.checks
    ensures name !in Names(st.tags, t) && name !in st.results
  {
    assert TagOk(st, t);
  }

  lemma MetricsOnly(st: State, c: Check, healthy: bool, register: bool)
    ensures var st' := UpdateMetrics(st, c, healthy, register);
            st' == st.(gauges := st'.gauges, numFailingApplication := st'.numFailingApplication)
  {
  }

  lemma RegisteredFailing(st: State, st': State, name: Name, tags: seq<Tag>, t: Tag)
    requires name !in st.checks
    requires st'.checks == st.checks[name := Check(APPLICATION in tags, tags)] &&
             st'.results == st.results[name := NOT_YET_RUN]
    requires Names(st'.tags, t) == Names(st.tags, t) + (if t in tags || t == ALL then {name} else {})
    requires name !in Names(st.tags, t)
    ensures Failing(st', t) == Failing(st, t) + (if CountsFor(tags, t) then {name} else {})
    ensures FailingApplication(st') == FailingApplication(st) + (if APPLICATION in tags then {name} else {})
  {
  }

  /** What a new check that is not application-wide adds for one of its tags. */
  function Share(st: State, t: Tag): int {
    if t in st.tags then 1 else 1 + st.numFailingApplication
  }

  /** What a registration does to a gauge. */
  lemma RegisterGauge(st: State, name: Name, tags: seq<Tag>, t: Tag)
    requires Wf(st) && ALL !in tags && name !in st.checks
    ensures var st' := Register(st, name, tags).value;
            && st'.numFailingApplication == st.numFailingApplication + (if APPLICATION in tags then 1 else 0)
            && Gauge(st'.gauges, t) == Gauge(st.gauges, t) +
                 (if APPLICATION in tags then (if t in st'.tags then 1 else 0)
                  else if t == ALL then 1
                  else Extra(tags, t, Share(st, t)))
  {
    var c := Check(APPLICATION in tags, tags);
    var st1 := st.(checks := st.checks[name := c], results := st.results[name := NOT_YET_RUN],
                   tags := AddName(st.tags, tags + [ALL], name));
    RegisterShape(st, name, tags);
    AddNameAt(st.tags, tags + [ALL], name, t);
    hide Register, AddName;
    assert (t in tags + [ALL]) <==> t in tags || t == ALL;
    if APPLICATION in tags {
      BumpAllAt(st1.gauges, st1.tags.Keys, 1, t);
    } else {
      BumpTagsAt(st1, Check(false, tags), t);
      if t in tags { FirstOfTag(st, t, name); }
      ExtraNone(tags, t, Amount(st1, false, true)(t));
      ExtraNone(tags, t, Share(st, t));
    }
  }

  lemma BumpAllAt(g: map<Tag, int>, tags: set<Tag>, k: int, t: Tag)
    ensures Gauge(BumpAll(g, tags, k), t) == Gauge(g, t) + if t in tags then k else 0
  {
  }

  lemma BumpTagsAt(st: State, c: Check, t: Tag)
    requires !c.isApplication && ALL !in c.tags
    ensures Gauge(UpdateMetrics(st, c, false, true).gauges, t) ==
            Gauge(st.gauges, t) + if t == ALL then 1 else Extra(c.tags, t, Amount(st, false, true)(t))
  {
    BumpEachAt(st.gauges, c.tags, Amount(st, false, true), t);
    ExtraNone(c.tags, t, Amount(st, false, true)(t));
  }

  lemma RegisterShape(st: State, name: Name, tags: seq<Tag>)
    requires Wf(st) && ALL !in tags && name !in st.checks
    ensures var c := Check(APPLICATION in tags, tags);
            Register(st, name, tags) == Ok(UpdateMetrics(
              st.(checks := st.checks[name := c], results := st.results[name := NOT_YET_RUN],
                  tags := AddName(st.tags, tags + [ALL], name)),
              c, false, true))
  {
    hide Wf, UpdateMetrics, AddName;
    AddNameAt(st.tags, tags + [ALL], name, APPLICATION);
    Known(st, APPLICATION, name);
  }

  /** A tag that has one name after a registration was not there before. */
  lemma FirstOfTag(st: State, t: Tag, name: Name)
    requires Wf(st) && name !in st.checks
    ensures |Names(st.tags, t) + {name}| == 1 <==> t !in st.tags
  {
    Known(st, t, name);
    assert TagOk(st, t);
    if t in st.tags {
      var n :| n in st.tags[t];
      assert {n, name} <= st.tags[t] + {name} && |{n, name}| == 2;
      Bigger({n, name}, st.tags[t] + {name});
    }
  }

  lemma Bigger(a: set<Name>, b: set<Name>)
    requires a <= b
    ensures |a| <= |b|
  {
    assert b == a + (b - a);
  }

  lemma {:induction false} ExtraNone(list: seq<Tag>, t: Tag, k: int)
    ensures t !in list ==> Extra(list, t, k) == 0
  {
    if list != [] {
      ExtraNone(list[..|list| - 1], t, k);
      assert list == list[..|list| - 1] + [list[|list| - 1]];
    }
  }

  lemma TagIs(st: State, t: Tag)
    requires Wf(st)
    ensures TagOk(st, t)
  {
  }

  lemma RegisterTagOk(st: State, name: Name, tags: seq<Tag>, t: Tag)
    requires Wf(st) && ALL !in tags && name !in st.checks
    ensures var st' := Register(st, name, tags).value;
            TagOk(st', t)
  {
    hide Register, Wf;
    RegisterTags(st, name, tags, t);
    RegisterGauge(st, name, tags, t);
    TagIs(st, t);
    ExtraNone(tags, t, Share(st, t));
  }

  lemma RegisterWf(st: State, name: Name, tags: seq<Tag>)
    requires Wf(st) && ALL !in tags && name !in st.checks
    ensures Wf(Register(st, name, tags).value)
  {
    hide Register, TagOk, CheckOk, FailingApplication, Failing, Names, Gauge, Extra, Share, CountsFor;
    RegisterTags(st, name, tags, ALL);
    RegisterIs(st, name, tags, ALL);
    RegisterGauge(st, name, tags, ALL);
    var st' := Register(st, name, tags).value;
    forall t ensures TagOk(st', t) {
      RegisterTagOk(st, name, tags, t);
    }
    forall n | n in st'.checks ensures CheckOk(st', n) {
      RegisterCheckOk(st, name, tags, n);
    }
  }

  lemma RegisterCheckOk(st: State, name: Name, tags: seq<Tag>, n: Name)
    requires Wf(st) && ALL !in tags && name !in st.checks
    requires Register(st, name, tags).Ok? && n in Register(st, name, tags).value.checks
    ensures CheckOk(Register(st, name, tags).value, n)
  {
    hide Register, TagOk, FailingApplication, Failing;
    RegisterTags(st, name, tags, ALL);
    if n != name { assert CheckOk(st, n); }
  }

  /** The tags of a new check that keep the gauges exact. */
  predicate Clean(st: State, tags: seq<Tag>) {
    if APPLICATION in tags then st.numFailingApplication == 0 || forall t :: t in tags ==> t in st.tags
    else NoRepeats(tags)
  }

  /** An unseen tag stands for the application-wide checks alone. */
  lemma Unseen(st: State, t: Tag)
    requires Wf(st) && t !in st.tags
    ensures Failing(st, t) == FailingApplication(st) && st.numFailingApplication == |FailingApplication(st)|
    ensures Gauge(st.gauges, t) == 0
    ensures t == ALL || t == APPLICATION ==> st.numFailingApplication == 0
  {
    assert TagOk(st, t);
    if t == ALL || t == APPLICATION {
      forall n | n in st.checks && st.checks[n].isApplication ensures n in Names(st.tags, t) { assert CheckOk(st, n); }
      assert FailingApplication(st) == {};
    }
  }

  lemma RegisterGaugeOk(st: State, name: Name, tags: seq<Tag>, t: Tag)
    requires Wf(st) && ALL !in tags && name !in st.checks && GaugeOk(st, t)
    ensures var st' := Register(st, name, tags).value;
            GaugeOk(st', t) <==>
            if APPLICATION in tags then t in tags && t !in st.tags ==> st.numFailingApplication == 0
            else t in tags ==> Extra(tags, t, Share(st, t)) == Share(st, t)
  {
    hide Register, Failing, FailingApplication, Wf;
    RegisterTags(st, name, tags, t);
    RegisterIs(st, name, tags, t);
    RegisterGauge(st, name, tags, t);
    if t !in st.tags { Unseen(st, t); }
    ExtraNone(tags, t, Share(st, t));
  }

  /** Registering a check keeps the gauges exact iff its tags are clean. */
  lemma RegisterExact(st: State, name: Name, tags: seq<Tag>)
    requires Wf(st) && Exact(st) && ALL !in tags && name !in st.checks
    ensures Exact(Register(st, name, tags).value) <==> Clean(st, tags)
  {
    Accepted(st, name, tags);
    hide Register, GaugeOk;
    var st' := Register(st, name, tags).value;
    forall t
      ensures GaugeOk(st', t) <==>
              if APPLICATION in tags then t in tags && t !in st.tags ==> st.numFailingApplication == 0
              else t in tags ==> Extra(tags, t, Share(st, t)) == Share(st, t)
    {
      assert GaugeOk(st, t);
      RegisterGaugeOk(st, name, tags, t);
    }
    if APPLICATION !in tags {
      if NoRepeats(tags) {
        forall t ensures GaugeOk(st', t) {
          ExtraOnce(tags, t, Share(st, t));
        }
      } else {
        var i, j :| 0 <= i < j < |tags| && tags[i] == tags[j];
        ExtraTwice(tags, i, j, Share(st, tags[j]));
        assert !GaugeOk(st', tags[j]);
      }
    }
  }

  // ---------- running a check ----------

  /** Only the result of the check changes beside the gauges. */
  lemma RanShape(st: State, name: Name, failing: bool)
    requires Wf(st) && name in st.checks
    ensures name in st.results
    ensures var st' := Ran(st, name, failing);
            && st' == st.(results := st.results[name := st'.results[name]], gauges := st'.gauges,
                          numFailingApplication := st'.numFailingApplication)
            && st'.results[name].failing == failing
  {
    assert CheckOk(st, name);
    MetricsOnly(st, st.checks[name], !failing, false);
    hide UpdateMetrics;
  }

  lemma ResultFailing(st: State, st': State, name: Name, failing: bool, t: Tag)
    requires name in st.checks && name in st.results && name in st'.results
    requires st'.checks == st.checks && st'.tags == st.tags && st'.results == st.results[name := st'.results[name]]
    requires st'.results[name].failing == failing
    ensures var counts := name in Names(st.tags, t) || st.checks[name].isApplication;
            && Failing(st', t) ==
               (if !counts then Failing(st, t)
                else if failing then Failing(st, t) + {name} else Failing(st, t) - {name})
            && (counts ==> (name in Failing(st, t) <==> st.results[name].failing))
    ensures FailingApplication(st') ==
            (if !st.checks[name].isApplication then FailingApplication(st)
             else if failing then FailingApplication(st) + {name} else FailingApplication(st) - {name})
    ensures st.checks[name].isApplication ==> (name in FailingApplication(st) <==> st.results[name].failing)
  {
  }

  /** What a run does to a gauge: one up or down for the tags of the check, if it changed sides. */
  lemma RanGauge(st: State, name: Name, failing: bool, t: Tag)
    requires Wf(st) && Tidy(st) && name in st.checks
    ensures var st' := Ran(st, name, failing);
            var counts := t in st.tags && (name in Names(st.tags, t) || st.checks[name].isApplication);
            var change := if failing == st.results[name].failing then 0 else if failing then 1 else -1;
            && Gauge(st'.gauges, t) == Gauge(st.gauges, t) + (if counts then change else 0)
            && st'.numFailingApplication ==
               st.numFailingApplication + (if st.checks[name].isApplication then change else 0)
  {
    assert CheckOk(st, name) && TagOk(st, t);
    var c := st.checks[name];
    if failing != st.results[name].failing && !c.isApplication {
      BumpEachAt(st.gauges, c.tags, Amount(st, !failing, false), t);
      ExtraOnce(c.tags, t, Amount(st, !failing, false)(t));
    }
  }

  lemma RanTagOk(st: State, name: Name, failing: bool, t: Tag)
    requires Wf(st) && Tidy(st) && name in st.checks
    ensures var st' := Ran(st, name, failing);
            TagOk(st', t) && (GaugeOk(st, t) ==> GaugeOk(st', t))
  {
    TagIs(st, t);
    RanShape(st, name, failing);
    hide Ran, Failing, FailingApplication, Wf, Tidy;
    RanGauge(st, name, failing, t);
    ResultFailing(st, Ran(st, name, failing), name, failing, t);
  }

  lemma RanKeeps(st: State, name: Name, failing: bool)
    requires Wf(st) && Tidy(st) && name in st.checks
    ensures Wf(Ran(st, name, failing)) && Tidy(Ran(st, name, failing))
    ensures Exact(st) ==> Exact(Ran(st, name, failing))
  {
    RanShape(st, name, failing);
    hide Ran, FailingApplication, Failing, GaugeOk, TagOk;
    var st' := Ran(st, name, failing);
    RanGauge(st, name, failing, ALL);
    ResultFailing(st, st', name, failing, ALL);
    forall t ensures TagOk(st', t) && (GaugeOk(st, t) ==> GaugeOk(st', t)) {
      RanTagOk(st, name, failing, t);
    }
    forall n | n in st'.checks ensures CheckOk(st', n) { assert CheckOk(st, n); }
    if Exact(st) {
      forall t ensures GaugeOk(st', t) { assert GaugeOk(st, t); }
    }
  }

  // ---------- histories ----------

  datatype Op = OpRegister(name: Name, tags: seq<Tag>) | OpRan(name: Name, failing: bool)

  /** A refused registration changes nothing, and only registered checks run. */
  function Step(st: State, op: Op): State {
    match op
    case OpRegister(name, tags) => (match Register(st, name, tags) case Ok(st') => st' case Err(_) => st)
    case OpRan(name, failing) => if name in st.checks && name in st.results then Ran(st, name, failing) else st
  }

  function Run(ops: seq<Op>): State {
    if ops == [] then START else Step(Run(ops[..|ops| - 1]), ops[|ops| - 1])
  }

  ghost predicate CleanOp(st: State, op: Op) {
    op.OpRegister? && Register(st, op.name, op.tags).Ok? ==> Clean(st, op.tags)
  }

  ghost predicate CleanRun(ops: seq<Op>) {
    ops == [] || (CleanRun(ops[..|ops| - 1]) && CleanOp(Run(ops[..|ops| - 1]), ops[|ops| - 1]))
  }

  /** As long as every registration is clean, every gauge equals its recount. */
  lemma {:induction false} RunExact(ops: seq<Op>)
    requires CleanRun(ops)
    ensures Wf(Run(ops)) && Tidy(Run(ops)) && Exact(Run(ops))
  {
    hide Wf, Exact, Register, Ran;
    if ops == [] {
      StartOk();
    } else {
      var st, op := Run(ops[..|ops| - 1]), ops[|ops| - 1];
      RunExact(ops[..|ops| - 1]);
      match op
      case OpRegister(name, tags) =>
        Accepted(st, name, tags);
        if Register(st, name, tags).Ok? {
          RegisterWf(st, name, tags);
          RegisterExact(st, name, tags);
          RegisterTags(st, name, tags, ALL);
        }
      case OpRan(name, failing) =>
        if name in st.checks && name in st.results { RanKeeps(st, name, failing); }
    }
  }

  /** A history is exact all along iff every registration in it is clean. */
  lemma {:induction false} ExactIffClean(ops: seq<Op>)
    ensures CleanRun(ops) <==> forall k :: 0 <= k <= |ops| ==> Exact(Run(ops[..k]))
  {
    hide Exact, Run, Clean;
    if ops == [] {
      assert ops[..0] == [];
      RunExact([]);
    } else {
      var n := |ops| - 1;
      var init := ops[..n];
      ExactIffClean(init);
      assert forall k :: 0 <= k <= n ==> init[..k] == ops[..k];
      assert ops[..n + 1] == ops;
      if CleanRun(ops) {
        RunExact(ops);
      } else if forall k :: 0 <= k <= |ops| ==> Exact(Run(ops[..k])) {
        forall k | 0 <= k <= n ensures Exact(Run(init[..k])) { assert Exact(Run(ops[..k])); }
        assert Exact(Run(ops[..n + 1]));
        FirstUnclean(ops);
      }
    }
  }

  /** The first registration that is not clean shows in the gauges at once. */
  lemma FirstUnclean(ops: seq<Op>)
    requires ops != [] && CleanRun(ops[..|ops| - 1]) && !CleanRun(ops)
    ensures !Exact(Run(ops))
  {
    hide Exact, Wf, Clean, Register;
    var st, op := Run(ops[..|ops| - 1]), ops[|ops| - 1];
    RunExact(ops[..|ops| - 1]);
    Accepted(st, op.name, op.tags);
    RegisterExact(st, op.name, op.tags);
  }

  /** A tag listed twice by a check is counted twice. */
  lemma RepeatedTagBreaks()
    ensures var ops := [OpRegister(5, [2, 2])]; !CleanRun(ops) && !Exact(Run(ops))
  {
    hide Exact;
    var ops := [OpRegister(5, [2, 2])];
    assert ops[..0] == [];
    Accepted(START, 5, [2, 2]);
    assert !NoRepeats([2, 2]) by { assert [2, 2][0] == [2, 2][1]; }
    FirstUnclean(ops);
  }

  /** A tag first seen with an application-wide check misses the failing ones registered before. */
  lemma LateTagBreaks()
    ensures var ops := [OpRegister(5, [APPLICATION]), OpRegister(6, [APPLICATION, 2])];
            !CleanRun(ops) && !Exact(Run(ops))
  {
    hide Exact, Wf, Register, Clean;
    var ops := [OpRegister(5, [APPLICATION]), OpRegister(6, [APPLICATION, 2])];
    assert ops[..1] == [ops[0]] && ops[..1][..0] == [];
    StartOk();
    Accepted(START, 5, [APPLICATION]);
    assert Clean(START, [APPLICATION]) by { FirstIsClean(); }
    RegisterTags(START, 5, [APPLICATION], 2);
    RegisterGauge(START, 5, [APPLICATION], 2);
    var st := Register(START, 5, [APPLICATION]).value;
    assert Run(ops[..1]) == st;
    Accepted(st, 6, [APPLICATION, 2]);
    LateTagUnclean(st);
    FirstUnclean(ops);
  }

  lemma FirstIsClean()
    ensures Clean(START, [APPLICATION])
  {
  }

  lemma LateTagUnclean(st: State)
    requires st.numFailingApplication == 1 && 2 !in st.tags
    ensures !Clean(st, [APPLICATION, 2])
  {
    assert [APPLICATION, 2][0] == APPLICATION && [APPLICATION, 2][1] == 2;
  }

  lemma Accepted(st: State, name: Name, tags: seq<Tag>)
    ensures Register(st, name, tags).Ok? <==> ALL !in tags && name !in st.checks
  {
  }

  /** Why a registration is refused. */
  lemma RegisterRefusals(st: State, name: Name, tags: seq<Tag>)
    ensures Register(st, name, tags) == Err(RestrictedTag) <==> ALL in tags
    ensures Register(st, name, tags) == Err(DuplicateCheck) <==> ALL !in tags && name in st.checks
  {
  }

  // ---------- the results, read off the events ----------

  /** The check was registered: the first time its name came with tags that are allowed. */
  predicate Registered(ops: seq<Op>, n: Name) {
    ops != [] &&
    (Registered(ops[..|ops| - 1], n) ||
     match ops[|ops| - 1] case OpRegister(m, tags) => m == n && ALL !in tags case _ => false)
  }

  /** The tags it was registered with. */
  function TagsOf(ops: seq<Op>, n: Name): seq<Tag> {
    if ops == [] then [] else
      var init := ops[..|ops| - 1];
      match ops[|ops| - 1]
      case OpRegister(m, tags) => if m == n && ALL !in tags && !Registered(init, n) then tags else TagsOf(init, n)
      case _ => TagsOf(init, n)
  }

  /** What the check answered since then: whether it failed, each time. */
  function Answers(ops: seq<Op>, n: Name): seq<bool> {
    if ops == [] then [] else
      var init := ops[..|ops| - 1];
      match ops[|ops| - 1]
      case OpRan(m, failing) => if m == n && Registered(init, n) then Answers(init, n) + [failing] else Answers(init, n)
      case _ => Answers(init, n)
  }

  /** The last `k` answers are all the failures in a row the answers end with. */
  ghost predicate EndsWithFailures(answers: seq<bool>, k: nat) {
    && k <= |answers| && (forall i :: |answers| - k <= i < |answers| ==> answers[i])
    && (k < |answers| ==> !answers[|answers| - k - 1])
  }

  /** After every history a check counts the failures in a row its answers since its registration end with. */
  lemma {:induction false} ResultsByHistory(ops: seq<Op>, n: Name)
    ensures n in Run(ops).checks <==> Registered(ops, n)
    ensures n in Run(ops).results <==> Registered(ops, n)
    ensures Registered(ops, n) ==> Run(ops).checks[n].tags == TagsOf(ops, n)
    ensures Registered(ops, n) ==>
              var answers, result := Answers(ops, n), Run(ops).results[n];
              && EndsWithFailures(answers, result.contiguousFailures)
              && result.failing == (answers == [] || answers[|answers| - 1])
    ensures !Registered(ops, n) ==> Answers(ops, n) == []
  {
    hide UpdateMetrics, AddName;
    if ops != [] {
      var init, op := ops[..|ops| - 1], ops[|ops| - 1];
      ResultsByHistory(init, n);
      StepResults(Run(init), op, n);
    }
  }

  /** What a step does to the result of a check. */
  lemma StepResults(st: State, op: Op, n: Name)
    requires n in st.checks <==> n in st.results
    ensures var st' := Step(st, op);
            && (n in st'.checks <==> n in st.checks || (op.OpRegister? && op.name == n && ALL !in op.tags))
            && (n in st'.results <==> n in st'.checks)
            && (n in st.checks ==> st'.checks[n] == st.checks[n])
            && (n in st'.checks && n !in st.checks ==> op.OpRegister? && st'.checks[n].tags == op.tags)
            && (n in st'.results && n !in st.results ==> st'.results[n] == CheckResult(true, 0))
            && (n in st.results ==>
                  st'.results[n] ==
                  if op.OpRan? && op.name == n
                  then CheckResult(op.failing, if op.failing then st.results[n].contiguousFailures + 1 else 0)
                  else st.results[n])
  {
    match op
    case OpRegister(name, tags) =>
      if ALL !in tags && name !in st.checks {
        var tags' := AddName(st.tags, tags + [ALL], name);
        var c := Check(name in Names(tags', APPLICATION), tags);
        MetricsOnly(st.(checks := st.checks[name := c], results := st.results[name := NOT_YET_RUN], tags := tags'), c,
                    false, true);
      }
    case OpRan(name, failing) =>
      if name in st.checks && name in st.results { MetricsOnly(st, st.checks[name], !failing, false); }
  }

  /** What a step does to the checks under a tag. */
  lemma StepTags(st: State, op: Op, n: Name, t: Tag)
    ensures n in Names(Step(st, op).tags, t) <==>
            || n in Names(st.tags, t)
            || (op.OpRegister? && op.name == n && n !in st.checks && ALL !in op.tags && (t == ALL || t in op.tags))
  {
    match op
    case OpRegister(name, tags) =>
      if ALL !in tags && name !in st.checks {
        AddNameAt(st.tags, tags + [ALL], name, t);
        var tags' := AddName(st.tags, tags + [ALL], name);
        var c := Check(name in Names(tags', APPLICATION), tags);
        MetricsOnly(st.(checks := st.checks[name := c], results := st.results[name := NOT_YET_RUN], tags := tags'), c,
                    false, true);
      }
    case OpRan(name, failing) =>
      if name in st.checks && name in st.results { MetricsOnly(st, st.checks[name], !failing, false); }
  }

  /** After every history a tag lists the registered checks that came with it; all of them are under the tag for all. */
  lemma {:induction false} TagsByHistory(ops: seq<Op>, n: Name, t: Tag)
    ensures n in Names(Run(ops).tags, t) <==> Registered(ops, n) && (t == ALL || t in TagsOf(ops, n))
  {
    hide Step, Names;
    if ops == [] {
      assert n !in Names(START.tags, t) by { NoNames(n, t); }
    } else {
      var init, op := ops[..|ops| - 1], ops[|ops| - 1];
      TagsByHistory(init, n, t);
      ResultsByHistory(init, n);
      StepTags(Run(init), op, n, t);
    }
  }

  lemma NoNames(n: Name, t: Tag)
    ensures n !in Names(START.tags, t)
  {
  }

  // ---------- what is reported ----------

  /** What `Results` answers for one tag: whether all checks it looks at are healthy. */
  ghost predicate Healthy(st: State, t: Tag) {
    forall n :: n in Names(st.tags, t) + Names(st.tags, APPLICATION) && n in st.results ==> !st.results[n].failing
  }

  /** In an exact state the gauge of a registered tag is zero iff the tag is reported healthy. */
  lemma ZeroIffHealthy(st: State, t: Tag)
    requires Wf(st) && Exact(st) && t in st.tags
    ensures Gauge(st.gauges, t) == 0 <==> Healthy(st, t)
  {
    assert GaugeOk(st, t) && TagOk(st, t) && TagOk(st, APPLICATION);
    forall n
      ensures n in Failing(st, t) <==>
              n in Names(st.tags, t) + Names(st.tags, APPLICATION) && n in st.results && st.results[n].failing
    {
      if n in st.checks { assert CheckOk(st, n); }
    }
    if Healthy(st, t) { assert Failing(st, t) == {}; }
  }
}
