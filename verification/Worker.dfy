/** The health worker as programmed: maps and gauges changed in place. */
module HealthWorker {
  import opened Results
  import opened Health

  class Worker {
    var checks: map<Name, Check>
    var results: map<Name, CheckResult>
    var tags: map<Tag, set<Name>>
    var gauges: map<Tag, int>
    var numFailingApplication: int

    ghost function Now(): State
      reads this
    {
      State(checks, results, tags, gauges, numFailingApplication)
    }

    constructor ()
      ensures Now() == START
    {
      checks, results, tags := map[], map[], map[];
      gauges := map[ALL := 0, APPLICATION := 0];
      numFailingApplication := 0;
    }

    method Bump(t: Tag, k: int)
      modifies this`gauges
      ensures gauges == old(gauges)[t := Gauge(old(gauges), t) + k]
    {
      gauges := gauges[t := (if t in gauges then gauges[t] else 0) + k];
    }

    method BumpAll(k: int)
      modifies this`gauges
      ensures gauges == Health.BumpAll(old(gauges), tags.Keys, k)
    {
      var todo := tags.Keys;
      BumpNone(gauges, k);
      assert tags.Keys - todo == {};
      while todo != {}
        invariant todo <= tags.Keys
        invariant gauges == Health.BumpAll(old(gauges), tags.Keys - todo, k)
        decreases todo
      {
        var t :| t in todo;
        BumpOne(old(gauges), tags.Keys - todo, t, k);
        assert tags.Keys - todo + {t} == tags.Keys - (todo - {t});
        Bump(t, k);
        todo := todo - {t};
      }
      assert tags.Keys - {} == tags.Keys;
    }

    method UpdateMetrics(c: Check, healthy: bool, register: bool)
      modifies this`gauges, this`numFailingApplication
      ensures Now() == Health.UpdateMetrics(old(Now()), c, healthy, register)
    {
      var sign := if healthy then -1 else 1;
      if c.isApplication {
        BumpAll(sign);
        numFailingApplication := numFailingApplication + sign;
        return;
      }
      BumpTags(c.tags, healthy, register);
      Bump(ALL, sign);
    }

    /** The gauges of the tags of a check that is not application-wide. */
    method BumpTags(list: seq<Tag>, healthy: bool, register: bool)
      modifies this`gauges
      ensures gauges == BumpEach(old(gauges), list, Amount(old(Now()), healthy, register))
    {
      ghost var k := Amount(Now(), healthy, register);
      for i := 0 to |list|
        invariant gauges == BumpEach(old(gauges), list[..i], k)
      {
        var t := list[i];
        assert list[..i + 1][..i] == list[..i];
        if healthy {
          Bump(t, -1);
        } else {
          Bump(t, 1);
          if register && t in tags && |tags[t]| == 1 {
            Bump(t, numFailingApplication);
          }
        }
      }
      assert list[..|list|] == list;
    }

    method RegisterCheck(name: Name, list: seq<Tag>) returns (err: Option<Error>)
      modifies this
      ensures match Register(old(Now()), name, list)
              case Ok(st) => err.None? && Now() == st
              case Err(e) => err == Some(e) && Now() == old(Now())
    {
      if ALL in list { return Some(RestrictedTag); }
      if name in checks { return Some(DuplicateCheck); }
      for i := 0 to |list|
        invariant tags == AddName(old(tags), list[..i], name)
        invariant checks == old(checks) && results == old(results) && gauges == old(gauges)
        invariant numFailingApplication == old(numFailingApplication)
      {
        assert list[..i + 1][..i] == list[..i];
        tags := tags[list[i] := Names(tags, list[i]) + {name}];
      }
      assert list[..|list|] == list && (list + [ALL])[..|list|] == list;
      tags := tags[ALL := Names(tags, ALL) + {name}];
      var c := Check(name in Names(tags, APPLICATION), list);
      checks := checks[name := c];
      results := results[name := NOT_YET_RUN];
      UpdateMetrics(c, false, true);
      return None;
    }

    /** What `runCheck` does under the lock once the check has answered. */
    method CheckRan(name: Name, failing: bool)
      requires name in checks && name in results
      modifies this
      ensures Now() == Ran(old(Now()), name, failing)
    {
      var prev := results[name];
      var result := CheckResult(failing, 0);
      if failing {
        result := CheckResult(true, prev.contiguousFailures + 1);
        if !prev.failing { UpdateMetrics(checks[name], false, false); }
      } else if prev.failing {
        UpdateMetrics(checks[name], true, false);
      }
      results := results[name := result];
    }

    method Collect(names: set<Name>) returns (r: map<Name, CheckResult>, healthy: bool)
      ensures forall n :: n in r <==> n in results && n in names
      ensures forall n :: n in r ==> r[n] == results[n]
      ensures healthy <==> forall n :: n in r ==> !r[n].failing
    {
      r, healthy := map[], true;
      var todo := names;
      while todo != {}
        invariant todo <= names
        invariant forall n :: n in r <==> n in results && n in names && n !in todo
        invariant forall n :: n in r ==> r[n] == results[n]
        invariant healthy <==> forall n :: n in r ==> !r[n].failing
        decreases todo
      {
        var n :| n in todo;
        if n in results {
          r := r[n := results[n]];
          healthy := healthy && !results[n].failing;
        }
        todo := todo - {n};
      }
    }

    /** The results for some tags, or for all checks, always with the application-wide ones. */
    method Results(list: seq<Tag>) returns (r: map<Name, CheckResult>, healthy: bool)
      ensures forall n :: n in r <==> n in results && exists t :: Asked(list, t) && n in Names(tags, t)
      ensures forall n :: n in r ==> r[n] == results[n]
      ensures healthy <==> forall n :: n in r ==> !r[n].failing
      ensures healthy <==> forall t :: Asked(list, t) ==> Healthy(Now(), t)
      ensures Wf(Now()) && Exact(Now()) ==> (healthy <==> forall t :: Asked(list, t) ==> Gauge(gauges, t) == 0)
    {
      hide Wf, Exact;
      var asked := if list == [] then {ALL} else set t | t in list;
      var todo := asked + {APPLICATION};
      var names: set<Name> := {};
      while todo != {}
        invariant todo <= asked + {APPLICATION}
        invariant forall n :: n in names <==> exists t :: t in asked + {APPLICATION} - todo && n in Names(tags, t)
        decreases todo
      {
        var t :| t in todo;
        ghost var done := asked + {APPLICATION} - todo;
        todo := todo - {t};
        assert asked + {APPLICATION} - todo == done + {t};
        if t in tags { names := names + tags[t]; }
      }
      assert forall t :: t in asked + {APPLICATION} <==> Asked(list, t);
      r, healthy := Collect(names);
      assert Asked(list, APPLICATION);
      if Wf(Now()) && Exact(Now()) { GaugesTell(Now(), list); }
    }
  }

  /** In an exact state the asked gauges are all zero iff all asked tags are healthy, registered or not. */
  lemma GaugesTell(st: State, list: seq<Tag>)
    requires Wf(st) && Exact(st)
    ensures (forall t :: Asked(list, t) ==> Healthy(st, t)) <==>
            (forall t :: Asked(list, t) ==> Gauge(st.gauges, t) == 0)
  {
    hide Exact, Healthy;
    assert Asked(list, APPLICATION);
    forall t
      ensures t in st.tags ==> (Gauge(st.gauges, t) == 0 <==> Healthy(st, t))
      ensures t !in st.tags ==> Gauge(st.gauges, t) == 0 && (Healthy(st, APPLICATION) ==> Healthy(st, t))
    {
      if t in st.tags {
        ZeroIffHealthy(st, t);
      } else {
        TagIs(st, t);
        UnseenHealthy(st, t);
      }
    }
    if APPLICATION !in st.tags { UnseenHealthy(st, APPLICATION); }
  }

  lemma UnseenHealthy(st: State, t: Tag)
    requires t !in st.tags
    ensures Healthy(st, APPLICATION) ==> Healthy(st, t)
    ensures APPLICATION !in st.tags ==> Healthy(st, APPLICATION)
  {
  }

  predicate Asked(list: seq<Tag>, t: Tag) {
    t == APPLICATION || t in list || (list == [] && t == ALL)
  }

  /** After every history the results asked for are those of all checks, or of the ones with a tag that is asked for. */
  lemma ReportedByHistory(ops: seq<Op>, list: seq<Tag>, n: Name)
    ensures (n in Run(ops).results && exists t :: Asked(list, t) && n in Names(Run(ops).tags, t)) <==>
            && Registered(ops, n)
            && (list == [] || ALL in list || exists t :: t in TagsOf(ops, n) && (t == APPLICATION || t in list))
  {
    ResultsByHistory(ops, n);
    hide Run, Registered, TagsOf, Names;
    forall t ensures n in Names(Run(ops).tags, t) <==> Registered(ops, n) && (t == ALL || t in TagsOf(ops, n)) {
      TagsByHistory(ops, n, t);
    }
    if Registered(ops, n) {
      if list == [] || ALL in list { assert Asked(list, ALL) && n in Names(Run(ops).tags, ALL); }
      if t :| t in TagsOf(ops, n) && (t == APPLICATION || t in list) {
        assert Asked(list, t) && n in Names(Run(ops).tags, t);
      }
    }
  }

  lemma BumpNone(g: map<Tag, int>, k: int)
    ensures Health.BumpAll(g, {}, k) == g
  {
  }

  lemma BumpOne(g: map<Tag, int>, done: set<Tag>, t: Tag, k: int)
    requires t !in done
    ensures Health.BumpAll(g, done + {t}, k) ==
            Health.BumpAll(g, done, k)[t := Gauge(Health.BumpAll(g, done, k), t) + k]
  {
  }
}
