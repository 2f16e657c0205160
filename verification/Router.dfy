/** The API router: endpoints, and aliases that get every endpoint of what they stand for. */
module Router {
  type Base = string
  type Endpoint = string
  type Handler = nat

  type Routes = map<Base, map<Endpoint, Handler>>
  type AliasMap = map<Base, seq<Base>>

  datatype State = State(reserved: set<Base>, aliases: AliasMap, routes: Routes)

  function Aliases(st: State, b: Base): seq<Base> {
    if b in st.aliases then st.aliases[b] else []
  }

  predicate Has(routes: Routes, b: Base, e: Endpoint) {
    b in routes && e in routes[b]
  }

  predicate HasWith(routes: Routes, b: Base, e: Endpoint, h: Handler) {
    Has(routes, b, e) && routes[b][e] == h
  }

  function Put(routes: Routes, b: Base, e: Endpoint, h: Handler): Routes {
    routes[b := (if b in routes then routes[b] else map[])[e := h]]
  }

  // ---------- adding an endpoint ----------

  predicate IsAlias(aliases: AliasMap, b: Base, a: Base) {
    b in aliases && a in aliases[b]
  }

  /** A finite set of bases that holds every alias. */
  ghost predicate Closes(known: set<Base>, aliases: AliasMap) {
    forall b, a :: IsAlias(aliases, b, a) ==> a in known
  }

  /** The known bases that do not have the endpoint: there are fewer with every endpoint added. */
  function Lacking(known: set<Base>, routes: Routes, e: Endpoint): set<Base> {
    set b | b in known && !Has(routes, b, e)
  }

  /**
   `forceAddRouter`: the routes afterwards, and whether nothing failed. A failure does not stop the other
   aliases from being tried. The recursion ends although the aliases may form cycles.
   */
  function ForceAdd(known: set<Base>, aliases: AliasMap, routes: Routes, b: Base, e: Endpoint, h: Handler):
      (r: (Routes, bool))
    requires Closes(known, aliases) && b in known
    ensures Lacking(known, r.0, e) <= Lacking(known, routes, e)
    decreases Lacking(known, routes, e), 0
  {
    if Has(routes, b, e) then (routes, false) else
      var routes1 := Put(routes, b, e, h);
      assert b in Lacking(known, routes, e) && b !in Lacking(known, routes1, e);
      if b in aliases then
        assert forall a :: a in aliases[b] ==> IsAlias(aliases, b, a);
        ForceEach(known, aliases, routes1, aliases[b], e, h)
      else (routes1, true)
  }

  function ForceEach(known: set<Base>, aliases: AliasMap, routes: Routes, list: seq<Base>, e: Endpoint, h: Handler):
      (r: (Routes, bool))
    requires Closes(known, aliases) && forall a :: a in list ==> a in known
    ensures Lacking(known, r.0, e) <= Lacking(known, routes, e)
    decreases Lacking(known, routes, e), 1, |list|
  {
    if list == [] then (routes, true) else
      var n := |list| - 1;
      var (routes1, ok1) := ForceEach(known, aliases, routes, list[..n], e, h);
      var (routes2, ok2) := ForceAdd(known, aliases, routes1, list[n], e, h);
      (routes2, ok1 && ok2)
  }

  /** Nothing is taken away or changed, and only this endpoint is added, with this handler. */
  ghost predicate Extends(routes: Routes, routes': Routes, e: Endpoint, h: Handler) {
    && (forall b, x :: Has(routes, b, x) ==> Has(routes', b, x) && routes'[b][x] == routes[b][x])
    && (forall b, x :: Has(routes', b, x) && !Has(routes, b, x) ==> x == e && routes'[b][x] == h)
  }

  predicate Gets(routes: Routes, routes': Routes, b: Base, e: Endpoint) {
    Has(routes', b, e) && !Has(routes, b, e)
  }

  /** Whoever has newly got the endpoint has no alias without it. */
  ghost predicate PassedOn(aliases: AliasMap, routes: Routes, routes': Routes, e: Endpoint) {
    forall b, a :: Gets(routes, routes', b, e) && IsAlias(aliases, b, a) ==> Has(routes', a, e)
  }

  /** Whoever has newly got the endpoint has it with the same handler at all its aliases. */
  ghost predicate PassedWith(aliases: AliasMap, routes: Routes, routes': Routes, e: Endpoint, h: Handler) {
    forall b, a :: Gets(routes, routes', b, e) && IsAlias(aliases, b, a) ==> HasWith(routes', a, e, h)
  }

  lemma NothingNew(aliases: AliasMap, routes: Routes, e: Endpoint, h: Handler)
    ensures Extends(routes, routes, e, h)
    ensures PassedOn(aliases, routes, routes, e) && PassedWith(aliases, routes, routes, e, h)
  {
  }

  lemma ExtendsTwice(r0: Routes, r1: Routes, r2: Routes, e: Endpoint, h: Handler)
    requires Extends(r0, r1, e, h) && Extends(r1, r2, e, h)
    ensures Extends(r0, r2, e, h)
  {
    hide Has;
  }

  lemma PutExtends(routes: Routes, b: Base, e: Endpoint, h: Handler)
    requires !Has(routes, b, e)
    ensures Extends(routes, Put(routes, b, e, h), e, h) && HasWith(Put(routes, b, e, h), b, e, h)
    ensures forall x :: Gets(routes, Put(routes, b, e, h), x, e) ==> x == b
  {
  }

  /**
   What adding an endpoint does, whether or not something fails: the base has the endpoint, and so has every alias
   of each base that got it. If nothing failed, all of them have the new handler.
   */
  lemma {:induction false} ForceAddIs(known: set<Base>, aliases: AliasMap, routes: Routes, b: Base, e: Endpoint,
                                      h: Handler)
    requires Closes(known, aliases) && b in known
    ensures var (routes', ok) := ForceAdd(known, aliases, routes, b, e, h);
            && Extends(routes, routes', e, h) && Has(routes', b, e) && PassedOn(aliases, routes, routes', e)
            && (ok ==> HasWith(routes', b, e, h) && PassedWith(aliases, routes, routes', e, h))
    decreases Lacking(known, routes, e), 0
  {
    if Has(routes, b, e) {
      NothingNew(aliases, routes, e, h);
    } else {
      var routes1 := Put(routes, b, e, h);
      PutExtends(routes, b, e, h);
      assert b in Lacking(known, routes, e) && b !in Lacking(known, routes1, e);
      if b in aliases {
        assert forall a :: a in aliases[b] ==> IsAlias(aliases, b, a);
        ForceEachIs(known, aliases, routes1, aliases[b], e, h);
        var (routes', ok) := ForceEach(known, aliases, routes1, aliases[b], e, h);
        ExtendsTwice(routes, routes1, routes', e, h);
        AfterPut(aliases, routes, routes', b, e, h);
      }
    }
  }

  lemma AfterPut(aliases: AliasMap, routes: Routes, routes': Routes, b: Base, e: Endpoint, h: Handler)
    requires !Has(routes, b, e) && b in aliases
    requires PassedOn(aliases, Put(routes, b, e, h), routes', e) && forall a :: a in aliases[b] ==> Has(routes', a, e)
    ensures PassedOn(aliases, routes, routes', e)
    ensures PassedWith(aliases, Put(routes, b, e, h), routes', e, h) &&
            (forall a :: a in aliases[b] ==> HasWith(routes', a, e, h)) ==>
            PassedWith(aliases, routes, routes', e, h)
  {
    PutExtends(routes, b, e, h);
    hide Put;
  }

  lemma {:induction false} ForceEachIs(known: set<Base>, aliases: AliasMap, routes: Routes, list: seq<Base>,
                                       e: Endpoint, h: Handler)
    requires Closes(known, aliases) && forall a :: a in list ==> a in known
    ensures var (routes', ok) := ForceEach(known, aliases, routes, list, e, h);
            && Extends(routes, routes', e, h) && (forall a :: a in list ==> Has(routes', a, e))
            && PassedOn(aliases, routes, routes', e)
            && (ok ==> (forall a :: a in list ==> HasWith(routes', a, e, h)) &&
                       PassedWith(aliases, routes, routes', e, h))
    decreases Lacking(known, routes, e), 1, |list|
  {
    hide Extends, PassedOn, PassedWith, Has, HasWith, Lacking;
    if list == [] {
      NothingNew(aliases, routes, e, h);
    } else {
      var n := |list| - 1;
      ForceEachIs(known, aliases, routes, list[..n], e, h);
      var (routes1, ok1) := ForceEach(known, aliases, routes, list[..n], e, h);
      ForceAddIs(known, aliases, routes1, list[n], e, h);
      var (routes2, ok2) := ForceAdd(known, aliases, routes1, list[n], e, h);
      ExtendsTwice(routes, routes1, routes2, e, h);
      Both(aliases, routes, routes1, routes2, e, h);
      forall a | a in list
        ensures Has(routes2, a, e) && (ok1 && ok2 ==> HasWith(routes2, a, e, h))
      {
        if a != list[n] {
          assert a in list[..n];
          Carries(routes1, routes2, e, h, a);
        } else if ok1 && ok2 {
          assert HasWith(routes2, a, e, h);
        }
      }
    }
  }

  lemma Carries(routes: Routes, routes': Routes, e: Endpoint, h: Handler, a: Base)
    requires Extends(routes, routes', e, h) && Has(routes, a, e)
    ensures Has(routes', a, e) && (HasWith(routes, a, e, h) ==> HasWith(routes', a, e, h))
  {
  }

  lemma Both(aliases: AliasMap, r0: Routes, r1: Routes, r2: Routes, e: Endpoint, h: Handler)
    requires Extends(r0, r1, e, h) && Extends(r1, r2, e, h)
    requires PassedOn(aliases, r0, r1, e) && PassedOn(aliases, r1, r2, e)
    ensures PassedOn(aliases, r0, r2, e)
    ensures PassedWith(aliases, r0, r1, e, h) && PassedWith(aliases, r1, r2, e, h) ==>
            PassedWith(aliases, r0, r2, e, h)
  {
    hide Has;
  }

  // ---------- the calls ----------

  /** The aliases, and some more. */
  function Known(aliases: AliasMap, more: set<Base>): (known: set<Base>)
    ensures Closes(known, aliases) && more <= known
  {
    more + set b, i | b in aliases && 0 <= i < |aliases[b]| :: aliases[b][i]
  }

  function AddRouter(st: State, b: Base, e: Endpoint, h: Handler): (State, bool) {
    if b in st.reserved then (st, false) else
      var (routes, ok) := ForceAdd(Known(st.aliases, {b}), st.aliases, st.routes, b, e, h);
      (st.(routes := routes), ok)
  }

  /** Gives the endpoints in `order` of the base to each of the aliases. */
  function Spread(known: set<Base>, aliases: AliasMap, routes: Routes, base: Base, list: seq<Base>,
                  order: seq<Endpoint>): (Routes, bool)
    requires Closes(known, aliases) && forall a :: a in list ==> a in known
  {
    if order == [] then (routes, true) else
      var n := |order| - 1;
      var (routes1, ok1) := Spread(known, aliases, routes, base, list, order[..n]);
      if !Has(routes1, base, order[n]) then (routes1, ok1) else
        var (routes2, ok2) := ForceEach(known, aliases, routes1, list, order[n], routes1[base][order[n]]);
        (routes2, ok1 && ok2)
  }

  function SetOf(list: seq<Base>): set<Base> {
    set a | a in list
  }

  function Aliased(st: State, base: Base, list: seq<Base>): State {
    st.(reserved := st.reserved + SetOf(list), aliases := st.aliases[base := Aliases(st, base) + list])
  }

  /** `order` is how the endpoints of the base happen to be run through. */
  function AddAlias(st: State, base: Base, list: seq<Base>, order: seq<Endpoint>): (State, bool) {
    if exists a :: a in list && a in st.reserved then (st, false) else
      var st1 := Aliased(st, base, list);
      var (routes, ok) := Spread(Known(st1.aliases, SetOf(list)), st1.aliases, st1.routes, base, list, order);
      (st1.(routes := routes), ok)
  }

  // ---------- what each call keeps ----------

  predicate PairPresent(routes: Routes, b: Base, a: Base, e: Endpoint) {
    Has(routes, b, e) ==> Has(routes, a, e)
  }

  predicate PairClosed(routes: Routes, b: Base, a: Base, e: Endpoint) {
    Has(routes, b, e) ==> HasWith(routes, a, e, routes[b][e])
  }

  /** Every endpoint of a base is at each of its aliases. */
  ghost predicate Present(aliases: AliasMap, routes: Routes) {
    forall b, a, e :: IsAlias(aliases, b, a) ==> PairPresent(routes, b, a, e)
  }

  /** Every endpoint of a base is at each of its aliases, with the same handler. */
  ghost predicate Closed(aliases: AliasMap, routes: Routes) {
    forall b, a, e :: IsAlias(aliases, b, a) ==> PairClosed(routes, b, a, e)
  }

  ghost predicate KeepsPresent(aliases: AliasMap, routes: Routes, routes': Routes) {
    forall b, a, e :: IsAlias(aliases, b, a) && PairPresent(routes, b, a, e) ==> PairPresent(routes', b, a, e)
  }

  ghost predicate KeepsClosed(aliases: AliasMap, routes: Routes, routes': Routes) {
    forall b, a, e :: IsAlias(aliases, b, a) && PairClosed(routes, b, a, e) ==> PairClosed(routes', b, a, e)
  }

  lemma Keeps(aliases: AliasMap, routes: Routes, routes': Routes, e: Endpoint, h: Handler)
    requires Extends(routes, routes', e, h) && PassedOn(aliases, routes, routes', e)
    ensures KeepsPresent(aliases, routes, routes')
    ensures PassedWith(aliases, routes, routes', e, h) ==> KeepsClosed(aliases, routes, routes')
  {
    forall b, a, x | IsAlias(aliases, b, a) && PairPresent(routes, b, a, x) ensures PairPresent(routes', b, a, x) {
      if Has(routes', b, x) && Has(routes, b, x) { assert Has(routes', a, x); }
    }
    if PassedWith(aliases, routes, routes', e, h) {
      forall b, a, x | IsAlias(aliases, b, a) && PairClosed(routes, b, a, x) ensures PairClosed(routes', b, a, x) {
        if Has(routes', b, x) && Has(routes, b, x) { assert Has(routes', a, x); }
      }
    }
  }

  /** The aliases keep having everything even when the call fails; when it does not, the handlers agree as well. */
  lemma AddRouterKeeps(st: State, b: Base, e: Endpoint, h: Handler)
    ensures var (st', ok) := AddRouter(st, b, e, h);
            && st'.aliases == st.aliases
            && (Present(st.aliases, st.routes) ==> Present(st.aliases, st'.routes))
            && (Closed(st.aliases, st.routes) && ok ==> Closed(st.aliases, st'.routes))
            && (ok ==> HasWith(st'.routes, b, e, h) && !Has(st.routes, b, e))
  {
    hide PairPresent, PairClosed, Extends, PassedOn, PassedWith;
    if b !in st.reserved {
      ForceAddIs(Known(st.aliases, {b}), st.aliases, st.routes, b, e, h);
      Keeps(st.aliases, st.routes, AddRouter(st, b, e, h).0.routes, e, h);
    }
  }

  // ---------- when the handlers stay the same ----------

  /** A chain of aliases. */
  predicate IsPath(aliases: AliasMap, path: seq<Base>) {
    |path| >= 1 && forall i :: 0 <= i < |path| - 1 ==> IsAlias(aliases, path[i], path[i + 1])
  }

  predicate Joins(aliases: AliasMap, path: seq<Base>, b: Base, x: Base) {
    IsPath(aliases, path) && path[0] == b && path[|path| - 1] == x
  }

  ghost predicate Reaches(aliases: AliasMap, b: Base, x: Base) {
    exists path :: Joins(aliases, path, b, x)
  }

  ghost predicate ReachesFrom(aliases: AliasMap, list: seq<Base>, x: Base) {
    exists a :: a in list && Reaches(aliases, a, x)
  }

  lemma ReachesSelf(aliases: AliasMap, b: Base)
    ensures Reaches(aliases, b, b)
  {
    assert Joins(aliases, [b], b, b);
  }

  lemma ReachesOn(aliases: AliasMap, b: Base, x: Base)
    requires b in aliases && ReachesFrom(aliases, aliases[b], x)
    ensures Reaches(aliases, b, x)
  {
    var a :| a in aliases[b] && Reaches(aliases, a, x);
    var path :| Joins(aliases, path, a, x);
    assert Joins(aliases, [b] + path, b, x);
  }

  /** An endpoint gets only where the aliases lead. */
  lemma {:induction false} ForceAddReaches(known: set<Base>, aliases: AliasMap, routes: Routes, b: Base, e: Endpoint,
                                           h: Handler, x: Base)
    requires Closes(known, aliases) && b in known && Gets(routes, ForceAdd(known, aliases, routes, b, e, h).0, x, e)
    ensures Reaches(aliases, b, x)
    decreases Lacking(known, routes, e), 0
  {
    hide Reaches, ReachesFrom;
    var routes1 := Put(routes, b, e, h);
    assert b in Lacking(known, routes, e) && b !in Lacking(known, routes1, e);
    if x == b {
      ReachesSelf(aliases, b);
    } else {
      assert !Has(routes1, x, e);
      assert forall a :: a in aliases[b] ==> IsAlias(aliases, b, a);
      ForceEachReaches(known, aliases, routes1, aliases[b], e, h, x);
      ReachesOn(aliases, b, x);
    }
  }

  lemma {:induction false} ForceEachReaches(known: set<Base>, aliases: AliasMap, routes: Routes, list: seq<Base>,
                                            e: Endpoint, h: Handler, x: Base)
    requires Closes(known, aliases) && forall a :: a in list ==> a in known
    requires Gets(routes, ForceEach(known, aliases, routes, list, e, h).0, x, e)
    ensures ReachesFrom(aliases, list, x)
    decreases Lacking(known, routes, e), 1, |list|
  {
    hide Reaches;
    var n := |list| - 1;
    var (routes1, ok1) := ForceEach(known, aliases, routes, list[..n], e, h);
    if Has(routes1, x, e) {
      ForceEachReaches(known, aliases, routes, list[..n], e, h, x);
    } else {
      ForceAddReaches(known, aliases, routes1, list[n], e, h, x);
    }
  }

  /** Wherever the aliases lead, the endpoint is missing or has this handler. */
  ghost predicate Agrees(aliases: AliasMap, routes: Routes, b: Base, e: Endpoint, h: Handler) {
    forall x :: Reaches(aliases, b, x) && Has(routes, x, e) ==> routes[x][e] == h
  }

  /** The handlers at the aliases stay the same exactly when nothing that the aliases lead to has another one. */
  lemma AddRouterClosesIff(st: State, b: Base, e: Endpoint, h: Handler)
    requires Closed(st.aliases, st.routes)
    ensures Closed(st.aliases, AddRouter(st, b, e, h).0.routes) <==>
            b in st.reserved || Has(st.routes, b, e) || Agrees(st.aliases, st.routes, b, e, h)
  {
    hide ForceAdd, Reaches;
    var routes' := AddRouter(st, b, e, h).0.routes;
    if b !in st.reserved {
      ForceAddIs(Known(st.aliases, {b}), st.aliases, st.routes, b, e, h);
      if Has(st.routes, b, e) {
        Unchanged(Known(st.aliases, {b}), st.aliases, st.routes, b, e, h);
      } else if Closed(st.aliases, routes') {
        ClosedAgrees(st.aliases, st.routes, routes', b, e, h);
      } else if Agrees(st.aliases, st.routes, b, e, h) {
        AgreesCloses(st, b, e, h);
      }
    }
  }

  lemma Unchanged(known: set<Base>, aliases: AliasMap, routes: Routes, b: Base, e: Endpoint, h: Handler)
    requires Closes(known, aliases) && b in known && Has(routes, b, e)
    ensures ForceAdd(known, aliases, routes, b, e, h) == (routes, false)
  {
  }

  lemma ClosedAgrees(aliases: AliasMap, routes: Routes, routes': Routes, b: Base, e: Endpoint, h: Handler)
    requires Closed(aliases, routes') && Extends(routes, routes', e, h) && Gets(routes, routes', b, e)
    ensures Agrees(aliases, routes, b, e, h)
  {
    hide Closed;
    forall x | Reaches(aliases, b, x) && Has(routes, x, e) ensures routes[x][e] == h {
      var path :| Joins(aliases, path, b, x);
      AlongPath(aliases, routes', path, e);
      assert Has(routes', x, e);
    }
  }

  lemma AgreesCloses(st: State, b: Base, e: Endpoint, h: Handler)
    requires Closed(st.aliases, st.routes) && b !in st.reserved && Agrees(st.aliases, st.routes, b, e, h)
    ensures Closed(st.aliases, AddRouter(st, b, e, h).0.routes)
  {
    hide ForceAdd, Reaches, Known;
    var known := Known(st.aliases, {b});
    var routes' := AddRouter(st, b, e, h).0.routes;
    ForceAddIs(known, st.aliases, st.routes, b, e, h);
    forall x, a | Gets(st.routes, routes', x, e) && IsAlias(st.aliases, x, a) ensures HasWith(routes', a, e, h) {
      ForceAddReaches(known, st.aliases, st.routes, b, e, h, x);
      ReachesNext(st.aliases, b, x, a);
      assert Has(routes', a, e);
      if Has(st.routes, a, e) { assert routes'[a][e] == st.routes[a][e]; }
    }
    Keeps(st.aliases, st.routes, routes', e, h);
  }

  lemma ReachesNext(aliases: AliasMap, b: Base, x: Base, a: Base)
    requires Reaches(aliases, b, x) && IsAlias(aliases, x, a)
    ensures Reaches(aliases, b, a)
  {
    var path :| Joins(aliases, path, b, x);
    var longer := path + [a];
    forall i | 0 <= i < |longer| - 1 ensures IsAlias(aliases, longer[i], longer[i + 1]) {
      if i < |path| - 1 { assert IsAlias(aliases, path[i], path[i + 1]); }
    }
    assert Joins(aliases, longer, b, a);
  }

  // ---------- when nothing fails ----------

  ghost predicate Distinct(list: seq<Base>) {
    forall i, j :: 0 <= i < j < |list| ==> list[i] != list[j]
  }

  /** What the aliases lead to from the base is a tree: no list repeats an alias, and no base is reached twice. */
  ghost predicate Tree(aliases: AliasMap, b: Base) {
    && (forall x :: Reaches(aliases, b, x) && x in aliases ==> Distinct(aliases[x]))
    && (forall x, y, z ::
          Reaches(aliases, b, x) && Reaches(aliases, b, y) && IsAlias(aliases, x, z) && IsAlias(aliases, y, z) ==>
            x == y)
    && (forall x :: Reaches(aliases, b, x) ==> !IsAlias(aliases, x, b))
  }

  /** No base the aliases lead to has the endpoint. */
  ghost predicate Free(aliases: AliasMap, routes: Routes, b: Base, e: Endpoint) {
    forall x :: Reaches(aliases, b, x) ==> !Has(routes, x, e)
  }

  /** A base that is reached is the first of the path, or an alias of one that is reached. */
  lemma LastStep(aliases: AliasMap, path: seq<Base>, b: Base, x: Base) returns (y: Base)
    requires Joins(aliases, path, b, x) && |path| > 1
    ensures Joins(aliases, path[..|path| - 1], b, y) && IsAlias(aliases, y, x)
  {
    var n := |path| - 1;
    y := path[n - 1];
    assert IsAlias(aliases, path[n - 1], path[n]);
    assert IsPath(aliases, path[..n]);
  }

  lemma ReachesChild(aliases: AliasMap, b: Base, a: Base, x: Base)
    requires IsAlias(aliases, b, a) && Reaches(aliases, a, x)
    ensures Reaches(aliases, b, x)
  {
    hide Reaches;
    assert ReachesFrom(aliases, aliases[b], x);
    ReachesOn(aliases, b, x);
  }

  lemma ChildNotAbove(aliases: AliasMap, b: Base, a: Base)
    requires Tree(aliases, b) && IsAlias(aliases, b, a)
    ensures !Reaches(aliases, a, b)
  {
    if Reaches(aliases, a, b) {
      var path :| Joins(aliases, path, a, b);
      if |path| > 1 {
        var y := LastStep(aliases, path, a, b);
        assert Reaches(aliases, a, y);
        ReachesChild(aliases, b, a, y);
      } else {
        ReachesSelf(aliases, b);
      }
    }
  }

  lemma ChildTree(aliases: AliasMap, b: Base, a: Base)
    requires Tree(aliases, b) && IsAlias(aliases, b, a)
    ensures Tree(aliases, a)
  {
    hide Reaches;
    ReachesSelf(aliases, b);
    ChildNotAbove(aliases, b, a);
    forall x | Reaches(aliases, a, x) ensures Reaches(aliases, b, x) { ReachesChild(aliases, b, a, x); }
    forall x | Reaches(aliases, a, x) ensures !IsAlias(aliases, x, a) {
      assert IsAlias(aliases, x, a) ==> x == b;
    }
  }

  /** Nothing is reached from two aliases of one base. */
  lemma {:induction false} Apart(aliases: AliasMap, b: Base, a1: Base, a2: Base, p1: seq<Base>, p2: seq<Base>, x: Base)
    requires Tree(aliases, b) && IsAlias(aliases, b, a1) && IsAlias(aliases, b, a2)
    requires Joins(aliases, p1, a1, x) && Joins(aliases, p2, a2, x)
    ensures a1 == a2
    decreases |p1|
  {
    ReachesSelf(aliases, b);
    ChildNotAbove(aliases, b, a1);
    ChildNotAbove(aliases, b, a2);
    if |p1| > 1 {
      var y1 := LastStep(aliases, p1, a1, x);
      assert Reaches(aliases, a1, y1);
      ReachesChild(aliases, b, a1, y1);
      if |p2| > 1 {
        var y2 := LastStep(aliases, p2, a2, x);
        assert Reaches(aliases, a2, y2);
        ReachesChild(aliases, b, a2, y2);
        Apart(aliases, b, a1, a2, p1[..|p1| - 1], p2[..|p2| - 1], y1);
      }
    } else if |p2| > 1 {
      var y2 := LastStep(aliases, p2, a2, x);
      assert Reaches(aliases, a2, y2);
      ReachesChild(aliases, b, a2, y2);
    }
  }

  /** Adding an endpoint does not fail where the aliases lead to a tree of bases without it. */
  lemma {:induction false} ForceAddOk(known: set<Base>, aliases: AliasMap, routes: Routes, b: Base, e: Endpoint,
                                      h: Handler)
    requires Closes(known, aliases) && b in known && Tree(aliases, b) && Free(aliases, routes, b, e)
    ensures ForceAdd(known, aliases, routes, b, e, h).1
    decreases Lacking(known, routes, e), 0
  {
    hide Tree, Reaches;
    ReachesSelf(aliases, b);
    var routes1 := Put(routes, b, e, h);
    assert b in Lacking(known, routes, e) && b !in Lacking(known, routes1, e);
    if b in aliases {
      assert forall a :: a in aliases[b] ==> IsAlias(aliases, b, a);
      forall x | ReachesFrom(aliases, aliases[b], x) ensures !Has(routes1, x, e) {
        ReachesOn(aliases, b, x);
        NotBelow(aliases, b, x);
      }
      TreeLists(aliases, b);
      ForceEachOk(known, aliases, routes1, b, aliases[b], e, h);
    }
  }

  lemma TreeLists(aliases: AliasMap, b: Base)
    requires Tree(aliases, b) && b in aliases
    ensures Distinct(aliases[b])
  {
    ReachesSelf(aliases, b);
  }

  lemma NotBelow(aliases: AliasMap, b: Base, x: Base)
    requires Tree(aliases, b) && b in aliases && ReachesFrom(aliases, aliases[b], x)
    ensures x != b
  {
    var a :| a in aliases[b] && Reaches(aliases, a, x);
    ChildNotAbove(aliases, b, a);
  }

  lemma {:induction false} ForceEachOk(known: set<Base>, aliases: AliasMap, routes: Routes, b: Base, list: seq<Base>,
                                       e: Endpoint, h: Handler)
    requires Closes(known, aliases) && (forall a :: a in list ==> a in known)
    requires Tree(aliases, b) && Distinct(list) && forall a :: a in list ==> IsAlias(aliases, b, a)
    requires forall x :: ReachesFrom(aliases, list, x) ==> !Has(routes, x, e)
    ensures ForceEach(known, aliases, routes, list, e, h).1
    decreases Lacking(known, routes, e), 1, |list|
  {
    hide Tree, Reaches, ForceAdd;
    if list != [] {
      var n := |list| - 1;
      forall x | ReachesFrom(aliases, list[..n], x) ensures ReachesFrom(aliases, list, x) {
        var a :| a in list[..n] && Reaches(aliases, a, x);
        assert a in list;
      }
      ForceEachOk(known, aliases, routes, b, list[..n], e, h);
      var routes1 := ForceEach(known, aliases, routes, list[..n], e, h).0;
      ChildTree(aliases, b, list[n]);
      forall x | Reaches(aliases, list[n], x) ensures !Has(routes1, x, e) {
        assert ReachesFrom(aliases, list, x);
        if Has(routes1, x, e) {
          ForceEachReaches(known, aliases, routes, list[..n], e, h, x);
          SiblingsApart(aliases, b, list, x);
        }
      }
      ForceAddOk(known, aliases, routes1, list[n], e, h);
    }
  }

  lemma SiblingsApart(aliases: AliasMap, b: Base, list: seq<Base>, x: Base)
    requires Tree(aliases, b) && list != [] && Distinct(list) && forall a :: a in list ==> IsAlias(aliases, b, a)
    requires ReachesFrom(aliases, list[..|list| - 1], x)
    ensures !Reaches(aliases, list[|list| - 1], x)
  {
    var n := |list| - 1;
    var a :| a in list[..n] && Reaches(aliases, a, x);
    var i :| 0 <= i < n && list[..n][i] == a;
    assert list[i] != list[n] && list[i] in list && list[n] in list;
    var p1 :| Joins(aliases, p1, a, x);
    forall p2 ensures !Joins(aliases, p2, list[n], x) {
      if Joins(aliases, p2, list[n], x) { Apart(aliases, b, a, list[n], p1, p2, x); }
    }
  }

  /** If nothing fails, everything the aliases lead to got the endpoint. */
  lemma {:induction false} ForceAddGets(known: set<Base>, aliases: AliasMap, routes: Routes, b: Base, e: Endpoint,
                                        h: Handler)
    requires Closes(known, aliases) && b in known && ForceAdd(known, aliases, routes, b, e, h).1
    ensures Free(aliases, routes, b, e)
    decreases Lacking(known, routes, e), 0
  {
    hide Reaches;
    var routes1 := Put(routes, b, e, h);
    assert b in Lacking(known, routes, e) && b !in Lacking(known, routes1, e);
    if b in aliases {
      assert forall a :: a in aliases[b] ==> IsAlias(aliases, b, a);
      ForceEachGets(known, aliases, routes1, aliases[b], e, h);
    }
    PutExtends(routes, b, e, h);
    forall x | Reaches(aliases, b, x) ensures !Has(routes, x, e) {
      if x != b { FirstStep(aliases, b, x); }
    }
  }

  lemma FirstStep(aliases: AliasMap, b: Base, x: Base)
    requires Reaches(aliases, b, x) && x != b
    ensures b in aliases && ReachesFrom(aliases, aliases[b], x)
  {
    var path :| Joins(aliases, path, b, x);
    assert IsAlias(aliases, path[0], path[1]);
    forall i | 0 <= i < |path[1..]| - 1 ensures IsAlias(aliases, path[1..][i], path[1..][i + 1]) {
      assert IsAlias(aliases, path[i + 1], path[i + 2]);
    }
    assert Joins(aliases, path[1..], path[1], x);
    assert Reaches(aliases, path[1], x);
  }

  lemma {:induction false} ForceEachGets(known: set<Base>, aliases: AliasMap, routes: Routes, list: seq<Base>,
                                         e: Endpoint, h: Handler)
    requires Closes(known, aliases) && (forall a :: a in list ==> a in known)
    requires ForceEach(known, aliases, routes, list, e, h).1
    ensures forall x :: ReachesFrom(aliases, list, x) ==> !Has(routes, x, e)
    decreases Lacking(known, routes, e), 1, |list|
  {
    hide Reaches, ForceAdd;
    if list != [] {
      var n := |list| - 1;
      ForceEachGets(known, aliases, routes, list[..n], e, h);
      ForceEachIs(known, aliases, routes, list[..n], e, h);
      var routes1 := ForceEach(known, aliases, routes, list[..n], e, h).0;
      ForceAddGets(known, aliases, routes1, list[n], e, h);
      forall x | ReachesFrom(aliases, list, x) ensures !Has(routes, x, e) {
        var a :| a in list && Reaches(aliases, a, x);
        if a == list[n] {
          assert !Has(routes1, x, e);
        } else {
          assert a in list[..n];
          assert ReachesFrom(aliases, list[..n], x);
        }
      }
    }
  }

  /**
   `AddRouter` succeeds only for a base that is not reserved and leads to no base with the endpoint, and then if what
   it leads to is a tree.
   */
  lemma AddRouterOk(st: State, b: Base, e: Endpoint, h: Handler)
    ensures AddRouter(st, b, e, h).1 ==> b !in st.reserved && Free(st.aliases, st.routes, b, e)
    ensures b !in st.reserved && Free(st.aliases, st.routes, b, e) && Tree(st.aliases, b) ==> AddRouter(st, b, e, h).1
  {
    hide ForceAdd, Tree, Free;
    if b !in st.reserved {
      var known := Known(st.aliases, {b});
      if ForceAdd(known, st.aliases, st.routes, b, e, h).1 { ForceAddGets(known, st.aliases, st.routes, b, e, h); }
      if Tree(st.aliases, b) && Free(st.aliases, st.routes, b, e) {
        ForceAddOk(known, st.aliases, st.routes, b, e, h);
      }
    }
  }

  // ---------- adding aliases ----------

  /** Spreading keeps what the aliases have, and gives the new aliases of the base all the endpoints in `order`. */
  lemma {:induction false} SpreadIs(known: set<Base>, aliases: AliasMap, routes: Routes, base: Base, list: seq<Base>,
                                    order: seq<Endpoint>)
    requires Closes(known, aliases) && (forall a :: a in list ==> a in known)
    requires base in aliases && forall a :: a in list ==> a in aliases[base]
    ensures var (routes', ok) := Spread(known, aliases, routes, base, list, order);
            && KeepsPresent(aliases, routes, routes')
            && (forall a, e :: a in list && e in order ==> PairPresent(routes', base, a, e))
            && (ok ==> KeepsClosed(aliases, routes, routes') &&
                       forall a, e :: a in list && e in order ==> PairClosed(routes', base, a, e))
  {
    hide PairClosed, PairPresent;
    if order != [] {
      var n := |order| - 1;
      SpreadIs(known, aliases, routes, base, list, order[..n]);
      var (routes1, ok1) := Spread(known, aliases, routes, base, list, order[..n]);
      var (routes', ok) := Spread(known, aliases, routes, base, list, order);
      SpreadStep(known, aliases, routes1, base, list, order[n], routes', ok1 && ok);
      assert forall a :: a in list ==> IsAlias(aliases, base, a);
      forall a, e | a in list && e in order
        ensures PairPresent(routes', base, a, e) && (ok ==> PairClosed(routes', base, a, e))
      {
        if e != order[n] { assert e in order[..n]; }
      }
    }
  }

  lemma SpreadStep(known: set<Base>, aliases: AliasMap, routes: Routes, base: Base, list: seq<Base>, e: Endpoint,
                   routes': Routes, ok: bool)
    requires Closes(known, aliases) && (forall a :: a in list ==> a in known)
    requires base in aliases && forall a :: a in list ==> a in aliases[base]
    requires !Has(routes, base, e) ==> routes' == routes
    requires Has(routes, base, e) ==>
             var r := ForceEach(known, aliases, routes, list, e, routes[base][e]); routes' == r.0 && (ok ==> r.1)
    ensures KeepsPresent(aliases, routes, routes') && forall a :: a in list ==> PairPresent(routes', base, a, e)
    ensures ok ==> KeepsClosed(aliases, routes, routes') && forall a :: a in list ==> PairClosed(routes', base, a, e)
  {
    hide ForceEach, PassedOn, PassedWith;
    if Has(routes, base, e) {
      ForceEachIs(known, aliases, routes, list, e, routes[base][e]);
      Keeps(aliases, routes, routes', e, routes[base][e]);
    }
  }

  lemma {:induction false} SpreadKeepsBase(known: set<Base>, aliases: AliasMap, routes: Routes, base: Base,
                                           list: seq<Base>, order: seq<Endpoint>, x: Endpoint)
    requires Closes(known, aliases) && forall a :: a in list ==> a in known
    requires forall e :: e in order ==> Has(routes, base, e)
    ensures var (routes', ok) := Spread(known, aliases, routes, base, list, order);
            && (Has(routes', base, x) <==> Has(routes, base, x))
            && (forall b, y :: Has(routes, b, y) ==> Has(routes', b, y))
  {
    hide Has;
    if order != [] {
      var n := |order| - 1;
      SpreadKeepsBase(known, aliases, routes, base, list, order[..n], x);
      var (routes1, ok1) := Spread(known, aliases, routes, base, list, order[..n]);
      assert Has(routes, base, order[n]) by { assert order[n] in order; }
      if Has(routes1, base, order[n]) {
        ForceEachIs(known, aliases, routes1, list, order[n], HandlerAt(routes1, base, order[n]));
      }
    }
  }

  function HandlerAt(routes: Routes, b: Base, e: Endpoint): (h: Handler)
    requires Has(routes, b, e)
    ensures h == routes[b][e]
  {
    routes[b][e]
  }

  lemma AddAliasKeeps(st: State, base: Base, list: seq<Base>, order: seq<Endpoint>)
    requires forall e :: e in order <==> Has(st.routes, base, e)
    ensures var (st', ok) := AddAlias(st, base, list, order);
            && (Present(st.aliases, st.routes) ==> Present(st'.aliases, st'.routes))
            && (ok && Closed(st.aliases, st.routes) ==> Closed(st'.aliases, st'.routes))
            && (ok ==> st'.aliases == st.aliases[base := Aliases(st, base) + list])
  {
    var (st', ok) := AddAlias(st, base, list, order);
    if !exists a :: a in list && a in st.reserved {
      var st1 := Aliased(st, base, list);
      var known := Known(st1.aliases, SetOf(list));
      assert st1.aliases[base] == Aliases(st, base) + list;
      SpreadIs(known, st1.aliases, st1.routes, base, list, order);
      if Present(st.aliases, st.routes) { NewAliasesPresent(st, base, list, order, st'); }
      if ok && Closed(st.aliases, st.routes) { NewAliasesClosed(st, base, list, order, st'); }
    }
  }

  lemma NewAliasesPresent(st: State, base: Base, list: seq<Base>, order: seq<Endpoint>, st': State)
    requires Present(st.aliases, st.routes) && forall e :: e in order <==> Has(st.routes, base, e)
    requires !(exists a :: a in list && a in st.reserved) && st' == AddAlias(st, base, list, order).0
    requires KeepsPresent(st'.aliases, st.routes, st'.routes)
    requires forall a, e :: a in list && e in order ==> PairPresent(st'.routes, base, a, e)
    ensures Present(st'.aliases, st'.routes)
  {
    hide Spread;
    var st1 := Aliased(st, base, list);
    forall b, a, e | IsAlias(st'.aliases, b, a) ensures PairPresent(st'.routes, b, a, e) {
      if b == base && a !in Aliases(st, base) {
        SpreadKeepsBase(Known(st1.aliases, SetOf(list)), st1.aliases, st1.routes, base, list, order, e);
      } else {
        assert IsAlias(st.aliases, b, a) && PairPresent(st.routes, b, a, e);
      }
    }
  }

  lemma NewAliasesClosed(st: State, base: Base, list: seq<Base>, order: seq<Endpoint>, st': State)
    requires Closed(st.aliases, st.routes) && forall e :: e in order <==> Has(st.routes, base, e)
    requires !(exists a :: a in list && a in st.reserved) && st' == AddAlias(st, base, list, order).0
    requires KeepsClosed(st'.aliases, st.routes, st'.routes)
    requires forall a, e :: a in list && e in order ==> PairClosed(st'.routes, base, a, e)
    ensures Closed(st'.aliases, st'.routes)
  {
    hide Spread;
    var st1 := Aliased(st, base, list);
    forall b, a, e | IsAlias(st'.aliases, b, a) ensures PairClosed(st'.routes, b, a, e) {
      if b == base && a !in Aliases(st, base) {
        SpreadKeepsBase(Known(st1.aliases, SetOf(list)), st1.aliases, st1.routes, base, list, order, e);
      } else {
        assert IsAlias(st.aliases, b, a) && PairClosed(st.routes, b, a, e);
      }
    }
  }

  // ---------- when new aliases keep the handlers the same ----------

  /** Nothing that has an endpoint loses it or gets another handler, and what is new is from the base. */
  ghost predicate FromBase(aliases: AliasMap, routes: Routes, routes': Routes, base: Base, list: seq<Base>) {
    && (forall b, x :: Has(routes, b, x) ==> HasWith(routes', b, x, routes[b][x]))
    && (forall b, x :: Gets(routes, routes', b, x) ==>
          Has(routes, base, x) && HasWith(routes', b, x, routes[base][x]) && ReachesFrom(aliases, list, b))
  }

  lemma {:induction false} SpreadFromBase(known: set<Base>, aliases: AliasMap, routes: Routes, base: Base,
                                          list: seq<Base>, order: seq<Endpoint>)
    requires Closes(known, aliases) && (forall a :: a in list ==> a in known)
    requires forall e :: e in order ==> Has(routes, base, e)
    ensures FromBase(aliases, routes, Spread(known, aliases, routes, base, list, order).0, base, list)
  {
    hide FromBase, ReachesFrom, Has;
    if order == [] {
      NothingSpread(aliases, routes, base, list);
    } else {
      var n := |order| - 1;
      SpreadFromBase(known, aliases, routes, base, list, order[..n]);
      var routes1 := Spread(known, aliases, routes, base, list, order[..n]).0;
      assert Has(routes, base, order[n]) by { assert order[n] in order; }
      SpreadOne(known, aliases, routes, routes1, base, list, order[n]);
    }
  }

  lemma NothingSpread(aliases: AliasMap, routes: Routes, base: Base, list: seq<Base>)
    ensures FromBase(aliases, routes, routes, base, list)
  {
  }

  lemma SpreadOne(known: set<Base>, aliases: AliasMap, routes: Routes, routes1: Routes, base: Base, list: seq<Base>,
                  e: Endpoint)
    requires Closes(known, aliases) && (forall a :: a in list ==> a in known)
    requires FromBase(aliases, routes, routes1, base, list) && Has(routes, base, e)
    ensures Has(routes1, base, e)
    ensures FromBase(aliases, routes, ForceEach(known, aliases, routes1, list, e, routes1[base][e]).0, base, list)
  {
    hide ReachesFrom, ForceEach;
    assert HasWith(routes1, base, e, routes[base][e]);
    var h := routes1[base][e];
    ForceEachIs(known, aliases, routes1, list, e, h);
    var routes2 := ForceEach(known, aliases, routes1, list, e, h).0;
    forall b, x | Gets(routes, routes2, b, x)
      ensures Has(routes, base, x) && HasWith(routes2, b, x, routes[base][x]) && ReachesFrom(aliases, list, b)
    {
      if Has(routes1, b, x) {
        assert Gets(routes, routes1, b, x);
      } else {
        assert x == e;
        ForceEachReaches(known, aliases, routes1, list, e, h, b);
      }
    }
  }

  /** For every endpoint of the base, nothing that the list leads to has it with another handler. */
  ghost predicate ListAgrees(aliases: AliasMap, routes: Routes, base: Base, list: seq<Base>) {
    forall x, e :: ReachesFrom(aliases, list, x) && Has(routes, base, e) && Has(routes, x, e) ==>
                     routes[x][e] == routes[base][e]
  }

  /**
   The handlers at the aliases stay the same exactly when an alias is refused or nothing that the new aliases lead to
   has an endpoint of the base with another handler.
   */
  lemma AddAliasClosesIff(st: State, base: Base, list: seq<Base>, order: seq<Endpoint>)
    requires Closed(st.aliases, st.routes) && forall e :: e in order <==> Has(st.routes, base, e)
    ensures var st' := AddAlias(st, base, list, order).0;
            Closed(st'.aliases, st'.routes) <==>
            (exists a :: a in list && a in st.reserved) ||
            ListAgrees(Aliased(st, base, list).aliases, st.routes, base, list)
  {
    hide Spread, Closed, ListAgrees, FromBase, Closes;
    if !exists a :: a in list && a in st.reserved {
      var st1, st' := Aliased(st, base, list), AddAlias(st, base, list, order).0;
      SpreadFromBase(Known(st1.aliases, SetOf(list)), st1.aliases, st.routes, base, list, order);
      if Closed(st'.aliases, st'.routes) {
        ClosedListAgrees(st, base, list, st');
      }
      if ListAgrees(st1.aliases, st.routes, base, list) {
        ClosedIsPresent(st.aliases, st.routes);
        AddAliasKeeps(st, base, list, order);
        ListAgreesCloses(st, base, list, st');
      }
    }
  }

  lemma ClosedIsPresent(aliases: AliasMap, routes: Routes)
    requires Closed(aliases, routes)
    ensures Present(aliases, routes)
  {
    forall b, a, e | IsAlias(aliases, b, a) ensures PairPresent(routes, b, a, e) {
      assert PairClosed(routes, b, a, e);
    }
  }

  lemma ClosedListAgrees(st: State, base: Base, list: seq<Base>, st': State)
    requires st'.aliases == Aliased(st, base, list).aliases && Closed(st'.aliases, st'.routes)
    requires FromBase(st'.aliases, st.routes, st'.routes, base, list)
    ensures ListAgrees(st'.aliases, st.routes, base, list)
  {
    hide Closed, ReachesFrom, Reaches;
    forall x, e | ReachesFrom(st'.aliases, list, x) && Has(st.routes, base, e) && Has(st.routes, x, e)
      ensures st.routes[x][e] == st.routes[base][e]
    {
      ReachesFromBase(st, base, list, x);
      var path := PathOf(st'.aliases, base, x);
      AlongPath(st'.aliases, st'.routes, path, e);
    }
  }

  lemma PathOf(aliases: AliasMap, b: Base, x: Base) returns (path: seq<Base>)
    requires Reaches(aliases, b, x)
    ensures Joins(aliases, path, b, x)
  {
    path :| Joins(aliases, path, b, x);
  }

  lemma ReachesFromBase(st: State, base: Base, list: seq<Base>, x: Base)
    requires ReachesFrom(Aliased(st, base, list).aliases, list, x)
    ensures Reaches(Aliased(st, base, list).aliases, base, x)
  {
    hide Reaches;
    var aliases := Aliased(st, base, list).aliases;
    var a :| a in list && Reaches(aliases, a, x);
    assert a in aliases[base] by { assert aliases[base] == Aliases(st, base) + list; }
    ReachesOn(aliases, base, x);
  }

  lemma ListAgreesCloses(st: State, base: Base, list: seq<Base>, st': State)
    requires st'.aliases == Aliased(st, base, list).aliases && Closed(st.aliases, st.routes)
    requires FromBase(st'.aliases, st.routes, st'.routes, base, list) && Present(st'.aliases, st'.routes)
    requires ListAgrees(st'.aliases, st.routes, base, list)
    ensures Closed(st'.aliases, st'.routes)
  {
    forall b, a, e | IsAlias(st'.aliases, b, a) ensures PairClosed(st'.routes, b, a, e) {
      assert PairPresent(st'.routes, b, a, e);
      if Has(st'.routes, b, e) { PairStaysClosed(st, base, list, st', b, a, e); }
    }
  }

  lemma PairStaysClosed(st: State, base: Base, list: seq<Base>, st': State, b: Base, a: Base, e: Endpoint)
    requires st'.aliases == Aliased(st, base, list).aliases && Closed(st.aliases, st.routes)
    requires FromBase(st'.aliases, st.routes, st'.routes, base, list) && ListAgrees(st'.aliases, st.routes, base, list)
    requires IsAlias(st'.aliases, b, a) && Has(st'.routes, b, e) && Has(st'.routes, a, e)
    ensures st'.routes[a][e] == st'.routes[b][e]
  {
    hide ReachesFrom;
    if Has(st.routes, b, e) {
      if IsAlias(st.aliases, b, a) {
        assert PairClosed(st.routes, b, a, e);
      } else {
        assert b == base && a in list;
        FromItself(st'.aliases, list, a);
      }
    } else {
      assert Gets(st.routes, st'.routes, b, e);
      FromNext(st'.aliases, list, b, a);
    }
    if !Has(st.routes, a, e) { assert Gets(st.routes, st'.routes, a, e); }
  }

  lemma FromItself(aliases: AliasMap, list: seq<Base>, a: Base)
    requires a in list
    ensures ReachesFrom(aliases, list, a)
  {
    ReachesSelf(aliases, a);
  }

  lemma FromNext(aliases: AliasMap, list: seq<Base>, x: Base, a: Base)
    requires ReachesFrom(aliases, list, x) && IsAlias(aliases, x, a)
    ensures ReachesFrom(aliases, list, a)
  {
    hide Reaches;
    var b :| b in list && Reaches(aliases, b, x);
    ReachesNext(aliases, b, x, a);
  }

  // ---------- when adding aliases does not fail ----------

  /** Spreading does not fail if the new aliases lead to a tree of bases without the endpoints of the base. */
  lemma {:induction false} SpreadOk(known: set<Base>, aliases: AliasMap, routes: Routes, base: Base, list: seq<Base>,
                                    order: seq<Endpoint>)
    requires Closes(known, aliases) && (forall a :: a in list ==> a in known) && Distinct(order)
    requires Tree(aliases, base) && Distinct(list) && forall a :: a in list ==> IsAlias(aliases, base, a)
    requires forall x, e :: ReachesFrom(aliases, list, x) && e in order ==> !Has(routes, x, e)
    ensures Spread(known, aliases, routes, base, list, order).1
    ensures forall x, e :: e !in order && Has(Spread(known, aliases, routes, base, list, order).0, x, e) ==>
                             Has(routes, x, e)
  {
    hide Tree, ReachesFrom, Has;
    if order != [] {
      var n := |order| - 1;
      assert order[n] !in order[..n];
      SpreadOk(known, aliases, routes, base, list, order[..n]);
      var routes1 := Spread(known, aliases, routes, base, list, order[..n]).0;
      if Has(routes1, base, order[n]) {
        var h := HandlerAt(routes1, base, order[n]);
        ForceEachOk(known, aliases, routes1, base, list, order[n], h);
        ForceEachIs(known, aliases, routes1, list, order[n], h);
      }
      assert forall e :: e in order[..n] ==> e in order;
    }
  }

  /** The endpoints of a base are run through once each. */
  lemma AddAliasOk(st: State, base: Base, list: seq<Base>, order: seq<Endpoint>)
    requires Distinct(order) && forall e :: e in order <==> Has(st.routes, base, e)
    ensures AddAlias(st, base, list, order).1 ==> forall a :: a in list ==> a !in st.reserved
    ensures (forall a :: a in list ==> a !in st.reserved) && Tree(Aliased(st, base, list).aliases, base) &&
            (forall x, e :: ReachesFrom(Aliased(st, base, list).aliases, list, x) && Has(st.routes, base, e) ==>
                              !Has(st.routes, x, e)) ==>
            AddAlias(st, base, list, order).1
  {
    var st1 := Aliased(st, base, list);
    assert st1.aliases[base] == Aliases(st, base) + list;
    hide Tree, ReachesFrom;
    if Tree(st1.aliases, base) && forall x, e :: ReachesFrom(st1.aliases, list, x) && Has(st.routes, base, e) ==>
                                                   !Has(st.routes, x, e) {
      TreeLists(st1.aliases, base);
      SuffixDistinct(Aliases(st, base), list);
      SpreadOk(Known(st1.aliases, SetOf(list)), st1.aliases, st1.routes, base, list, order);
    }
  }

  lemma SuffixDistinct(a: seq<Base>, b: seq<Base>)
    requires Distinct(a + b)
    ensures Distinct(b)
  {
    forall i, j | 0 <= i < j < |b| ensures b[i] != b[j] {
      assert (a + b)[|a| + i] != (a + b)[|a| + j];
    }
  }

  // ---------- what is reserved ----------

  /** An alias that was taken is refused from then on, as a base and as an alias, whatever else is asked for. */
  lemma TakenIsRefused(st: State, base: Base, list: seq<Base>, order: seq<Endpoint>, a: Base)
    requires (forall x :: x in list ==> x !in st.reserved) && a in list
    ensures var st' := AddAlias(st, base, list, order).0;
            && (forall x :: x in st'.reserved <==> x in st.reserved || x in list)
            && (forall e, h :: AddRouter(st', a, e, h) == (st', false))
            && (forall other, more, order' :: a in more ==> AddAlias(st', other, more, order') == (st', false))
  {
  }

  // ---------- histories ----------

  datatype Op =
    | OpRouter(base: Base, endpoint: Endpoint, handler: Handler)
    | OpAlias(base: Base, list: seq<Base>, order: seq<Endpoint>)

  function Step(st: State, op: Op): (State, bool) {
    match op
    case OpRouter(b, e, h) => AddRouter(st, b, e, h)
    case OpAlias(b, list, order) => AddAlias(st, b, list, order)
  }

  const START: State := State({}, map[], map[])

  function Run(ops: seq<Op>): State {
    if ops == [] then START else Step(Run(ops[..|ops| - 1]), ops[|ops| - 1]).0
  }

  /** The endpoints of the base are run through, each of them and no others. */
  ghost predicate OrderOk(st: State, op: Op) {
    op.OpAlias? ==> forall e :: e in op.order <==> Has(st.routes, op.base, e)
  }

  ghost predicate OrdersOk(ops: seq<Op>) {
    ops == [] || (OrdersOk(ops[..|ops| - 1]) && OrderOk(Run(ops[..|ops| - 1]), ops[|ops| - 1]))
  }

  /** No call of the history failed. */
  ghost predicate AllNil(ops: seq<Op>) {
    ops == [] || (AllNil(ops[..|ops| - 1]) && Step(Run(ops[..|ops| - 1]), ops[|ops| - 1]).1)
  }

  lemma {:induction false} RunKeeps(ops: seq<Op>)
    requires OrdersOk(ops)
    ensures Present(Run(ops).aliases, Run(ops).routes)
    ensures AllNil(ops) ==> Closed(Run(ops).aliases, Run(ops).routes)
  {
    hide AddRouter, AddAlias, Closed, Present;
    if ops == [] {
      StartClosed();
    } else {
      var st := Run(ops[..|ops| - 1]);
      RunKeeps(ops[..|ops| - 1]);
      match ops[|ops| - 1]
      case OpRouter(b, e, h) => AddRouterKeeps(st, b, e, h);
      case OpAlias(b, list, order) => AddAliasKeeps(st, b, list, order);
    }
  }

  /** The base was in the list of a call of `AddAlias` all of whose aliases were free. */
  ghost predicate Taken(ops: seq<Op>, b: Base) {
    ops != [] &&
    var init, op := ops[..|ops| - 1], ops[|ops| - 1];
    Taken(init, b) || (op.OpAlias? && b in op.list && forall a :: a in op.list ==> !Taken(init, a))
  }

  /** Some such call made it an alias of the base. */
  ghost predicate MadeAlias(ops: seq<Op>, b: Base, a: Base) {
    ops != [] &&
    var init, op := ops[..|ops| - 1], ops[|ops| - 1];
    || MadeAlias(init, b, a)
    || (op.OpAlias? && op.base == b && a in op.list && forall x :: x in op.list ==> !Taken(init, x))
  }

  /** After every history the reserved bases are the ones taken, and the aliases are the ones made. */
  lemma {:induction false} ReservedByHistory(ops: seq<Op>, b: Base, a: Base)
    ensures b in Run(ops).reserved <==> Taken(ops, b)
    ensures IsAlias(Run(ops).aliases, b, a) <==> MadeAlias(ops, b, a)
  {
    hide ForceAdd, Spread;
    if ops != [] {
      var init, op := ops[..|ops| - 1], ops[|ops| - 1];
      ReservedByHistory(init, b, a);
      if op.OpAlias? {
        forall x ensures x in Run(init).reserved <==> Taken(init, x) { ReservedByHistory(init, x, a); }
      }
    }
  }

  lemma StartClosed()
    ensures Closed(START.aliases, START.routes) && Present(START.aliases, START.routes)
  {
  }

  lemma {:induction false} AlongPath(aliases: AliasMap, routes: Routes, path: seq<Base>, e: Endpoint)
    requires IsPath(aliases, path)
    ensures Present(aliases, routes) ==> PairPresent(routes, path[0], path[|path| - 1], e)
    ensures Closed(aliases, routes) ==> PairClosed(routes, path[0], path[|path| - 1], e)
  {
    if |path| > 1 {
      var n := |path| - 1;
      assert IsPath(aliases, path[..n]);
      AlongPath(aliases, routes, path[..n], e);
      assert IsAlias(aliases, path[n - 1], path[n]);
      assert Present(aliases, routes) ==> PairPresent(routes, path[n - 1], path[n], e);
      assert Closed(aliases, routes) ==> PairClosed(routes, path[n - 1], path[n], e);
    }
  }

  /**
   After every history, whatever its calls returned, every endpoint of a base is at each direct and indirect alias;
   after a history without failures it has the same handler there.
   */
  lemma AliasesHaveEverything(ops: seq<Op>, path: seq<Base>, e: Endpoint)
    requires OrdersOk(ops) && IsPath(Run(ops).aliases, path) && Has(Run(ops).routes, path[0], e)
    ensures var routes := Run(ops).routes;
            && Has(routes, path[|path| - 1], e)
            && (AllNil(ops) ==> routes[path[|path| - 1]][e] == routes[path[0]][e])
  {
    hide Run, OrdersOk, AllNil;
    RunKeeps(ops);
    AlongPath(Run(ops).aliases, Run(ops).routes, path, e);
  }

  const CLASH: seq<Op> := [OpRouter("b", "x", 1), OpAlias("a", ["b"], []), OpRouter("a", "x", 2)]

  /** A failing call can leave an alias with another handler than the base it stands for. */
  lemma HandlersCanDiffer()
    ensures OrdersOk(CLASH) && !AllNil(CLASH)
    ensures IsAlias(Run(CLASH).aliases, "a", "b")
    ensures HasWith(Run(CLASH).routes, "a", "x", 2) && HasWith(Run(CLASH).routes, "b", "x", 1)
  {
    var st1 := State({}, map[], map["b" := map["x" := 1]]);
    var st2 := State({"b"}, map["a" := ["b"]], map["b" := map["x" := 1]]);
    assert Step(START, CLASH[0]) == (st1, true);
    assert Step(st1, CLASH[1]) == (st2, true) by {
      assert SetOf(["b"]) == {"b"} && Aliases(st1, "a") + ["b"] == ["b"];
      assert Aliased(st1, "a", ["b"]) == st2;
    }
    assert "a" in st2.aliases && st2.aliases["a"] == ["b"];
    Blocked(Known(st2.aliases, {"a"}), st2.aliases, st2.routes, "a", "b", "x", 2);
    assert CLASH[..2][..1] == CLASH[..1] && CLASH[..2][1] == CLASH[1] && CLASH[..1][..0] == [];
    assert OrdersOk([]);
    assert Run(CLASH[..1]) == st1 && OrdersOk(CLASH[..1]);
    assert Run(CLASH[..2]) == st2 && OrdersOk(CLASH[..2]);
  }

  const CLASH_OF_ALIAS: seq<Op> := [OpRouter("b", "x", 1), OpRouter("a", "x", 2), OpAlias("a", ["b"], ["x"])]

  /** So can a failing call that adds the alias. */
  lemma NewAliasCanDiffer()
    ensures OrdersOk(CLASH_OF_ALIAS) && !AllNil(CLASH_OF_ALIAS)
    ensures IsAlias(Run(CLASH_OF_ALIAS).aliases, "a", "b")
    ensures HasWith(Run(CLASH_OF_ALIAS).routes, "a", "x", 2) && HasWith(Run(CLASH_OF_ALIAS).routes, "b", "x", 1)
  {
    var ops := CLASH_OF_ALIAS;
    var st1 := State({}, map[], map["b" := map["x" := 1]]);
    var st2 := State({}, map[], map["b" := map["x" := 1], "a" := map["x" := 2]]);
    assert Step(START, ops[0]) == (st1, true);
    assert Step(st1, ops[1]) == (st2, true);
    var st3 := Aliased(st2, "a", ["b"]);
    assert Aliases(st2, "a") + ["b"] == ["b"];
    assert st3.aliases["a"] == ["b"];
    NothingSpreads(Known(st3.aliases, SetOf(["b"])), st3.aliases, st2.routes, "a", "b", "x");
    assert Step(st2, ops[2]) == (st3, false);
    assert ops[..2][..1] == ops[..1] && ops[..2][1] == ops[1] && ops[..1][..0] == [];
    assert OrdersOk([]);
    assert Run(ops[..1]) == st1 && OrdersOk(ops[..1]);
    assert Run(ops[..2]) == st2 && OrdersOk(ops[..2]);
  }

  lemma NothingSpreads(known: set<Base>, aliases: AliasMap, routes: Routes, base: Base, a: Base, e: Endpoint)
    requires Closes(known, aliases) && a in known && Has(routes, base, e) && Has(routes, a, e)
    ensures Spread(known, aliases, routes, base, [a], [e]) == (routes, false)
  {
    var h := routes[base][e];
    assert [a][..0] == [] && [e][..0] == [];
    assert ForceEach(known, aliases, routes, [], e, h) == (routes, true);
    assert ForceAdd(known, aliases, routes, a, e, h) == (routes, false);
    assert Spread(known, aliases, routes, base, [a], []) == (routes, true);
  }

  lemma Blocked(known: set<Base>, aliases: AliasMap, routes: Routes, b: Base, a: Base, e: Endpoint, h: Handler)
    requires Closes(known, aliases) && b in known && b in aliases && aliases[b] == [a]
    requires !Has(routes, b, e) && Has(routes, a, e)
    ensures ForceAdd(known, aliases, routes, b, e, h) == (Put(routes, b, e, h), false)
  {
    var routes1 := Put(routes, b, e, h);
    assert IsAlias(aliases, b, a);
    assert ForceEach(known, aliases, routes1, [], e, h) == (routes1, true);
    assert [a][..0] == [];
    assert ForceAdd(known, aliases, routes1, a, e, h) == (routes1, false);
  }
}
