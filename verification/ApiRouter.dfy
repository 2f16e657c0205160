/** The API router as programmed: route tables changed in place by a recursive method. */
module ApiRouting {
  import opened Results
  import opened Router

  datatype Error = UnknownBaseURL | UnknownEndpoint

  class ApiRouter {
    var reservedRoutes: set<Base>
    var aliases: AliasMap
    var routes: Routes

    ghost function Now(): State
      reads this
    {
      State(reservedRoutes, aliases, routes)
    }

    constructor ()
      ensures Now() == START
    {
      reservedRoutes, aliases, routes := {}, map[], map[];
    }

    method GetHandler(b: Base, e: Endpoint) returns (r: Result<Handler, Error>)
      ensures r.Ok? <==> Has(routes, b, e)
      ensures r.Ok? ==> r.value == routes[b][e]
      ensures r.Err? ==> r.error == if b in routes then UnknownEndpoint else UnknownBaseURL
    {
      if b !in routes { return Err(UnknownBaseURL); }
      if e !in routes[b] { return Err(UnknownEndpoint); }
      return Ok(routes[b][e]);
    }

    /** Ends on every alias graph: each call adds the endpoint to a known base that lacked it. */
    method ForceAddRouter(b: Base, e: Endpoint, h: Handler, ghost known: set<Base>) returns (ok: bool)
      requires Closes(known, aliases) && b in known
      modifies this`routes
      ensures (routes, ok) == ForceAdd(known, aliases, old(routes), b, e, h)
      decreases Lacking(known, routes, e), 0
    {
      var endpoints := if b in routes then routes[b] else map[];
      if e in endpoints { return false; }
      endpoints := endpoints[e := h];
      routes := routes[b := endpoints];
      assert b in Lacking(known, old(routes), e) && b !in Lacking(known, routes, e);
      ghost var put := routes;
      assert put == Put(old(routes), b, e, h);
      ok := true;
      if b in aliases {
        var list := aliases[b];
        forall a | a in list ensures a in known { assert IsAlias(aliases, b, a); }
        for i := 0 to |list|
          invariant (routes, ok) == ForceEach(known, aliases, put, list[..i], e, h)
        {
          assert list[..i + 1][..i] == list[..i];
          var innerOk := ForceAddRouter(list[i], e, h, known);
          ok := ok && innerOk;
        }
        assert list[..|list|] == list;
      }
    }

    method AddRouter(b: Base, e: Endpoint, h: Handler) returns (ok: bool)
      modifies this
      ensures (Now(), ok) == Router.AddRouter(old(Now()), b, e, h)
    {
      if b in reservedRoutes { return false; }
      ok := ForceAddRouter(b, e, h, Known(aliases, {b}));
    }

    /** `order` is how the endpoints of the base happen to be run through. */
    method AddAlias(base: Base, list: seq<Base>, order: seq<Endpoint>) returns (ok: bool)
      requires forall e :: e in order <==> Has(routes, base, e)
      modifies this
      ensures (Now(), ok) == Router.AddAlias(old(Now()), base, list, order)
    {
      for i := 0 to |list|
        invariant forall j :: 0 <= j < i ==> list[j] !in reservedRoutes
      {
        if list[i] in reservedRoutes { return false; }
      }
      ghost var st := Now();
      for i := 0 to |list|
        invariant reservedRoutes == st.reserved + SetOf(list[..i])
        invariant aliases == st.aliases && routes == st.routes
      {
        assert list[..i + 1] == list[..i] + [list[i]];
        assert SetOf(list[..i + 1]) == SetOf(list[..i]) + {list[i]};
        reservedRoutes := reservedRoutes + {list[i]};
      }
      assert list[..|list|] == list;
      aliases := aliases[base := (if base in aliases then aliases[base] else []) + list];
      assert Now() == Aliased(st, base, list);
      ghost var known := Known(aliases, SetOf(list));
      ok := true;
      for i := 0 to |order|
        invariant reservedRoutes == Aliased(st, base, list).reserved && aliases == Aliased(st, base, list).aliases
        invariant (routes, ok) == Spread(known, aliases, st.routes, base, list, order[..i])
      {
        assert order[..i + 1][..i] == order[..i];
        SpreadKeepsBase(known, aliases, st.routes, base, list, order[..i], order[i]);
        assert Has(st.routes, base, order[i]);
        var allOk := ForceAddEach(list, order[i], routes[base][order[i]], known);
        ok := ok && allOk;
      }
      assert order[..|order|] == order;
    }

    /** One endpoint for each of the aliases. */
    method ForceAddEach(list: seq<Base>, e: Endpoint, h: Handler, ghost known: set<Base>) returns (ok: bool)
      requires Closes(known, aliases) && forall a :: a in list ==> a in known
      modifies this`routes
      ensures (routes, ok) == ForceEach(known, aliases, old(routes), list, e, h)
    {
      ok := true;
      for i := 0 to |list|
        invariant (routes, ok) == ForceEach(known, aliases, old(routes), list[..i], e, h)
      {
        assert list[..i + 1][..i] == list[..i];
        var innerOk := ForceAddRouter(list[i], e, h, known);
        ok := ok && innerOk;
      }
      assert list[..|list|] == list;
    }
  }
}
