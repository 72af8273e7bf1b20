/**
 * The sale router (backend/routes/saleRoutes.js): every route behind
 * `protect` and none behind a role guard; `/stats/summary` registered
 * first; no route deletes a sale.
 */
module SaleRoutes {
  import opened Wrappers
  import opened Json
  import opened UserModel
  import opened AuthMiddleware
  import opened Router

  const Routes: seq<Route> := [
    Route(Get, [Lit("stats"), Lit("summary")], None, GetSalesStats),
    Route(Get, [], None, GetSales),
    Route(Post, [], None, CreateSale),
    Route(Get, [Param("id")], None, GetSale),
    Route(Put, [Param("id")], None, UpdateSale)
  ]

  /** No role restriction: whatever the role, the router never answers 403, only 401 from `protect`. */
  lemma AnyRoleMaySell(verb: Verb, path: seq<string>, header: Option<string>, verify: string -> Option<Id>, users: seq<User>)
    ensures var d := Serve(Routes, verb, path, header, verify, users);
      d.Refused? ==> ProtectSpec(header, verify, users).Refuse? && d.response.httpStatus == 401
    ensures var d := Serve(Routes, verb, path, header, verify, users);
      ProtectSpec(header, verify, users).Pass? ==> d.Handled? || d.NoRoute?
  {
    assert forall k :: 0 <= k < |Routes| ==> Routes[k].roles.None?;
    UnguardedRouter(Routes, verb, path, header, verify, users);
  }

  /** There is no DELETE route: a delete never reaches a handler. */
  lemma NoDelete(path: seq<string>, header: Option<string>, verify: string -> Option<Id>, users: seq<User>)
    ensures !Serve(Routes, Delete, path, header, verify, users).Handled?
  {
    assert forall k :: 0 <= k < |Routes| ==> Routes[k].verb != Delete;
    UnregisteredVerb(Routes, Delete, path, header, verify, users);
  }

  /** `GET /stats/summary` reaches the statistics. */
  lemma StatsDispatch(header: Option<string>, verify: string -> Option<Id>, users: seq<User>)
    requires ProtectSpec(header, verify, users).Pass?
    ensures Serve(Routes, Get, ["stats", "summary"], header, verify, users) == Handled(GetSalesStats, ProtectSpec(header, verify, users).user)
  {
    FirstMatchDecides(Routes, 0, Get, ["stats", "summary"], header, verify, users);
  }

  /** `GET /stats` alone is taken by `/:id` and read as a sale id. */
  lemma StatsAloneIsAnId(header: Option<string>, verify: string -> Option<Id>, users: seq<User>)
    requires ProtectSpec(header, verify, users).Pass?
    ensures Serve(Routes, Get, ["stats"], header, verify, users) == Handled(GetSale, ProtectSpec(header, verify, users).user)
  {
    assert |Routes[0].pattern| == 2;
    assert forall j :: 1 <= j < 3 ==> !PathMatches(Routes[j].pattern, ["stats"]);
    FirstMatchDecides(Routes, 3, Get, ["stats"], header, verify, users);
  }
}
