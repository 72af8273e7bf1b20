/**
 * Express routing as the item and sale routers use it: `router.use(protect)`
 * runs before any route is looked at, routes are tried in the order they
 * were registered, and a route may put `authorize(...roles)` before its
 * handler.
 */
module Router {
  import opened Wrappers
  import opened Json
  import opened Tables
  import opened Responses
  import opened UserModel
  import opened AuthMiddleware

  datatype Verb = Get | Post | Put | Delete | Patch

  /** A segment of a route path: a literal, or a parameter such as `:id`, which takes any non-empty segment. */
  datatype Segment = Lit(text: string) | Param(name: string)

  /** The controller functions the two routers mount. */
  datatype Handler =
    | GetItems | GetLowStockItems | GetItem | CreateItem | UpdateItem | DeleteItem
    | GetSales | GetSale | CreateSale | UpdateSale | GetSalesStats

  /** One registration: verb, path within the router, the roles of an `authorize` guard if there is one, and the handler. */
  datatype Route = Route(verb: Verb, pattern: seq<Segment>, roles: Option<seq<string>>, handler: Handler)

  predicate SegmentMatches(p: Segment, s: string) {
    if p.Lit? then s == p.text else s != ""
  }

  /** Whether a route's pattern takes a request path, given as its segments. */
  predicate PathMatches(pattern: seq<Segment>, path: seq<string>) {
    |pattern| == |path| && forall i :: 0 <= i < |path| ==> SegmentMatches(pattern[i], path[i])
  }

  /** Whether a route is registered for the verb and takes the path. */
  predicate Takes(r: Route, verb: Verb, path: seq<string>) {
    r.verb == verb && PathMatches(r.pattern, path)
  }

  function Handles(verb: Verb, path: seq<string>): Route -> bool {
    (r: Route) => Takes(r, verb, path)
  }

  /** What the router does with a request: answers it itself, hands it to a handler with the user, or passes it on unmatched. */
  datatype Dispatch = Refused(response: Response) | Handled(handler: Handler, user: User) | NoRoute

  /**
   * A request through a router: `protect` first, then the first route that
   * takes the verb and path, then that route's role guard.
   */
  function Serve(routes: seq<Route>, verb: Verb, path: seq<string>, header: Option<string>, verify: string -> Option<Id>, users: seq<User>): (d: Dispatch)
    ensures ProtectSpec(header, verify, users).Refuse? ==> d == Refused(ProtectSpec(header, verify, users).response)
    ensures d.Handled? ==> ProtectSpec(header, verify, users) == Pass(d.user)
    ensures d.NoRoute? <==>
      ProtectSpec(header, verify, users).Pass? && forall k :: 0 <= k < |routes| ==> !Takes(routes[k], verb, path)
    ensures d.Handled? ==>
      exists k :: 0 <= k < |routes| && Takes(routes[k], verb, path) && routes[k].handler == d.handler
        && (forall j :: 0 <= j < k ==> !Takes(routes[j], verb, path))
        && (routes[k].roles.Some? ==> d.user.role in routes[k].roles.value)
  {
    match ProtectSpec(header, verify, users)
    case Refuse(r) => Refused(r)
    case Pass(u) =>
      match FirstIndex(routes, Handles(verb, path))
      case None => NoRoute
      case Some(k) =>
        var route := routes[k];
        if route.roles.None? then Handled(route.handler, u)
        else
          match Authorize(route.roles.value, u)
          case Refuse(r) => Refused(r)
          case Pass(_) => Handled(route.handler, u)
  }

  /**
   * Once `protect` lets a request through, the first matching route decides:
   * its handler runs exactly when the route has no guard or lists the role.
   */
  lemma FirstMatchDecides(routes: seq<Route>, k: nat, verb: Verb, path: seq<string>, header: Option<string>, verify: string -> Option<Id>, users: seq<User>)
    requires k < |routes| && Takes(routes[k], verb, path)
    requires forall j :: 0 <= j < k ==> !Takes(routes[j], verb, path)
    requires ProtectSpec(header, verify, users).Pass?
    ensures var u := ProtectSpec(header, verify, users).user;
      var d := Serve(routes, verb, path, header, verify, users);
      && (routes[k].roles.None? || u.role in routes[k].roles.value ==> d == Handled(routes[k].handler, u))
      && (routes[k].roles.Some? && u.role !in routes[k].roles.value ==> d.Refused? && d.response.httpStatus == 403)
  {
    assert FirstIndex(routes, Handles(verb, path)) == Some(k);
  }

  /** A router whose routes for some handlers all carry the same one-role guard hands those handlers only users of that role. */
  lemma GuardedHandlers(routes: seq<Route>, hs: set<Handler>, role: string, verb: Verb, path: seq<string>, header: Option<string>, verify: string -> Option<Id>, users: seq<User>)
    requires forall k :: 0 <= k < |routes| && routes[k].handler in hs ==> routes[k].roles == Some([role])
    ensures var d := Serve(routes, verb, path, header, verify, users);
      d.Handled? && d.handler in hs ==> d.user.role == role
  {
  }

  /** A router without role guards refuses only what `protect` refuses. */
  lemma UnguardedRouter(routes: seq<Route>, verb: Verb, path: seq<string>, header: Option<string>, verify: string -> Option<Id>, users: seq<User>)
    requires forall k :: 0 <= k < |routes| ==> routes[k].roles.None?
    ensures var d := Serve(routes, verb, path, header, verify, users);
      d.Refused? <==> ProtectSpec(header, verify, users).Refuse?
  {
  }

  /** A verb no route registers never reaches a handler. */
  lemma UnregisteredVerb(routes: seq<Route>, verb: Verb, path: seq<string>, header: Option<string>, verify: string -> Option<Id>, users: seq<User>)
    requires forall k :: 0 <= k < |routes| ==> routes[k].verb != verb
    ensures !Serve(routes, verb, path, header, verify, users).Handled?
  {
  }
}
