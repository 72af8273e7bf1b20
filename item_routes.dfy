/**
 * The item router (backend/routes/itemRoutes.js), mounted under the items
 * path: every route behind `protect`, the writes also behind
 * `authorize('admin')`, and `/low-stock` registered before `/:id`.
 */
module ItemRoutes {
  import opened Wrappers
  import opened Json
  import opened UserModel
  import opened AuthMiddleware
  import opened Router

  const Routes: seq<Route> := [
    Route(Get, [Lit("low-stock")], None, GetLowStockItems),
    Route(Get, [], None, GetItems),
    Route(Post, [], Some(["admin"]), CreateItem),
    Route(Get, [Param("id")], None, GetItem),
    Route(Put, [Param("id")], Some(["admin"]), UpdateItem),
    Route(Delete, [Param("id")], Some(["admin"]), DeleteItem)
  ]

  /** Creating, updating and deleting items reach their handlers only for an authenticated admin. */
  lemma WritesNeedAdmin(verb: Verb, path: seq<string>, header: Option<string>, verify: string -> Option<Id>, users: seq<User>)
    ensures var d := Serve(Routes, verb, path, header, verify, users);
      d.Handled? && d.handler in {CreateItem, UpdateItem, DeleteItem} ==> d.user.role == "admin"
  {
    assert forall k :: 0 <= k < |Routes| && Routes[k].handler in {CreateItem, UpdateItem, DeleteItem} ==>
      Routes[k].roles == Some(["admin"]);
    GuardedHandlers(Routes, {CreateItem, UpdateItem, DeleteItem}, "admin", verb, path, header, verify, users);
  }

  /** Reading needs authentication only: any role that passes `protect` reaches the list and the low-stock query. */
  lemma ListsNeedAuthenticationOnly(header: Option<string>, verify: string -> Option<Id>, users: seq<User>)
    requires ProtectSpec(header, verify, users).Pass?
    ensures var u := ProtectSpec(header, verify, users).user;
      && Serve(Routes, Get, [], header, verify, users) == Handled(GetItems, u)
      && Serve(Routes, Get, ["low-stock"], header, verify, users) == Handled(GetLowStockItems, u)
  {
    assert !Takes(Routes[0], Get, []);
    FirstMatchDecides(Routes, 1, Get, [], header, verify, users);
    FirstMatchDecides(Routes, 0, Get, ["low-stock"], header, verify, users);
  }

  /** Any role that passes `protect` reads a single item by id; `low-stock` is the one segment that is not an id. */
  lemma ItemReadNeedsAuthenticationOnly(id: string, header: Option<string>, verify: string -> Option<Id>, users: seq<User>)
    requires ProtectSpec(header, verify, users).Pass?
    requires id != "" && id != "low-stock"
    ensures Serve(Routes, Get, [id], header, verify, users) == Handled(GetItem, ProtectSpec(header, verify, users).user)
  {
    assert Routes[0].pattern[0] == Lit("low-stock") && [id][0] == id;
    assert !PathMatches(Routes[0].pattern, [id]);
    assert |Routes[1].pattern| == 0 && Routes[2].verb == Post;
    FirstMatchDecides(Routes, 3, Get, [id], header, verify, users);
  }

  /**
   * `GET /low-stock` goes to the low-stock handler although `/:id` would take
   * it too, because it is registered first.
   */
  lemma LowStockBeforeId(header: Option<string>, verify: string -> Option<Id>, users: seq<User>)
    ensures PathMatches(Routes[3].pattern, ["low-stock"])
    ensures var d := Serve(Routes, Get, ["low-stock"], header, verify, users);
      d.Handled? ==> d.handler == GetLowStockItems
  {
    if ProtectSpec(header, verify, users).Pass? {
      FirstMatchDecides(Routes, 0, Get, ["low-stock"], header, verify, users);
    }
  }

  /** A non-admin that passes `protect` gets a 403 when creating an item. */
  lemma NonAdminCreateRefused(header: Option<string>, verify: string -> Option<Id>, users: seq<User>)
    requires ProtectSpec(header, verify, users).Pass? && ProtectSpec(header, verify, users).user.role != "admin"
    ensures var d := Serve(Routes, Post, [], header, verify, users);
      d.Refused? && d.response.httpStatus == 403
  {
    assert forall j :: 0 <= j < 2 ==> Routes[j].verb != Post;
    FirstMatchDecides(Routes, 2, Post, [], header, verify, users);
  }

  /** A non-admin that passes `protect` gets a 403 when updating an item. */
  lemma NonAdminUpdateRefused(id: string, header: Option<string>, verify: string -> Option<Id>, users: seq<User>)
    requires ProtectSpec(header, verify, users).Pass? && ProtectSpec(header, verify, users).user.role != "admin"
    requires id != ""
    ensures var d := Serve(Routes, Put, [id], header, verify, users);
      d.Refused? && d.response.httpStatus == 403
  {
    assert forall j :: 0 <= j < 4 ==> Routes[j].verb != Put;
    FirstMatchDecides(Routes, 4, Put, [id], header, verify, users);
  }

  /** A non-admin that passes `protect` gets a 403 when deleting an item. */
  lemma NonAdminDeleteRefused(id: string, header: Option<string>, verify: string -> Option<Id>, users: seq<User>)
    requires ProtectSpec(header, verify, users).Pass? && ProtectSpec(header, verify, users).user.role != "admin"
    requires id != ""
    ensures var d := Serve(Routes, Delete, [id], header, verify, users);
      d.Refused? && d.response.httpStatus == 403
  {
    assert forall j :: 0 <= j < 5 ==> Routes[j].verb != Delete;
    FirstMatchDecides(Routes, 5, Delete, [id], header, verify, users);
  }
}
