/**
 * The document database as in-memory collections, each in natural
 * (insertion) order. Customers matter here only as the set of ids a sale may
 * reference.
 */
module Store {
  import opened Json
  import opened ItemModel
  import opened SaleModel
  import opened UserModel

  class Database {
    var items: seq<Item>
    var customers: set<Id>
    var sales: seq<Sale>
    var users: seq<User>

    /** The schema-level invariants of every collection. */
    ghost predicate Valid()
      reads this
    {
      ItemTableValid(items) && SaleTableValid(sales) && UserTableValid(users)
    }

    constructor (customers: set<Id>)
      ensures Valid()
      ensures this.items == [] && this.customers == customers && this.sales == [] && this.users == []
    {
      this.items := [];
      this.customers := customers;
      this.sales := [];
      this.users := [];
    }
  }
}
