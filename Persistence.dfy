/**
 * The database the three services share: one table per entity, each a map
 * from primary key to row. `save` puts a row under its key (inserting or
 * overwriting, as JPA's merge does) and `delete` removes it; the services
 * reassign these maps.
 */
module Persistence {

  import opened Entities

  class Database {
    var users: map<string, User>
    var roles: map<int, Role>
    var categories: map<string, Category>
    var products: map<string, Product>

    /** Every row is filed under its own primary key. */
    ghost predicate Valid()
      reads this
    {
      && (forall id :: id in users ==> users[id].id == id)
      && (forall id :: id in roles ==> roles[id].roleId == id)
      && KeyedById(categories)
      && (forall id :: id in products ==> products[id].id == id)
    }

    /** A database holding only the seeded roles, each under its id. */
    constructor(seeded: map<int, Role>)
      requires forall id :: id in seeded ==> seeded[id].roleId == id
      ensures Valid()
      ensures users == map[] && roles == seeded && categories == map[] && products == map[]
    {
      users := map[];
      roles := seeded;
      categories := map[];
      products := map[];
    }
  }
}
