/**
 * The database behind the entity manager and the repositories: three tables, each mapping
 * a primary key to its record. Looking a key up is `find`; adding or removing a key is
 * `persist` or `remove` followed by `flush`. Basket items are stored as the entity objects
 * themselves, so a caller holding one sees later in-place updates.
 */
module Store {
  import opened Wrappers
  import opened Entity
  import Tables

  class Database {
    var items: map<int, BasketItem>
    var products: map<int, Product>
    var users: map<int, User>

    /** Every record carries the key it is stored under. */
    ghost predicate Valid()
      reads this, items.Values
    {
      && (forall k :: k in items ==> items[k].id == Some(k))
      && (forall k :: k in products ==> products[k].id == k)
      && (forall k :: k in users ==> users[k].id == k)
    }

    /** The basket-item table as values: what `find` would show for each key. */
    function Rows(): map<int, ItemRow>
      reads this, items.Values
    {
      map k | k in items :: items[k].Row()
    }

    /** A database whose products and users were seeded beforehand and that holds no basket item. */
    constructor (products: map<int, Product>, users: map<int, User>)
      requires forall k :: k in products ==> products[k].id == k
      requires forall k :: k in users ==> users[k].id == k
      ensures Valid()
      ensures items == map[] && this.products == products && this.users == users
    {
      items := map[];
      this.products := products;
      this.users := users;
    }

    /**
     * `persist` and `flush` of a new basket item: it is stored under its id, or under a key
     * not yet in use, which it then takes as its id, when it has none.
     */
    method Persist(item: BasketItem)
      requires Valid()
      requires item !in items.Values
      requires item.id.Some? ==> item.id.value !in items
      modifies this, item
      ensures Valid()
      ensures products == old(products) && users == old(users)
      ensures item.id.Some? && item.id.value !in old(items)
      ensures old(item.id).Some? ==> item.id == old(item.id)
      ensures item.product == old(item.product) && item.user == old(item.user)
      ensures items == old(items)[item.id.value := item]
      ensures Rows() == old(Rows())[item.id.value := item.Row()]
    {
      if item.id.None? {
        Tables.UnusedKeyExists(items.Keys);
        var generated :| generated !in items;
        item.id := Some(generated);
      }
      ghost var before := Rows();
      items := items[item.id.value := item];
      assert Rows() == before[item.id.value := item.Row()];
    }
  }

  /**
   * `findBy(['user' => $user])` on the basket-item table: the keys among `keys` whose row
   * refers to user `userId`, in the order of `keys`.
   */
  function KeysOfUser(rows: map<int, ItemRow>, keys: seq<int>, userId: int): (r: seq<int>)
    requires forall k :: k in keys ==> k in rows
    requires Tables.Ascending(keys)
    ensures forall k :: k in r <==> k in keys && rows[k].user == Some(userId)
    ensures Tables.Ascending(r)
  {
    if keys == [] then []
    else
      assert keys[0] in keys;
      assert Tables.Ascending(keys[1..]);
      var rest := KeysOfUser(rows, keys[1..], userId);
      assert forall k :: k in rest ==> keys[0] < k;
      if rows[keys[0]].user == Some(userId) then
        Tables.AscendingPrepend(keys[0], rest);
        [keys[0]] + rest
      else rest
  }
}
