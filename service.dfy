/**
 * The service layer (src/Service): BasketItemService and UserService, each a sequence of
 * lookups that either throw or end in one change of the shared database. Every lookup comes
 * before any setter or persist, so a call that throws leaves the database as it was.
 */
module Service {
  import opened Wrappers
  import opened ServiceException
  import opened Dto
  import opened Entity
  import opened Store
  import Tables

  /** The exceptions the services throw, with the details given at the throw sites. */
  const ItemNotFound := ServiceError(ResourceNotFound, "Basket item not found")
  const UserNotFound := ServiceError(ResourceNotFound, "User not found")
  const ProductMissing := ServiceError(SubresourceNotFound, "Product not found")
  const UserMissing := ServiceError(SubresourceNotFound, "User not found")

  class BasketItemService {
    const db: Database

    constructor (db: Database)
      ensures this.db == db
    {
      this.db := db;
    }

    /** `xs` holds every stored basket item of user `userId`, each once, and no other object. */
    ghost predicate ItemsOf(xs: seq<BasketItem>, userId: int)
      reads db, db.items.Values
    {
      && (forall i :: 0 <= i < |xs| ==> xs[i] in db.items.Values && xs[i].user == Some(userId))
      && (forall k :: k in db.items && db.items[k].user == Some(userId) ==> db.items[k] in xs)
      && (forall i, j :: 0 <= i < j < |xs| ==> xs[i] != xs[j])
    }

    /** The keys of user `userId`'s basket items, in ascending order. */
    function KeysOf(userId: int): (keys: seq<int>)
      reads db, db.items.Values
      ensures Tables.Ascending(keys)
      ensures forall k :: k in keys <==> k in db.items && db.items[k].user == Some(userId)
    {
      var rows := db.Rows();
      assert rows.Keys == db.items.Keys;
      KeysOfUser(rows, Tables.SortedKeys(rows.Keys), userId)
    }

    /** The objects stored under ascending keys that are exactly those of user `userId`. */
    lemma ItemsOfKeys(keys: seq<int>, userId: int)
      requires db.Valid()
      requires Tables.Ascending(keys)
      requires forall k :: k in keys <==> k in db.items && db.items[k].user == Some(userId)
      ensures forall i :: 0 <= i < |keys| ==> keys[i] in db.items
      ensures ItemsOf(Tables.ValuesAt(db.items, keys), userId)
    {
      assert forall i :: 0 <= i < |keys| ==> keys[i] in keys;
      var xs := Tables.ValuesAt(db.items, keys);
      forall i | 0 <= i < |xs| ensures xs[i] in db.items.Values && xs[i].user == Some(userId) {
        assert keys[i] in keys;
      }
      forall k | k in db.items && db.items[k].user == Some(userId) ensures db.items[k] in xs {
        var i :| 0 <= i < |keys| && keys[i] == k;
        assert xs[i] == db.items[k];
      }
      forall i, j | 0 <= i < j < |xs| ensures xs[i] != xs[j] {
        assert keys[i] in keys && keys[j] in keys;
        assert xs[i].id == Some(keys[i]) && xs[j].id == Some(keys[j]);
      }
    }

    /** The objects stored under the keys of user `userId`'s basket items, in key order. */
    function Selected(userId: int): (xs: seq<BasketItem>)
      reads db, db.items.Values
      requires db.Valid()
      ensures ItemsOf(xs, userId)
    {
      var keys := KeysOf(userId);
      ItemsOfKeys(keys, userId);
      Tables.ValuesAt(db.items, keys)
    }

    /** The basket items of a user; throws when there is no such user. */
    method List(userId: int) returns (r: Result<seq<BasketItem>>)
      requires db.Valid()
      ensures r.Err? <==> userId !in db.users
      ensures r.Err? ==> r.error == UserNotFound
      ensures r.Ok? ==> ItemsOf(r.value, userId)
    {
      if userId !in db.users {
        return Err(UserNotFound);
      }
      r := Ok(Selected(userId));
    }

    /** The basket item stored under `id`; throws when there is none. */
    method Get(id: int) returns (r: Result<BasketItem>)
      requires db.Valid()
      ensures r.Ok? <==> id in db.items
      ensures r.Ok? ==> r.value == db.items[id] && r.value.id == Some(id)
      ensures r.Err? ==> r.error == ItemNotFound
    {
      if id !in db.items {
        return Err(ItemNotFound);
      }
      r := Ok(db.items[id]);
    }

    /**
     * Adds a basket item of user `userId` for the DTO's product, under `id` when one is
     * given and under a key not yet in use otherwise. The product is looked up before the
     * user, so a missing product is reported even when the user is missing too.
     */
    method Insert(id: Option<int>, dto: BasketItemDto, userId: int) returns (r: Result<BasketItem>)
      requires db.Valid()
      requires id.Some? ==> id.value !in db.items
      modifies db
      ensures db.Valid()
      ensures db.products == old(db.products) && db.users == old(db.users)
      ensures dto.productId !in db.products ==>
                r == Err(ProductMissing)
      ensures dto.productId in db.products && userId !in db.users ==>
                r == Err(UserMissing)
      ensures r.Ok? <==> dto.productId in db.products && userId in db.users
      ensures r.Err? ==> db.items == old(db.items) && db.Rows() == old(db.Rows())
      ensures r.Ok? ==>
                && fresh(r.value)
                && r.value.id.Some?
                && r.value.id.value !in old(db.items)
                && (id.Some? ==> r.value.id == id)
                && r.value.product == Some(dto.productId)
                && r.value.user == Some(userId)
                && db.items == old(db.items)[r.value.id.value := r.value]
                && db.Rows() == old(db.Rows())[r.value.id.value := r.value.Row()]
    {
      var item := new BasketItem();

      if dto.productId !in db.products {
        return Err(ProductMissing);
      }
      if userId !in db.users {
        return Err(UserMissing);
      }

      if id.Some? {
        item := item.SetId(id);
      }
      item := item.SetProduct(Some(dto.productId));
      item := item.SetUser(Some(userId));

      assert item !in db.items.Values;
      ghost var before := db.Rows();
      assert before == old(db.Rows());
      db.Persist(item);
      assert db.Rows() == before[item.id.value := item.Row()];
      r := Ok(item);
    }

    /**
     * Points the basket item stored under `id` at the DTO's product and at user `userId`,
     * changing the stored object in place. The item is looked up first, then the product,
     * then the user.
     */
    method Update(id: int, dto: BasketItemDto, userId: int) returns (r: Result<BasketItem>)
      requires db.Valid()
      modifies db.items.Values
      ensures db.Valid()
      ensures id !in db.items ==>
                r == Err(ItemNotFound)
      ensures id in db.items && dto.productId !in db.products ==>
                r == Err(ProductMissing)
      ensures id in db.items && dto.productId in db.products && userId !in db.users ==>
                r == Err(UserMissing)
      ensures r.Ok? <==> id in db.items && dto.productId in db.products && userId in db.users
      ensures r.Err? ==> db.Rows() == old(db.Rows())
      ensures r.Ok? ==>
                && r.value == db.items[id]
                && r.value.Row() == ItemRow(Some(id), Some(dto.productId), Some(userId))
                && db.Rows() == old(db.Rows())[id := r.value.Row()]
    {
      if id !in db.items {
        return Err(ItemNotFound);
      }
      var item := db.items[id];

      if dto.productId !in db.products {
        return Err(ProductMissing);
      }
      if userId !in db.users {
        return Err(UserMissing);
      }

      ghost var before := db.Rows();
      assert forall k :: k in db.items && k != id ==> db.items[k] != item;
      // the path id is never null, so setId always runs and rewrites the same key
      item := item.SetId(Some(id));
      item := item.SetProduct(Some(dto.productId));
      item := item.SetUser(Some(userId));
      assert db.Rows() == before[id := item.Row()];
      r := Ok(item);
    }

    /** Removes the basket item stored under `id`; throws when there is none. */
    method Delete(id: int) returns (r: Result<()>)
      requires db.Valid()
      modifies db
      ensures db.Valid()
      ensures db.products == old(db.products) && db.users == old(db.users)
      ensures r.Ok? <==> id in old(db.items)
      ensures r.Err? ==> r.error == ItemNotFound
      ensures db.items == old(db.items) - {id}
      ensures db.Rows() == old(db.Rows()) - {id}
    {
      if id !in db.items {
        return Err(ItemNotFound);
      }
      ghost var before := db.Rows();
      db.items := db.items - {id};
      assert db.Rows() == before - {id};
      r := Ok(());
    }
  }

  /** A user table read in ascending key order lists every user once. */
  lemma UsersOnce(users: map<int, User>, keys: seq<int>)
    requires forall k :: k in users ==> users[k].id == k
    requires Tables.Ascending(keys)
    requires forall k :: k in keys <==> k in users
    ensures forall i :: 0 <= i < |keys| ==> keys[i] in users
    ensures var r := Tables.ValuesAt(users, keys);
              && (forall u :: u in r ==> u in users.Values)
              && (forall k :: k in users ==> users[k] in r)
              && (forall i, j :: 0 <= i < j < |r| ==> r[i] != r[j])
  {
    assert forall i :: 0 <= i < |keys| ==> keys[i] in keys;
    var r := Tables.ValuesAt(users, keys);
    forall k | k in users ensures users[k] in r {
      var i :| 0 <= i < |keys| && keys[i] == k;
      assert r[i] == users[k];
    }
    forall i, j | 0 <= i < j < |r| ensures r[i] != r[j] {
      assert r[i].id == keys[i] && r[j].id == keys[j];
    }
  }

  class UserService {
    const db: Database

    constructor (db: Database)
      ensures this.db == db
    {
      this.db := db;
    }

    /** Every stored user, unchanged and each once. */
    method List() returns (r: seq<User>)
      requires db.Valid()
      ensures |r| == |db.users|
      ensures forall u :: u in r ==> u in db.users.Values
      ensures forall k :: k in db.users ==> db.users[k] in r
      ensures forall i, j :: 0 <= i < j < |r| ==> r[i] != r[j]
    {
      var keys := Tables.SortedKeys(db.users.Keys);
      UsersOnce(db.users, keys);
      r := Tables.ValuesAt(db.users, keys);
    }

    /** The user stored under `id`; throws when there is none. */
    method Get(id: int) returns (r: Result<User>)
      requires db.Valid()
      ensures r.Ok? <==> id in db.users
      ensures r.Ok? ==> r.value == db.users[id] && r.value.id == id
      ensures r.Err? ==> r.error == UserNotFound
    {
      if id !in db.users {
        return Err(UserNotFound);
      }
      r := Ok(db.users[id]);
    }

    /**
     * Adds a user with the DTO's fields, under `id` when one is given and under a key not
     * yet in use otherwise. It never throws.
     */
    method Insert(id: Option<int>, dto: UserDto) returns (u: User)
      requires db.Valid()
      requires id.Some? ==> id.value !in db.users
      modifies db
      ensures db.Valid()
      ensures db.items == old(db.items) && db.products == old(db.products)
      ensures u.email == dto.email && u.firstName == dto.firstName && u.lastName == dto.lastName
      ensures id.Some? ==> u.id == id.value
      ensures u.id !in old(db.users)
      ensures db.users == old(db.users)[u.id := u]
    {
      var key: int;
      if id.Some? {
        key := id.value;
      } else {
        // persist and flush: the generated key is any key not yet in use
        Tables.UnusedKeyExists(db.users.Keys);
        key :| key !in db.users;
      }
      u := User(key, dto.email, dto.firstName, dto.lastName);
      db.users := db.users[key := u];
    }

    /** Overwrites all three fields of the user stored under `id`; throws when there is none. */
    method Update(id: int, dto: UserDto) returns (r: Result<User>)
      requires db.Valid()
      modifies db
      ensures db.Valid()
      ensures db.items == old(db.items) && db.products == old(db.products)
      ensures r.Ok? <==> id in old(db.users)
      ensures r.Err? ==>
                r.error == UserNotFound && db.users == old(db.users)
      ensures r.Ok? ==>
                && r.value == User(id, dto.email, dto.firstName, dto.lastName)
                && db.users == old(db.users)[id := r.value]
    {
      if id !in db.users {
        return Err(UserNotFound);
      }
      var user := db.users[id];
      user := user.(email := dto.email, firstName := dto.firstName, lastName := dto.lastName);
      db.users := db.users[id := user];
      r := Ok(user);
    }

    /**
     * Removes the user stored under `id`; throws when there is none. The basket items are
     * left as they are, including any that refer to the removed user.
     */
    method Delete(id: int) returns (r: Result<()>)
      requires db.Valid()
      modifies db
      ensures db.Valid()
      ensures db.items == old(db.items) && db.products == old(db.products)
      ensures r.Ok? <==> id in old(db.users)
      ensures r.Err? ==> r.error == UserNotFound
      ensures db.users == old(db.users) - {id}
    {
      if id !in db.users {
        return Err(UserNotFound);
      }
      db.users := db.users - {id};
      r := Ok(());
    }
  }
}
