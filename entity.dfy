/**
 * The persisted entities. BasketItem (src/Entity/BasketItem.php) is a mutable object with a
 * setter per field; Product and User are read or replaced whole by the core, so they are
 * values. A BasketItem refers to its product and user by their ids: within one entity
 * manager an entity and its id stand for each other.
 */
module Entity {
  import opened Wrappers

  datatype Product = Product(id: int, name: string, price: int, stock: int)

  datatype User = User(id: int, email: string, firstName: string, lastName: string)

  /** The three fields of a basket item at one moment. */
  datatype ItemRow = ItemRow(id: Option<int>, product: Option<int>, user: Option<int>)

  class BasketItem {
    var id: Option<int>
    /** The id of the referenced Product, null until set. */
    var product: Option<int>
    /** The id of the referenced User, null until set. */
    var user: Option<int>

    /** A new basket item has no id, no product and no user. */
    constructor ()
      ensures id == None && product == None && user == None
    {
      id := None;
      product := None;
      user := None;
    }

    function GetId(): Option<int>
      reads this
    {
      id
    }

    /** Sets the id and nothing else; returns this object, so calls can be chained. */
    method SetId(id: Option<int>) returns (self: BasketItem)
      modifies this
      ensures self == this
      ensures GetId() == id
      ensures GetProduct() == old(GetProduct()) && GetUser() == old(GetUser())
    {
      this.id := id;
      self := this;
    }

    function GetProduct(): Option<int>
      reads this
    {
      product
    }

    /** Sets the product and nothing else; returns this object. */
    method SetProduct(product: Option<int>) returns (self: BasketItem)
      modifies this
      ensures self == this
      ensures GetProduct() == product
      ensures GetId() == old(GetId()) && GetUser() == old(GetUser())
    {
      this.product := product;
      self := this;
    }

    function GetUser(): Option<int>
      reads this
    {
      user
    }

    /** Sets the user and nothing else; returns this object. */
    method SetUser(user: Option<int>) returns (self: BasketItem)
      modifies this
      ensures self == this
      ensures GetUser() == user
      ensures GetId() == old(GetId()) && GetProduct() == old(GetProduct())
    {
      this.user := user;
      self := this;
    }

    function Row(): ItemRow
      reads this
    {
      ItemRow(id, product, user)
    }
  }
}
