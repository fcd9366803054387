/**
 * The HTTP layer (src/Controller): each action calls the service and turns its value or
 * its exception into a response. PUT is an upsert: update, and when the target does not
 * exist, insert under the id from the path.
 */
module Controller {
  import opened Wrappers
  import opened ServiceException
  import opened Dto
  import opened Entity
  import opened Store
  import opened Service
  import opened Http

  /** Routes under /api/v1/users/{user_id}/basket-items. */
  class BasketItemController {
    const service: BasketItemService

    constructor (service: BasketItemService)
      ensures this.service == service
    {
      this.service := service;
    }

    /** GET: 200 with the user's basket items, 404 when the user does not exist. */
    method List(userId: int) returns (resp: Response<seq<BasketItem>>)
      requires service.db.Valid()
      ensures userId !in service.db.users ==>
                resp == Response(NOT_FOUND, ErrorJson(UserNotFound.Message()))
      ensures userId in service.db.users ==>
                && resp.Response? && resp.status == OK && resp.body.Serialized?
                && service.ItemsOf(resp.body.payload, userId)
    {
      var r := service.List(userId);
      resp := Respond(r, OK, ResourceNotFound, NOT_FOUND);
    }

    /** GET of one item, looked up by its own id only: 200 with it, or 404. */
    method Get(basketItemId: int) returns (resp: Response<BasketItem>)
      requires service.db.Valid()
      ensures basketItemId in service.db.items ==>
                resp == Response(OK, Serialized(service.db.items[basketItemId]))
      ensures basketItemId !in service.db.items ==>
                resp == Response(NOT_FOUND, ErrorJson(ItemNotFound.Message()))
    {
      var r := service.Get(basketItemId);
      resp := Respond(r, OK, ResourceNotFound, NOT_FOUND);
    }

    /** POST: inserts without an explicit id; 201 with the new item, or 400. */
    method Insert(userId: int, dto: BasketItemDto) returns (resp: Response<BasketItem>)
      requires service.db.Valid()
      modifies service.db
      ensures service.db.Valid()
      ensures service.db.products == old(service.db.products)
      ensures service.db.users == old(service.db.users)
      ensures dto.productId !in service.db.products ==>
                resp == Response(BAD_REQUEST, ErrorJson(ProductMissing.Message()))
      ensures dto.productId in service.db.products && userId !in service.db.users ==>
                resp == Response(BAD_REQUEST, ErrorJson(UserMissing.Message()))
      ensures resp.Response? && (resp.status == CREATED || resp.status == BAD_REQUEST)
      ensures resp.status == CREATED <==>
                dto.productId in old(service.db.products) && userId in old(service.db.users)
      ensures resp.status == BAD_REQUEST ==> service.db.Rows() == old(service.db.Rows())
      ensures resp.status == CREATED ==>
                && resp.body.Serialized?
                && var item := resp.body.payload;
                && fresh(item)
                && item.id.Some? && item.id.value !in old(service.db.items)
                && item.product == Some(dto.productId) && item.user == Some(userId)
                && service.db.items == old(service.db.items)[item.id.value := item]
                && service.db.Rows() == old(service.db.Rows())[item.id.value := item.Row()]
    {
      var r := service.Insert(None, dto, userId);
      resp := Respond(r, CREATED, SubresourceNotFound, BAD_REQUEST);
    }

    /**
     * PUT: 200 when the item existed and was updated, 201 when it did not and was created
     * under `basketItemId`, 400 when the product or the user does not exist. Either way a
     * successful PUT leaves the same row under `basketItemId`.
     */
    method Upsert(userId: int, basketItemId: int, dto: BasketItemDto)
      returns (resp: Response<BasketItem>)
      requires service.db.Valid()
      modifies service.db, service.db.items.Values
      ensures service.db.Valid()
      ensures service.db.products == old(service.db.products)
      ensures service.db.users == old(service.db.users)
      ensures resp.Response?
      ensures dto.productId !in service.db.products ==>
                resp == Response(BAD_REQUEST, ErrorJson(ProductMissing.Message()))
      ensures dto.productId in service.db.products && userId !in service.db.users ==>
                resp == Response(BAD_REQUEST, ErrorJson(UserMissing.Message()))
      ensures resp.status == OK <==>
                && basketItemId in old(service.db.items)
                && dto.productId in service.db.products && userId in service.db.users
      ensures resp.status == CREATED <==>
                && basketItemId !in old(service.db.items)
                && dto.productId in service.db.products && userId in service.db.users
      ensures resp.status == BAD_REQUEST ==> service.db.Rows() == old(service.db.Rows())
      ensures resp.status == OK || resp.status == BAD_REQUEST ==>
                service.db.items == old(service.db.items)
      ensures resp.status != BAD_REQUEST ==>
                && basketItemId in service.db.items
                && resp.body == Serialized(service.db.items[basketItemId])
                && var row := ItemRow(Some(basketItemId), Some(dto.productId), Some(userId));
                && service.db.Rows() == old(service.db.Rows())[basketItemId := row]
    {
      var updated := service.Update(basketItemId, dto, userId);
      if updated.Err? && updated.error.kind == ResourceNotFound {
        // the update found no item under basketItemId, so that id is free for the insert
        var inserted := service.Insert(Some(basketItemId), dto, userId);
        resp := Respond(inserted, CREATED, SubresourceNotFound, BAD_REQUEST);
      } else {
        resp := Respond(updated, OK, SubresourceNotFound, BAD_REQUEST);
      }
    }

    /** DELETE of one item, looked up by its own id only: 204 with an empty body, or 404. */
    method Delete(basketItemId: int) returns (resp: Response<()>)
      requires service.db.Valid()
      modifies service.db
      ensures service.db.Valid()
      ensures service.db.products == old(service.db.products)
      ensures service.db.users == old(service.db.users)
      ensures basketItemId in old(service.db.items) ==> resp == Response(NO_CONTENT, Empty)
      ensures basketItemId !in old(service.db.items) ==>
                resp == Response(NOT_FOUND, ErrorJson(ItemNotFound.Message()))
      ensures service.db.items == old(service.db.items) - {basketItemId}
      ensures service.db.Rows() == old(service.db.Rows()) - {basketItemId}
    {
      var r := service.Delete(basketItemId);
      match r
      case Err(e) =>
        resp := if e.kind == ResourceNotFound then Response(NOT_FOUND, ErrorJson(e.Message())) else Escaped(e);
      case Ok(_) =>
        resp := Response(NO_CONTENT, Empty);
    }
  }

  /** Routes under /api/v1/users. */
  class UserController {
    const service: UserService

    constructor (service: UserService)
      ensures this.service == service
    {
      this.service := service;
    }

    /** GET: always 200 with every user. */
    method List() returns (resp: Response<seq<User>>)
      requires service.db.Valid()
      ensures resp.Response? && resp.status == OK && resp.body.Serialized?
      ensures forall u :: u in resp.body.payload ==> u in service.db.users.Values
      ensures forall k :: k in service.db.users ==> service.db.users[k] in resp.body.payload
      ensures |resp.body.payload| == |service.db.users|
    {
      var users := service.List();
      resp := Response(OK, Serialized(users));
    }

    /** GET of one user: 200 with it, or 404. */
    method Get(userId: int) returns (resp: Response<User>)
      requires service.db.Valid()
      ensures userId in service.db.users ==>
                resp == Response(OK, Serialized(service.db.users[userId]))
      ensures userId !in service.db.users ==>
                resp == Response(NOT_FOUND, ErrorJson(UserNotFound.Message()))
    {
      var r := service.Get(userId);
      resp := Respond(r, OK, ResourceNotFound, NOT_FOUND);
    }

    /** POST: inserts without an explicit id and always answers 201 with the new user. */
    method Insert(dto: UserDto) returns (resp: Response<User>)
      requires service.db.Valid()
      modifies service.db
      ensures service.db.Valid()
      ensures service.db.items == old(service.db.items)
      ensures service.db.products == old(service.db.products)
      ensures resp.Response? && resp.status == CREATED && resp.body.Serialized?
      ensures var u := resp.body.payload;
                && u == User(u.id, dto.email, dto.firstName, dto.lastName)
                && u.id !in old(service.db.users)
                && service.db.users == old(service.db.users)[u.id := u]
    {
      var u := service.Insert(None, dto);
      resp := Response(CREATED, Serialized(u));
    }

    /**
     * PUT: 200 when the user existed and was overwritten, 201 when it did not and was
     * created under `userId`. Either way the user under `userId` ends up with the DTO's fields.
     */
    method Upsert(userId: int, dto: UserDto) returns (resp: Response<User>)
      requires service.db.Valid()
      modifies service.db
      ensures service.db.Valid()
      ensures service.db.items == old(service.db.items)
      ensures service.db.products == old(service.db.products)
      ensures resp.Response?
      ensures resp.status == (if userId in old(service.db.users) then OK else CREATED)
      ensures var u := User(userId, dto.email, dto.firstName, dto.lastName);
                && resp.body == Serialized(u)
                && service.db.users == old(service.db.users)[userId := u]
    {
      var updated := service.Update(userId, dto);
      match updated
      case Ok(u) =>
        resp := Response(OK, Serialized(u));
      case Err(e) =>
        if e.kind == ResourceNotFound {
          var u := service.Insert(Some(userId), dto);
          resp := Response(CREATED, Serialized(u));
        } else {
          resp := Escaped(e);
        }
    }

    /** DELETE of one user: 204 with an empty body, or 404. Basket items are not touched. */
    method Delete(userId: int) returns (resp: Response<()>)
      requires service.db.Valid()
      modifies service.db
      ensures service.db.Valid()
      ensures service.db.items == old(service.db.items)
      ensures service.db.products == old(service.db.products)
      ensures userId in old(service.db.users) ==> resp == Response(NO_CONTENT, Empty)
      ensures userId !in old(service.db.users) ==>
                resp == Response(NOT_FOUND, ErrorJson(UserNotFound.Message()))
      ensures service.db.users == old(service.db.users) - {userId}
    {
      var r := service.Delete(userId);
      match r
      case Err(e) =>
        resp := if e.kind == ResourceNotFound then Response(NOT_FOUND, ErrorJson(e.Message())) else Escaped(e);
      case Ok(_) =>
        resp := Response(NO_CONTENT, Empty);
    }
  }
}
