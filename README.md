# symshop service layer and controllers, modelled in Dafny

This project models the core of a small e-commerce REST backend: basket items, products and
users kept in a relational database, the two services that read and change them, and the two
controllers that map what the services return or throw to HTTP status codes. The models and
all their proofs are plain Dafny, and the project is checked with `dafny verify`.

- `Store.Database` stands for the database the ORM manages. It holds three tables, each
  mapping a primary key to its record. Basket items are stored as `Entity.BasketItem`
  objects, so an update made to a stored object in place is seen by anyone holding it.
  Products and users are values. `Valid()` states that every record carries the key it is
  stored under. `Rows()` is the basket-item table read as values.
- `Entity.BasketItem` is the mutable entity. It has nullable `id`, `product` and `user`
  fields, and each setter returns the object itself. A product or user is referred to by
  its id: within one entity manager, an entity and its id stand for each other.
- `Service.BasketItemService` and `Service.UserService` share one `Database`. Each looks up
  what it needs in a fixed order, throws on the first miss, and only then changes the
  database. Throwing is a `ServiceException.Result` whose error carries a kind
  (ResourceNotFound or SubresourceNotFound) and a detail. `Message()` is the kind's prefix
  followed by the detail.
- `Controller.BasketItemController` and `Controller.UserController` turn a service outcome
  into an `Http.Response`: a status code from section 15 of RFC 9110 (200, 201, 204, 400,
  404), and a body that is the serialized entities, `{"error": message}`, or empty. The
  `Escaped` case stands for an exception no catch clause handles. Every controller action is
  proved never to return it.
- PUT is an upsert: update, and when the basket item (basket PUT) or the user (user PUT) is
  missing, insert under the id from the path. A missing product or, for a basket PUT, a
  missing user is answered with 400 instead. The proofs show that this insert can only
  happen for an id that is not in use. They also show that any successful PUT leaves the
  same row under that id, whether it answered 200 or 201.

The services use these exact exception details (`Service.ItemNotFound`, `UserNotFound`,
`ProductMissing`, `UserMissing`): "Basket item not found", "User not found" and "Product not
found". An error body's text is the exception's message, for example
"Subresource not found: Product not found".

## Model

| member | source | states |
|---|---|---|
| `ServiceException.MessageDetermines` | src/Service/Exception/ResourceNotFoundException.php:11 | two exception messages are equal exactly when their kinds and details are; the "Resource not found: " and "Subresource not found: " prefixes keep the two kinds apart |
| `Entity.BasketItem.constructor` | src/Entity/BasketItem.php:17-26 | a new basket item has null id, null product and null user |
| `Entity.BasketItem.SetId` | src/Entity/BasketItem.php:28-38 | afterwards `GetId()` returns the value set; product and user are unchanged; the result is the same object |
| `Entity.BasketItem.SetProduct` | src/Entity/BasketItem.php:40-50 | afterwards `GetProduct()` returns the value set; id and user are unchanged; the result is the same object |
| `Entity.BasketItem.SetUser` | src/Entity/BasketItem.php:52-62 | afterwards `GetUser()` returns the value set; id and product are unchanged; the result is the same object |
| `Store.Database.Persist` | src/Service/BasketItemService.php:66-73 | a new item is stored under its explicit id, or under an unused key that becomes its id; no other row, product or user changes |
| `Store.KeysOfUser` | src/Service/BasketItemService.php:36 | the selected keys are exactly those whose row refers to the user, and they stay in ascending order |
| `Service.BasketItemService.KeysOf` | src/Service/BasketItemService.php:36 | the keys of the basket items whose user is the given one, exactly those, in ascending order |
| `Service.BasketItemService.Selected` | src/Service/BasketItemService.php:36-38 | the result of `findBy` on the user: every stored item of that user, each once, and no other object |
| `Service.BasketItemService.ItemsOfKeys` | src/Service/BasketItemService.php:36-38 | the objects under the user's ascending keys are every stored item of that user, each once, and nothing else |
| `Service.BasketItemService.List` | src/Service/BasketItemService.php:29-39 | fails with ResourceNotFound("User not found") exactly when the user is absent; otherwise returns every stored item whose user is that user, each once, and no other |
| `Service.BasketItemService.Get` | src/Service/BasketItemService.php:41-50 | returns the object stored under the id exactly when the id is present; otherwise fails with ResourceNotFound("Basket item not found") |
| `Service.BasketItemService.Insert` | src/Service/BasketItemService.php:52-76 | a missing product gives SubresourceNotFound("Product not found") even if the user is also missing; a missing user gives SubresourceNotFound("User not found"); a failure changes no row; success adds exactly one fresh item under the given id (or an unused key) that points at the looked-up product and user |
| `Service.BasketItemService.Update` | src/Service/BasketItemService.php:78-105 | checks the item first, then the product, then the user; a missing item gives ResourceNotFound whatever the DTO says; a failure changes no row; success rewrites the stored object in place, keeps its id and changes no other row |
| `Service.BasketItemService.Delete` | src/Service/BasketItemService.php:107-117 | an absent id fails with ResourceNotFound; the table afterwards is the old one without that id, so a later `Get` of it fails |
| `Service.UsersOnce` | src/Service/UserService.php:24-29 | reading the user table in ascending key order lists every stored user, each once, and nothing else |
| `Service.UserService.List` | src/Service/UserService.php:24-29 | returns every stored user unchanged, each once, and no other, as many as the table holds |
| `Service.UserService.Get` | src/Service/UserService.php:31-40 | returns the user stored under the id exactly when it is present; otherwise fails with ResourceNotFound("User not found") |
| `Service.UserService.Insert` | src/Service/UserService.php:42-57 | never fails; the new user has the DTO's email, first name and last name, takes the explicit id when one is given, and is stored under a key that was not in use; nothing else changes |
| `Service.UserService.Update` | src/Service/UserService.php:59-74 | an absent id fails with ResourceNotFound and changes nothing; otherwise all three fields are overwritten with the DTO's, the id is kept, and no other user changes |
| `Service.UserService.Delete` | src/Service/UserService.php:76-86 | an absent id fails with ResourceNotFound; the user table afterwards is the old one without that id; basket items are left untouched, even those that refer to the removed user |
| `Http.Respond` | src/Controller/BasketItemController.php:44-56 | one try block with one typed catch: a returned value is serialized with the success status; an exception of the caught kind becomes `{"error": message}` with the failure status; any other exception escapes, and only then |
| `Controller.BasketItemController.List` | src/Controller/BasketItemController.php:41-57 | answers 404 with the ResourceNotFound message when the user is absent; otherwise 200 with exactly that user's basket items |
| `Controller.BasketItemController.Get` | src/Controller/BasketItemController.php:72-90 | looks up by the item id alone: 200 with the stored item, or 404 with the "Basket item not found" message |
| `Controller.BasketItemController.Insert` | src/Controller/BasketItemController.php:105-127 | inserts with no explicit id; answers 201 exactly when the product and the user exist, with one fresh item under an unused key when the product and the user exist; otherwise 400 with the SubresourceNotFound message, product before user, and no row changed |
| `Controller.BasketItemController.Upsert` | src/Controller/BasketItemController.php:146-182 | never lets an exception escape; answers 200 when the item existed, 201 when it did not and was created under the path id, and 400 (no row changed) when the product or user is missing; after 200 or 400 the table still holds the same objects, so a 200 rewrote the stored item in place; after 200 or 201 the path id holds the same row either way |
| `Controller.BasketItemController.Delete` | src/Controller/BasketItemController.php:197-213 | looks up by the item id alone: 204 with an empty body when it existed, 404 with the ResourceNotFound message otherwise; only that row is removed |
| `Controller.UserController.List` | src/Controller/UserController.php:36-44 | always answers 200 with every stored user |
| `Controller.UserController.Get` | src/Controller/UserController.php:59-77 | 200 with the stored user, or 404 with the "User not found" message |
| `Controller.UserController.Insert` | src/Controller/UserController.php:88-101 | inserts with no explicit id and always answers 201 with a new user that has the DTO's fields and a key not in use before |
| `Controller.UserController.Upsert` | src/Controller/UserController.php:116-142 | answers 200 when the user existed and 201 when it did not; either way the user under the path id ends up with the DTO's fields and is the body; basket items are untouched |
| `Controller.UserController.Delete` | src/Controller/UserController.php:157-173 | 204 with an empty body when the user existed, 404 with the ResourceNotFound message otherwise; basket items are untouched |

## Left out

- ORM internals (persist, flush, remove, lazy and eager loading) are not modelled. `find` is a map lookup, and persist or remove followed by flush is a map update.
- Generated ids are not modelled as AUTO_INCREMENT. A generated id is any key not yet in the table.
- Whether the ORM keeps an id set explicitly on an entity mapped with a generated value is the ORM's behaviour. The model follows the services and keeps it.
- Service.BasketItemService.Insert: requires an explicit id to be unused. Reusing one breaks the database's primary-key constraint, and the source does not catch that exception. The controllers only pass an explicit id right after an update reported it missing.
- Service.UserService.Insert: requires an explicit id to be unused, for the same reason.
- Foreign-key enforcement (migrations/Version20240427201951.php:26-27) is not modelled. `UserService.Delete` does no basket-item check in the code, and the model lets it succeed. The database's constraint would instead make that flush fail with an exception nobody catches.
- JSON serialization is not modelled. This includes the attribute that hides a basket item's user. A response body carries the entities it would serialize.
- Payload mapping and validation by the framework (the email and non-blank constraints on the user DTO) are not modelled. They run, and may answer with an error, before any controller code.
- Storage order is not modelled. Both list operations return rows in ascending key order, but their contracts only promise which rows come back and that each comes once. The source promises no order either.
- Routing, API documentation attributes, dependency wiring, the seed-data console command and the empty basket-item repository class are plumbing and are not modelled.
- src/Entity/User.php and src/Entity/Product.php are not part of this model. Their fields come from the services, the tests and the schema migration.
- Concurrency and transactions are not modelled. Each request is one sequential call.
- `UserController.insert` has no catch clause and `upsert` catches only ResourceNotFound, so a 400 on those routes can come only from the framework's payload validation, which is left out above.
- Integer widths are not modelled. Ids, product ids and user ids are unbounded Dafny integers. PHP integers are 64-bit and the `id` columns are 32-bit `INT` (migrations/Version20240427201951.php:23-25). A PUT with an id above 2147483647 would therefore fail in the database with an exception nobody catches, where the model answers 201.
