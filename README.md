# Cart and store service rules of BagleMonster, in Dafny

This project models the service layer of the BagleMonster food-ordering backend. It covers:

- **Cart service.** A user collects products of one store in an open cart. The user raises or lowers line-item quantities, removes a line item or the whole cart, and finally orders the cart.
- **Store service.** STORE-role users register, modify and delete stores. Anyone can look stores up.

The repositories are modelled as in-memory tables. A table is a sequence of rows, kept in table order.

- `cart`: the `Carts.Cart` rows. Columns are id, owner id, store id, ordered flag and total price.
- `cart_product`: the `Carts.LineItem` rows. Columns are cart id, product id and quantity.
- `store`: the `Stores.Store` rows. Columns are id, owner id and descriptive columns.

The `cart` and `store` tables carry the identifier that the database will give the next row it inserts (`nextCartId`, `nextStoreId`). A `cart_product` row is keyed by its (cart, product) pair only. The user, store and product lookups of the other services are read-only inputs: `Carts.Catalog`, and the `users` map of the store service.

Every transactional operation is a function that returns `Result<...>`. `Ok` carries the tables after commit. `Err` carries the error the operation threw, and then the tables are as they were: `@Transactional` rolls back.

The two services are also classes, `CartServices.CartService` and `StoreServices.StoreService`. Their `seq` fields are the tables. Their methods follow the Java code step by step and are proved equal to the functions. They also keep the table invariants (`Valid()`):

- at most one open cart per user;
- at most one line item per (cart, product) pair;
- unique ids, all below the next id;
- every line item belongs to a stored cart.

Layout:

- `common.dfy` (module `Common`): the error kinds, `Option`, `Result` and `User`. It also has the sequence operations that stand in for repository queries: `FirstIndex`, `RemoveAt`, `Filter`.
- `carts.dfy` (module `Carts`): rows, invariants, queries and the operations of `CartService`.
- `cart_properties.dfy` (module `CartProperties`): the lemmas about them.
- `cart_service.dfy` (module `CartServices`): the `CartService` class.
- `stores.dfy`, `store_properties.dfy`, `store_service.dfy`: the same three layers for `StoreService`.

In these points the model follows the code:

- When the user has no open cart, `selectCart` does not throw: the repository query yields `null` and that is handed to `CartResponseDto.of` (CartService.java:64-65). The model returns `Ok(None)`; that the response mapping accepts an absent cart is an assumption. `selectMyStore` is modelled the same way for a user who owns no store (StoreService.java:52-53).
- The store-mismatch and duplicate-item rejections are `IllegalArgumentException`, so `IllegalArgument`; there is no separate conflict error.
- `findStore` and `selectStore` throw `IllegalArgumentException` on an absent id, so `IllegalArgument`, not `NotFound`.
- `createCart` never compares the product's own store with the requested store (`CartProperties.CartScenario` has an instance).
- `addCartProduct` and `subtractCartProduct` leave `totalPrice` untouched.

## Model

| member | source | states |
|---|---|---|
| Carts.FindCart | src/main/java/com/example/baglemonster/cart/service/CartService.java:153-157 | the position of a cart with the id, and none exactly when no cart has that id |
| Carts.FindOpenCart | src/main/java/com/example/baglemonster/cart/service/CartService.java:147-150 | an open cart of the user, and none exactly when every cart of the user is ordered |
| Carts.FindItem | src/main/java/com/example/baglemonster/cart/service/CartService.java:169-171 | the line item for the (cart, product) pair, and none exactly when there is no such item |
| Carts.CartFor | src/main/java/com/example/baglemonster/cart/service/CartService.java:119-135 | with an open cart: that cart unchanged exactly when its store is the requested one, else IllegalArgument; without one: a new open cart with the next id, the user, the store and total 0 exactly when the store is known, else IllegalArgument |
| Carts.NewCart | src/main/java/com/example/baglemonster/cart/service/CartService.java:133 | a cart built for a request is open, totals 0, and carries the given id, owner and store |
| Carts.GuardCart | src/main/java/com/example/baglemonster/cart/service/CartService.java:138-144 | NotFound exactly when no cart has the id; Unauthorized exactly when the cart with the id belongs to someone else; otherwise the caller's cart; no other error |
| Carts.GuardItem | src/main/java/com/example/baglemonster/cart/service/CartService.java:160-166 | the ownership guard's error comes first; past the guard, success exactly when the product is known and a line item for the pair exists, and then it is that item; NotFound otherwise; failures are NotFound or Unauthorized |
| Carts.SelectCart | src/main/java/com/example/baglemonster/cart/service/CartService.java:61-66 | NotFound exactly for an unknown user; otherwise the user's open cart with exactly its line items, each a row of the item table, or nothing when every cart of the user is ordered |
| Carts.SelectCarts | src/main/java/com/example/baglemonster/cart/service/CartService.java:109-114 | NotFound exactly for an unknown user; otherwise exactly the carts the user owns, open or ordered |
| Carts.CreateCart | src/main/java/com/example/baglemonster/cart/service/CartService.java:36-58 | NotFound for an unknown user; IllegalArgument without an open cart and with an unknown store; NotFound for an unknown product once the cart is resolved; no other errors; success appends exactly one line item with the request's product and quantity, keeps the earlier items, and adds at most one cart |
| Carts.SaveCart | src/main/java/com/example/baglemonster/cart/service/CartService.java:57 | cartRepository.save leaves the items alone and stores the cart; a present id keeps the table's length, the next id and every row of another id; an absent id appends the cart and advances the next id |
| Carts.SubtractCartProduct | src/main/java/com/example/baglemonster/cart/service/CartService.java:69-77 | fails only with NotFound or Unauthorized; success leaves the carts and the next id alone, returns the item of the pair, and removes a row exactly when its quantity reached zero |
| Carts.AddCartProduct | src/main/java/com/example/baglemonster/cart/service/CartService.java:80-85 | fails only with NotFound or Unauthorized; success leaves the carts and the next id alone, keeps the number of items, and the returned item of the pair is in the table |
| Carts.DeleteCartProduct | src/main/java/com/example/baglemonster/cart/service/CartService.java:88-92 | fails only with NotFound or Unauthorized; success leaves the carts alone and removes one line item |
| Carts.DeleteCart | src/main/java/com/example/baglemonster/cart/service/CartService.java:95-99 | fails only with NotFound or Unauthorized; success removes one cart and leaves no line item of that cart |
| Carts.OrderCart | src/main/java/com/example/baglemonster/cart/service/CartService.java:102-106 | fails only with NotFound or Unauthorized; success leaves the items and the number of carts alone, and the cart with the id is ordered |
| Carts.ItemsOf | src/main/java/com/example/baglemonster/cart/service/CartService.java:64-65 | the line items shown with a cart are exactly the rows of the item table for that cart |
| Carts.CartsOf | src/main/java/com/example/baglemonster/cart/service/CartService.java:112 | cartRepository.findAllByUser: exactly the cart rows the user owns |
| CartProperties.CreateCartSucceedsExactly | src/main/java/com/example/baglemonster/cart/service/CartService.java:37-50 | createCart succeeds exactly for a known user and product when the open cart is for the requested store and lacks the product, or when there is no open cart and the store is known |
| CartProperties.CreateCartKeepsValid | src/main/java/com/example/baglemonster/cart/service/CartService.java:36-58 | a successful createCart keeps at most one open cart per user and at most one line item per (cart, product) |
| CartProperties.CreateCartRejectsOtherStore | src/main/java/com/example/baglemonster/cart/service/CartService.java:121-125 | an open cart of the user for another store makes createCart fail with IllegalArgument, with nothing written |
| CartProperties.CreateCartRejectsDuplicate | src/main/java/com/example/baglemonster/cart/service/CartService.java:44-46 | a product already in the user's open cart makes createCart fail with IllegalArgument |
| CartProperties.CreateCartReusesOpenCart | src/main/java/com/example/baglemonster/cart/service/CartService.java:121-128 | a known user and product, an open cart for the store and no line item for the pair make createCart succeed; no cart is created; only that cart's total changes, by price * quantity; one line item is appended |
| CartProperties.CreateCartStartsNewCart | src/main/java/com/example/baglemonster/cart/service/CartService.java:130-134 | a known user, store and product and no open cart make createCart succeed; exactly one open cart for the user and store is added under the next id, with total price * quantity |
| CartProperties.CreateCartRaisesTotal | src/main/java/com/example/baglemonster/cart/service/CartService.java:53-57 | after success the user's open cart totals the old total (zero for a new cart) plus price * quantity and holds the new line item |
| CartProperties.MissingCartIsNotFound | src/main/java/com/example/baglemonster/cart/service/CartService.java:153-157 | add, subtract, item delete, cart delete and order all fail with NotFound on an absent cart id |
| CartProperties.ForeignCartIsUnauthorized | src/main/java/com/example/baglemonster/cart/service/CartService.java:138-144 | add, subtract, item delete, cart delete and order all fail with Unauthorized on another user's cart, whatever the caller's role |
| CartProperties.MissingItemIsNotFound | src/main/java/com/example/baglemonster/cart/service/CartService.java:160-166 | on the caller's cart, an unknown product or an absent line item makes add, subtract and item delete fail with NotFound |
| CartProperties.SubtractCartProductEffect | src/main/java/com/example/baglemonster/cart/service/CartService.java:70-77 | at quantity one exactly that line item is removed; otherwise it stays, one lower; carts, totals included, are unchanged |
| CartProperties.SubtractCartProductKeepsValid | src/main/java/com/example/baglemonster/cart/service/CartService.java:70-77 | subtractCartProduct keeps the table invariants |
| CartProperties.AddCartProductEffect | src/main/java/com/example/baglemonster/cart/service/CartService.java:81-85 | only the addressed line item's quantity changes, by one; carts and their totals and all other items are unchanged |
| CartProperties.AddCartProductKeepsValid | src/main/java/com/example/baglemonster/cart/service/CartService.java:81-85 | addCartProduct keeps the table invariants |
| CartProperties.DeleteCartProductEffect | src/main/java/com/example/baglemonster/cart/service/CartService.java:89-92 | exactly the line item for the pair is removed |
| CartProperties.DeleteCartProductKeepsValid | src/main/java/com/example/baglemonster/cart/service/CartService.java:89-92 | deleteCartProduct keeps the table invariants |
| CartProperties.DeleteCartEffect | src/main/java/com/example/baglemonster/cart/service/CartService.java:96-99 | exactly the addressed cart leaves the cart table, and exactly its line items leave the item table |
| CartProperties.DeleteCartKeepsValid | src/main/java/com/example/baglemonster/cart/service/CartService.java:96-99 | deleteCart keeps the table invariants, including that every line item has its cart |
| CartProperties.OrderCartEffect | src/main/java/com/example/baglemonster/cart/service/CartService.java:103-106 | exactly the addressed cart becomes ordered; nothing else changes |
| CartProperties.OrderCartKeepsValid | src/main/java/com/example/baglemonster/cart/service/CartService.java:103-106 | orderCart keeps the table invariants |
| CartProperties.OrderIsOneWay | src/main/java/com/example/baglemonster/cart/service/CartService.java:101-106 | no cart operation turns an ordered cart back into an open one |
| CartProperties.CartScenario | src/main/java/com/example/baglemonster/cart/service/CartService.java:37-66 | a first add of two at 500 gives a new cart totalling 1000; a product of another store is then refused; a product whose own store differs from the requested store is accepted |
| CartServices.CartService.Save | src/main/java/com/example/baglemonster/cart/service/CartService.java:57 | stores the cart exactly as Carts.SaveCart specifies |
| CartServices.CartService.CreateCart | src/main/java/com/example/baglemonster/cart/service/CartService.java:36-58 | commits what Carts.CreateCart computes or throws its error with the tables unchanged; keeps the invariants |
| CartServices.CartService.SelectCart | src/main/java/com/example/baglemonster/cart/service/CartService.java:61-66 | returns what Carts.SelectCart specifies |
| CartServices.CartService.SubtractCartProduct | src/main/java/com/example/baglemonster/cart/service/CartService.java:69-77 | commits what Carts.SubtractCartProduct computes, deleting through deleteCartProduct at zero; otherwise rolls back |
| CartServices.CartService.AddCartProduct | src/main/java/com/example/baglemonster/cart/service/CartService.java:80-85 | commits what Carts.AddCartProduct computes and returns the updated line item; otherwise rolls back |
| CartServices.CartService.DeleteCartProduct | src/main/java/com/example/baglemonster/cart/service/CartService.java:88-92 | commits what Carts.DeleteCartProduct computes; otherwise rolls back |
| CartServices.CartService.DeleteCart | src/main/java/com/example/baglemonster/cart/service/CartService.java:95-99 | commits what Carts.DeleteCart computes; otherwise rolls back |
| CartServices.CartService.OrderCart | src/main/java/com/example/baglemonster/cart/service/CartService.java:102-106 | commits what Carts.OrderCart computes; otherwise rolls back |
| CartServices.CartService.SelectCarts | src/main/java/com/example/baglemonster/cart/service/CartService.java:109-114 | returns what Carts.SelectCarts specifies |
| Stores.FindStoreIndex | src/main/java/com/example/baglemonster/store/service/StoreService.java:82 | the position of a store with the id, and none exactly when no store has it |
| Stores.FindStore | src/main/java/com/example/baglemonster/store/service/StoreService.java:81-85 | the store with the id when present; IllegalArgument exactly when absent |
| Stores.FindUser | src/main/java/com/example/baglemonster/store/service/StoreService.java:88-92 | the user with the id and its authority when present; IllegalArgument exactly when absent |
| Stores.SelectStores | src/main/java/com/example/baglemonster/store/service/StoreService.java:24-28 | every store of the table, none filtered out |
| Stores.SelectStore | src/main/java/com/example/baglemonster/store/service/StoreService.java:31-35 | the store with the id when present; IllegalArgument exactly when absent |
| Stores.SelectMyStore | src/main/java/com/example/baglemonster/store/service/StoreService.java:49-54 | IllegalArgument exactly for an unknown user; otherwise a store that user owns, or nothing when the user owns none |
| Stores.CreateStore | src/main/java/com/example/baglemonster/store/service/StoreService.java:38-46 | Unauthorized exactly without the STORE authority; success appends one store and keeps the others |
| Stores.ModifyStore | src/main/java/com/example/baglemonster/store/service/StoreService.java:57-66 | Unauthorized without the STORE authority; with it, success exactly when the id is present; errors are Unauthorized or IllegalArgument; success keeps the number of stores and the next id |
| Stores.DeleteStore | src/main/java/com/example/baglemonster/store/service/StoreService.java:69-78 | Unauthorized without the STORE authority; with it, success exactly when the id is present; errors are Unauthorized or IllegalArgument; success removes one store and keeps the next id |
| StoreProperties.NonStoreRoleIsUnauthorized | src/main/java/com/example/baglemonster/store/service/StoreService.java:38-78 | without the STORE authority, create, modify and delete fail with Unauthorized, before any lookup |
| StoreProperties.CreateStoreAddsOne | src/main/java/com/example/baglemonster/store/service/StoreService.java:44-45 | a STORE user adds exactly one store, owned by that user, under a fresh id; existing stores are unchanged |
| StoreProperties.StoreRoleSufficesWithoutOwnership | src/main/java/com/example/baglemonster/store/service/StoreService.java:57-78 | any STORE user may modify and delete a present store owned by someone else |
| StoreProperties.MissingStoreIsIllegalArgument | src/main/java/com/example/baglemonster/store/service/StoreService.java:64-77 | for a STORE user, modify and delete of an absent id fail with IllegalArgument, so nothing changes |
| StoreProperties.ModifyStoreEffect | src/main/java/com/example/baglemonster/store/service/StoreService.java:64-65 | only the addressed store's descriptive columns change; its id, its owner and all other stores stay |
| StoreProperties.DeleteStoreEffect | src/main/java/com/example/baglemonster/store/service/StoreService.java:76-77 | exactly the addressed store is removed; every other store stays |
| StoreProperties.MutationsKeepValid | src/main/java/com/example/baglemonster/store/service/StoreService.java:37-78 | create, modify and delete keep store ids unique and below the next id |
| StoreServices.StoreService.CreateStore | src/main/java/com/example/baglemonster/store/service/StoreService.java:38-46 | commits what Stores.CreateStore computes or throws Unauthorized with the table unchanged |
| StoreServices.StoreService.ModifyStore | src/main/java/com/example/baglemonster/store/service/StoreService.java:57-66 | commits what Stores.ModifyStore computes, or throws its error with the table unchanged |
| StoreServices.StoreService.DeleteStore | src/main/java/com/example/baglemonster/store/service/StoreService.java:69-78 | commits what Stores.DeleteStore computes, or throws its error with the table unchanged |

## Left out

- Spring wiring, the JPA repositories and the transaction manager. Repositories are sequence-valued fields. `@Transactional` is modelled as "on error, the state is unchanged".
- Concurrency and isolation levels. Each call is one atomic step.
- Exception message strings. Only the error kind is kept.
- DTO construction and response mapping (`CartResponseDto.of`, `CartsResponseDto.of`, `CartProductResponseDto.of`, `StoreResponseDto.of`, `StoresResponseDto.of`). The responses are the rows themselves. A cart view is assumed to be the cart row with its line items.
- Entity methods whose bodies are not part of this model. They are modelled as assumptions:
  - `toCart` builds an open cart with total 0 for the user and the requested store.
  - `toEntityCartProduct` builds a line item with the requested quantity.
  - `addCartProductQuantity` / `subtractCartProductQuantity` add or subtract one.
  - `editTotalPrice` sets the total.
  - `order` sets the ordered status.
  - `toEntity` builds a store owned by the caller.
  - `editStore` replaces the descriptive columns.
- The fields of `OrderRequestDto`. `OrderCart` records only the status change.
- `UserService.findUser` and `ProductService.findProduct` are not part of this model. Both are assumed to fail with NotFound on an absent id. This is a guess: `StoreService.findUser` reads the same user repository and throws `IllegalArgumentException` (StoreService.java:88-92), and `findStore` throws it as well.
- The row id of `cart_product`. `Carts.LineItem` has no id column, and `Carts.Tables` no counter for it; the (cart, product) pair, unique by invariant, identifies a row.
- `CartResponseDto.of` and `StoreResponseDto.of` applied to `null` are not part of this model. `Carts.SelectCart` and `Stores.SelectMyStore` assume they yield an empty response, modelled as `Ok(None)`.
- The cascade from a cart to its line items depends on the `Cart` entity mapping, which is not part of this model. `DeleteCart` assumes the line items are deleted with the cart.
- A single-result query that matches several rows makes Spring Data throw. Three such queries exist: `cartRepository.findByUserAndStatus`, `cartProductRepository.findByCartAndProduct` and `storeRepository.findByUser`. The model takes the first match in table order instead. For carts, `AtMostOneOpenCartPerUser` rules out a second open cart, and for line items, `ItemsUnique` rules out a second item for the same (cart, product) pair. A user may own several stores, though.
- Managed-entity identity. Entities are values, and an in-place change to a loaded entity is modelled as rewriting its row, as dirty checking does at commit. The transient new cart of `createCart` carries the id the database will give it, so its line-item lookup finds nothing.
- Java `Integer`/`Long` arithmetic and `null` arguments. Ids, prices, quantities and totals are unbounded integers. `CreateCart` does not model overflow of `totalPrice`.
- Request validation is not visible in the service code. A `createCart` quantity of zero or less is accepted as it is, and quantity positivity is not an invariant of the model.
