/**
 * The business rules of the cart service, as functions over the cart and
 * line-item tables.
 *
 * Every public operation is transactional: it either yields the tables as
 * they stand after commit, or the error it threw, in which case the tables
 * are those it started from. The tables of other services (users, stores,
 * products) are only read, and are gathered in a `Catalog`.
 */
module Carts {
  import opened Common

  /** A row of the cart table; `ordered` is the status column (false = open). */
  datatype Cart = Cart(id: int, ownerId: int, storeId: int, ordered: bool, totalPrice: int)

  /**
   * A row of the cart-product table: one product in one cart, with its
   * quantity. The table's own row id is not modelled; the pair is the key.
   */
  datatype LineItem = LineItem(cartId: int, productId: int, quantity: int)

  datatype Product = Product(storeId: int, price: int)

  /** The body of an add-to-cart request. */
  datatype CartRequest = CartRequest(productId: int, storeId: int, quantity: int)

  /** What the cart service reads through the user, store and product services. */
  datatype Catalog = Catalog(users: set<int>, stores: set<int>, products: map<int, Product>)

  /**
   * The tables the cart service writes. `nextCartId` is the identifier the
   * database will give the next cart it stores.
   */
  datatype Tables = Tables(carts: seq<Cart>, items: seq<LineItem>, nextCartId: int)

  /** What a cart lookup shows: the cart row and its line items. */
  datatype CartView = CartView(cart: Cart, lines: seq<LineItem>)

  // ---------------------------------------------------------------------
  // Table invariants
  // ---------------------------------------------------------------------

  ghost predicate HasCart(carts: seq<Cart>, id: int) {
    exists i :: 0 <= i < |carts| && carts[i].id == id
  }

  ghost predicate CartIdsUnique(carts: seq<Cart>) {
    forall i, j :: 0 <= i < j < |carts| ==> carts[i].id != carts[j].id
  }

  ghost predicate CartIdsBelow(carts: seq<Cart>, next: int) {
    forall i :: 0 <= i < |carts| ==> carts[i].id < next
  }

  /** A user never has two carts that are both still open. */
  ghost predicate AtMostOneOpenCartPerUser(carts: seq<Cart>) {
    forall i, j ::
      0 <= i < j < |carts| && !carts[i].ordered && !carts[j].ordered ==>
        carts[i].ownerId != carts[j].ownerId
  }

  /** No two line items share a (cart, product) pair. */
  ghost predicate ItemsUnique(items: seq<LineItem>) {
    forall i, j ::
      0 <= i < j < |items| ==>
        items[i].cartId != items[j].cartId || items[i].productId != items[j].productId
  }

  /** Every line item belongs to a cart that is in the cart table. */
  ghost predicate ItemsReferenceCarts(t: Tables) {
    forall j :: 0 <= j < |t.items| ==> HasCart(t.carts, t.items[j].cartId)
  }

  ghost predicate Valid(t: Tables) {
    && CartIdsUnique(t.carts)
    && CartIdsBelow(t.carts, t.nextCartId)
    && AtMostOneOpenCartPerUser(t.carts)
    && ItemsUnique(t.items)
    && ItemsReferenceCarts(t)
  }

  // ---------------------------------------------------------------------
  // Repository queries
  // ---------------------------------------------------------------------

  /** cartRepository.findById: the position of the cart with this id. */
  function FindCart(carts: seq<Cart>, id: int): (r: Option<nat>)
    ensures r.Some? ==> r.value < |carts| && carts[r.value].id == id
    ensures r.None? <==> !HasCart(carts, id)
  {
    FirstIndex(carts, (c: Cart) => c.id == id)
  }

  /** cartRepository.findByUserAndStatus(user, false): the user's open cart. */
  function FindOpenCart(carts: seq<Cart>, ownerId: int): (r: Option<nat>)
    ensures r.Some? ==> r.value < |carts| && carts[r.value].ownerId == ownerId && !carts[r.value].ordered
    ensures r.None? <==> forall i :: 0 <= i < |carts| ==> carts[i].ownerId != ownerId || carts[i].ordered
  {
    FirstIndex(carts, (c: Cart) => c.ownerId == ownerId && !c.ordered)
  }

  /** cartProductRepository.findByCartAndProduct: the line item for the pair. */
  function FindItem(items: seq<LineItem>, cartId: int, productId: int): (r: Option<nat>)
    ensures r.Some? ==> r.value < |items| && items[r.value].cartId == cartId && items[r.value].productId == productId
    ensures r.None? <==> forall j :: 0 <= j < |items| ==> items[j].cartId != cartId || items[j].productId != productId
  {
    FirstIndex(items, (it: LineItem) => it.cartId == cartId && it.productId == productId)
  }

  /** The line items of one cart, in table order. */
  function ItemsOf(items: seq<LineItem>, cartId: int): (r: seq<LineItem>)
    ensures forall k :: 0 <= k < |r| ==> r[k].cartId == cartId && r[k] in items
    ensures forall j :: 0 <= j < |items| && items[j].cartId == cartId ==> items[j] in r
  {
    Filter(items, (it: LineItem) => it.cartId == cartId)
  }

  /** cartRepository.findAllByUser: every cart of the user, open or ordered. */
  function CartsOf(carts: seq<Cart>, ownerId: int): (r: seq<Cart>)
    ensures forall k :: 0 <= k < |r| ==> r[k].ownerId == ownerId && r[k] in carts
    ensures forall i :: 0 <= i < |carts| && carts[i].ownerId == ownerId ==> carts[i] in r
  {
    Filter(carts, (c: Cart) => c.ownerId == ownerId)
  }

  // ---------------------------------------------------------------------
  // Private helpers of the service
  // ---------------------------------------------------------------------

  /** cartRequestDto.toCart: a new cart starts open and empty. */
  function NewCart(id: int, ownerId: int, storeId: int): (r: Cart)
    ensures r.id == id && r.ownerId == ownerId && r.storeId == storeId
    ensures !r.ordered && r.totalPrice == 0
  {
    Cart(id, ownerId, storeId, false, 0)
  }

  /**
   * getCart(user, request): the user's open cart when it is for the requested
   * store; a new, not yet stored cart when the user has no open cart.
   */
  function CartFor(t: Tables, cat: Catalog, req: CartRequest, userId: int): (r: Result<Cart>)
    ensures r.Err? ==> r.error == IllegalArgument
    ensures r.Ok? ==> r.value.ownerId == userId && r.value.storeId == req.storeId && !r.value.ordered
    ensures FindOpenCart(t.carts, userId).Some? ==>
      var i := FindOpenCart(t.carts, userId).value;
      && (r.Ok? <==> t.carts[i].storeId == req.storeId)
      && (r.Ok? ==> r.value == t.carts[i])
    ensures FindOpenCart(t.carts, userId).None? ==>
      && (r.Ok? <==> req.storeId in cat.stores)
      && (r.Ok? ==> r.value == NewCart(t.nextCartId, userId, req.storeId))
  {
    match FindOpenCart(t.carts, userId)
    case Some(i) =>
      if t.carts[i].storeId != req.storeId then Err(IllegalArgument) else Ok(t.carts[i])
    case None =>
      if req.storeId !in cat.stores then Err(IllegalArgument)
      else Ok(NewCart(t.nextCartId, userId, req.storeId))
  }

  /**
   * getCart(cartId, user): the ownership guard in front of every operation
   * that addresses a cart by id.
   */
  function GuardCart(carts: seq<Cart>, cartId: int, user: User): (r: Result<nat>)
    ensures r.Err? ==> r.error == NotFound || r.error == Unauthorized
    ensures r == Err(NotFound) <==> !HasCart(carts, cartId)
    ensures r == Err(Unauthorized) <==>
      exists i :: 0 <= i < |carts| && carts[i].id == cartId && carts[i].ownerId != user.id &&
        forall k :: 0 <= k < i ==> carts[k].id != cartId
    ensures r.Ok? ==> r.value < |carts| && carts[r.value].id == cartId && carts[r.value].ownerId == user.id
  {
    match FindCart(carts, cartId)
    case None => Err(NotFound)
    case Some(i) => if carts[i].ownerId != user.id then Err(Unauthorized) else Ok(i)
  }

  /**
   * getCartProduct: the guarded cart, then the product, then the line item
   * for the pair; each missing one is NotFound.
   */
  function GuardItem(t: Tables, cat: Catalog, cartId: int, productId: int, user: User): (r: Result<nat>)
    ensures r.Err? ==> r.error == NotFound || r.error == Unauthorized
    ensures GuardCart(t.carts, cartId, user).Err? ==> r == Err(GuardCart(t.carts, cartId, user).error)
    ensures GuardCart(t.carts, cartId, user).Ok? ==>
      (r.Ok? <==> productId in cat.products && FindItem(t.items, cartId, productId).Some?)
    ensures GuardCart(t.carts, cartId, user).Ok? && r.Err? ==> r.error == NotFound
    ensures r.Ok? ==>
      && GuardCart(t.carts, cartId, user).Ok?
      && productId in cat.products
      && r.value < |t.items| && t.items[r.value].cartId == cartId && t.items[r.value].productId == productId
  {
    match GuardCart(t.carts, cartId, user)
    case Err(e) => Err(e)
    case Ok(_) =>
      if productId !in cat.products then Err(NotFound)
      else match FindItem(t.items, cartId, productId)
        case None => Err(NotFound)
        case Some(j) => Ok(j)
  }

  /** cartRepository.save: update the row with the cart's id, or insert a new one. */
  function SaveCart(t: Tables, cart: Cart): (r: Tables)
    ensures r.items == t.items && cart in r.carts
    ensures HasCart(t.carts, cart.id) ==>
      && |r.carts| == |t.carts| && r.nextCartId == t.nextCartId
      && forall k :: 0 <= k < |t.carts| && t.carts[k].id != cart.id ==> r.carts[k] == t.carts[k]
    ensures !HasCart(t.carts, cart.id) ==> r.carts == t.carts + [cart] && r.nextCartId == t.nextCartId + 1
  {
    match FindCart(t.carts, cart.id)
    case Some(i) =>
      assert t.carts[i := cart][i] == cart;
      t.(carts := t.carts[i := cart])
    case None => t.(carts := t.carts + [cart], nextCartId := t.nextCartId + 1)
  }

  // ---------------------------------------------------------------------
  // Public operations
  // ---------------------------------------------------------------------

  /**
   * createCart: put a product with a quantity into the user's open cart (a new
   * one if there is none), and raise the cart's total by price * quantity.
   */
  function CreateCart(t: Tables, cat: Catalog, req: CartRequest, user: User): (r: Result<Tables>)
    ensures user.id !in cat.users ==> r == Err(NotFound)
    ensures user.id in cat.users && FindOpenCart(t.carts, user.id).None? && req.storeId !in cat.stores ==>
      r == Err(IllegalArgument)
    ensures user.id in cat.users && CartFor(t, cat, req, user.id).Ok? && req.productId !in cat.products ==>
      r == Err(NotFound)
    ensures r.Err? ==> r.error == NotFound || r.error == IllegalArgument
    ensures r.Ok? ==>
      && |r.value.items| == |t.items| + 1 && r.value.items[..|t.items|] == t.items
      && r.value.items[|t.items|].productId == req.productId && r.value.items[|t.items|].quantity == req.quantity
      && |t.carts| <= |r.value.carts| <= |t.carts| + 1
  {
    if user.id !in cat.users then Err(NotFound)
    else match CartFor(t, cat, req, user.id)
      case Err(e) => Err(e)
      case Ok(cart) =>
        if req.productId !in cat.products then Err(NotFound)
        else if FindItem(t.items, cart.id, req.productId).Some? then Err(IllegalArgument)
        else
          var product := cat.products[req.productId];
          var withItem := t.(items := t.items + [LineItem(cart.id, req.productId, req.quantity)]);
          Ok(SaveCart(withItem, cart.(totalPrice := cart.totalPrice + product.price * req.quantity)))
  }

  /** selectCart: the user's open cart, or nothing when the user has none. */
  function SelectCart(t: Tables, cat: Catalog, user: User): (r: Result<Option<CartView>>)
    ensures r.Err? <==> user.id !in cat.users
    ensures r.Err? ==> r.error == NotFound
    ensures r.Ok? && r.value.Some? ==>
      var view := r.value.value;
      && view.cart in t.carts && view.cart.ownerId == user.id && !view.cart.ordered
      && (forall j :: 0 <= j < |t.items| && t.items[j].cartId == view.cart.id ==> t.items[j] in view.lines)
      && (forall k :: 0 <= k < |view.lines| ==> view.lines[k].cartId == view.cart.id && view.lines[k] in t.items)
    ensures r.Ok? && r.value.None? ==>
      forall i :: 0 <= i < |t.carts| ==> t.carts[i].ownerId != user.id || t.carts[i].ordered
  {
    if user.id !in cat.users then Err(NotFound)
    else match FindOpenCart(t.carts, user.id)
      case None => Ok(None)
      case Some(i) => Ok(Some(CartView(t.carts[i], ItemsOf(t.items, t.carts[i].id))))
  }

  /** subtractCartProduct: one less of the product; at zero the line item is deleted. */
  function SubtractCartProduct(t: Tables, cat: Catalog, cartId: int, productId: int, user: User): (r: Result<(Tables, LineItem)>)
    ensures r.Err? ==> r.error == NotFound || r.error == Unauthorized
    ensures r.Ok? ==>
      && r.value.0.carts == t.carts && r.value.0.nextCartId == t.nextCartId
      && r.value.1.cartId == cartId && r.value.1.productId == productId
      && (r.value.1.quantity == 0 <==> |r.value.0.items| == |t.items| - 1)
  {
    match GuardItem(t, cat, cartId, productId, user)
    case Err(e) => Err(e)
    case Ok(j) =>
      var item := t.items[j].(quantity := t.items[j].quantity - 1);
      var decremented := t.(items := t.items[j := item]);
      if item.quantity == 0 then
        match DeleteCartProduct(decremented, cat, cartId, productId, user)
        case Err(e) => Err(e)
        case Ok(deleted) => Ok((deleted, item))
      else Ok((decremented, item))
  }

  /** addCartProduct: one more of the product; nothing else changes. */
  function AddCartProduct(t: Tables, cat: Catalog, cartId: int, productId: int, user: User): (r: Result<(Tables, LineItem)>)
    ensures r.Err? ==> r.error == NotFound || r.error == Unauthorized
    ensures r.Ok? ==>
      && r.value.0.carts == t.carts && r.value.0.nextCartId == t.nextCartId
      && |r.value.0.items| == |t.items| && r.value.1 in r.value.0.items
      && r.value.1.cartId == cartId && r.value.1.productId == productId
  {
    match GuardItem(t, cat, cartId, productId, user)
    case Err(e) => Err(e)
    case Ok(j) =>
      var item := t.items[j].(quantity := t.items[j].quantity + 1);
      assert t.items[j := item][j] == item;
      Ok((t.(items := t.items[j := item]), item))
  }

  /** deleteCartProduct: remove the line item for the pair. */
  function DeleteCartProduct(t: Tables, cat: Catalog, cartId: int, productId: int, user: User): (r: Result<Tables>)
    ensures r.Err? ==> r.error == NotFound || r.error == Unauthorized
    ensures r.Ok? ==>
      && r.value.carts == t.carts && r.value.nextCartId == t.nextCartId
      && |r.value.items| == |t.items| - 1
  {
    match GuardItem(t, cat, cartId, productId, user)
    case Err(e) => Err(e)
    case Ok(j) => Ok(t.(items := RemoveAt(t.items, j)))
  }

  /** deleteCart: remove the cart; its line items go with it. */
  function DeleteCart(t: Tables, cartId: int, user: User): (r: Result<Tables>)
    ensures r.Err? ==> r.error == NotFound || r.error == Unauthorized
    ensures r.Ok? ==>
      && |r.value.carts| == |t.carts| - 1 && r.value.nextCartId == t.nextCartId
      && forall k :: 0 <= k < |r.value.items| ==> r.value.items[k].cartId != cartId
  {
    match GuardCart(t.carts, cartId, user)
    case Err(e) => Err(e)
    case Ok(i) =>
      Ok(Tables(RemoveAt(t.carts, i), Filter(t.items, (it: LineItem) => it.cartId != cartId), t.nextCartId))
  }

  /** orderCart: mark the cart as ordered. */
  function OrderCart(t: Tables, cartId: int, user: User): (r: Result<Tables>)
    ensures r.Err? ==> r.error == NotFound || r.error == Unauthorized
    ensures r.Ok? ==>
      && |r.value.carts| == |t.carts| && r.value.items == t.items && r.value.nextCartId == t.nextCartId
      && exists i :: 0 <= i < |t.carts| && t.carts[i].id == cartId && r.value.carts[i].ordered
  {
    match GuardCart(t.carts, cartId, user)
    case Err(e) => Err(e)
    case Ok(i) => Ok(t.(carts := t.carts[i := t.carts[i].(ordered := true)]))
  }

  /** selectCarts: every cart of the user, in table order. */
  function SelectCarts(t: Tables, cat: Catalog, user: User): (r: Result<seq<Cart>>)
    ensures r.Err? <==> user.id !in cat.users
    ensures r.Err? ==> r.error == NotFound
    ensures r.Ok? ==> forall c :: c in r.value <==> c in t.carts && c.ownerId == user.id
  {
    if user.id !in cat.users then Err(NotFound) else Ok(CartsOf(t.carts, user.id))
  }
}
