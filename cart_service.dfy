/**
 * The cart service as an object over its two tables. Each method follows
 * the steps of the service: it resolves the referenced rows, raises the
 * service's error when one is missing or foreign, and otherwise writes the
 * rows it changes. Its contract ties the outcome to the function of the same
 * name in `Carts`, whose properties `CartProperties` proves.
 */
module CartServices {
  import opened Common
  import Carts
  import CartProperties

  /**
   * A transactional call either committed the state `spec` computes and
   * returned its response, or threw `spec`'s error and left the state as it was.
   */
  ghost predicate Transacted<T>(r: Result<T>, after: Carts.Tables, before: Carts.Tables, spec: Result<(Carts.Tables, T)>) {
    match spec
    case Ok(pair) => r == Ok(pair.1) && after == pair.0
    case Err(e) => r == Err(e) && after == before
  }

  /** The same, for a call that returns nothing. */
  ghost predicate Committed(r: Result<()>, after: Carts.Tables, before: Carts.Tables, spec: Result<Carts.Tables>) {
    match spec
    case Ok(t) => r == Ok(()) && after == t
    case Err(e) => r == Err(e) && after == before
  }

  class CartService {
    var carts: seq<Carts.Cart>
    var items: seq<Carts.LineItem>
    var nextCartId: int
    /** What the user, store and product services answer. */
    const catalog: Carts.Catalog

    function State(): Carts.Tables
      reads this
    {
      Carts.Tables(carts, items, nextCartId)
    }

    ghost predicate Valid()
      reads this
    {
      Carts.Valid(State())
    }

    constructor (catalog: Carts.Catalog)
      ensures Valid() && State() == Carts.Tables([], [], 1) && this.catalog == catalog
    {
      carts, items, nextCartId := [], [], 1;
      this.catalog := catalog;
    }

    /** cartRepository.save: update the cart's row, or insert it under the next id. */
    method Save(cart: Carts.Cart)
      modifies this
      ensures State() == Carts.SaveCart(old(State()), cart)
    {
      match Carts.FindCart(carts, cart.id)
      case Some(i) =>
        carts := carts[i := cart];
      case None =>
        carts := carts + [cart];
        nextCartId := nextCartId + 1;
    }

    method CreateCart(req: Carts.CartRequest, user: User) returns (r: Result<()>)
      requires Valid()
      modifies this
      ensures Valid()
      ensures Committed(r, State(), old(State()), Carts.CreateCart(old(State()), catalog, req, user))
    {
      if user.id !in catalog.users {
        return Err(NotFound);
      }
      var found := Carts.CartFor(State(), catalog, req, user.id);
      if found.Err? {
        return Err(found.error);
      }
      var cart := found.value;
      if req.productId !in catalog.products {
        return Err(NotFound);
      }
      var product := catalog.products[req.productId];
      if Carts.FindItem(items, cart.id, req.productId).Some? {
        return Err(IllegalArgument);
      }
      ghost var before := State();
      items := items + [Carts.LineItem(cart.id, req.productId, req.quantity)];
      ghost var withItem := State();
      cart := cart.(totalPrice := cart.totalPrice + product.price * req.quantity);
      Save(cart);
      assert State() == Carts.SaveCart(withItem, cart);
      assert Carts.CreateCart(before, catalog, req, user) == Ok(State());
      CartProperties.CreateCartKeepsValid(before, catalog, req, user);
      return Ok(());
    }

    method SelectCart(user: User) returns (r: Result<Option<Carts.CartView>>)
      ensures r == Carts.SelectCart(State(), catalog, user)
    {
      if user.id !in catalog.users {
        return Err(NotFound);
      }
      match Carts.FindOpenCart(carts, user.id)
      case None =>
        return Ok(None);
      case Some(i) =>
        return Ok(Some(Carts.CartView(carts[i], Carts.ItemsOf(items, carts[i].id))));
    }

    method SubtractCartProduct(cartId: int, productId: int, user: User) returns (r: Result<Carts.LineItem>)
      requires Valid()
      modifies this
      ensures Valid()
      ensures Transacted(r, State(), old(State()), Carts.SubtractCartProduct(old(State()), catalog, cartId, productId, user))
    {
      var found := Carts.GuardItem(State(), catalog, cartId, productId, user);
      if found.Err? {
        return Err(found.error);
      }
      var j, before := found.value, items;
      var item := items[j].(quantity := items[j].quantity - 1);
      CartProperties.UpdateQuantityKeepsValid(State(), j, item.quantity);
      items := items[j := item];
      if item.quantity == 0 {
        var deleted := DeleteCartProduct(cartId, productId, user);
        if deleted.Err? {
          items := before;
          return Err(deleted.error);
        }
      }
      return Ok(item);
    }

    method AddCartProduct(cartId: int, productId: int, user: User) returns (r: Result<Carts.LineItem>)
      requires Valid()
      modifies this
      ensures Valid()
      ensures Transacted(r, State(), old(State()), Carts.AddCartProduct(old(State()), catalog, cartId, productId, user))
    {
      var found := Carts.GuardItem(State(), catalog, cartId, productId, user);
      if found.Err? {
        return Err(found.error);
      }
      var j := found.value;
      var item := items[j].(quantity := items[j].quantity + 1);
      CartProperties.UpdateQuantityKeepsValid(State(), j, item.quantity);
      items := items[j := item];
      return Ok(item);
    }

    method DeleteCartProduct(cartId: int, productId: int, user: User) returns (r: Result<()>)
      requires Valid()
      modifies this
      ensures Valid()
      ensures Committed(r, State(), old(State()), Carts.DeleteCartProduct(old(State()), catalog, cartId, productId, user))
    {
      var found := Carts.GuardItem(State(), catalog, cartId, productId, user);
      if found.Err? {
        return Err(found.error);
      }
      CartProperties.RemoveItemKeepsValid(State(), found.value);
      items := RemoveAt(items, found.value);
      return Ok(());
    }

    method DeleteCart(cartId: int, user: User) returns (r: Result<()>)
      requires Valid()
      modifies this
      ensures Valid()
      ensures Committed(r, State(), old(State()), Carts.DeleteCart(old(State()), cartId, user))
    {
      var found := Carts.GuardCart(carts, cartId, user);
      if found.Err? {
        return Err(found.error);
      }
      CartProperties.DeleteCartKeepsValid(State(), cartId, user);
      carts := RemoveAt(carts, found.value);
      items := Filter(items, (it: Carts.LineItem) => it.cartId != cartId);
      return Ok(());
    }

    method OrderCart(cartId: int, user: User) returns (r: Result<()>)
      requires Valid()
      modifies this
      ensures Valid()
      ensures Committed(r, State(), old(State()), Carts.OrderCart(old(State()), cartId, user))
    {
      var found := Carts.GuardCart(carts, cartId, user);
      if found.Err? {
        return Err(found.error);
      }
      CartProperties.OrderCartKeepsValid(State(), cartId, user);
      var i := found.value;
      carts := carts[i := carts[i].(ordered := true)];
      return Ok(());
    }

    method SelectCarts(user: User) returns (r: Result<seq<Carts.Cart>>)
      ensures r == Carts.SelectCarts(State(), catalog, user)
    {
      if user.id !in catalog.users {
        return Err(NotFound);
      }
      return Ok(Carts.CartsOf(carts, user.id));
    }
  }
}
