/**
 * What the cart service promises, proved about the functions of `Carts`:
 * every operation keeps the table invariants (at most one open cart per user,
 * at most one line item per cart and product), the ownership guard decides
 * the error of every cart-addressed operation, createCart raises the total by
 * exactly price * quantity, and each operation changes only what it addresses.
 */
module CartProperties {
  import opened Common
  import opened Carts

  // ---------------------------------------------------------------------
  // Queries on tables with unique keys
  // ---------------------------------------------------------------------

  lemma FindCartAt(carts: seq<Cart>, i: nat)
    requires CartIdsUnique(carts) && i < |carts|
    ensures FindCart(carts, carts[i].id) == Some(i)
  {
    var r := FindCart(carts, carts[i].id);
    assert r.Some?;
  }

  lemma FindOpenCartAt(carts: seq<Cart>, i: nat)
    requires AtMostOneOpenCartPerUser(carts) && i < |carts| && !carts[i].ordered
    ensures FindOpenCart(carts, carts[i].ownerId) == Some(i)
  {
    var r := FindOpenCart(carts, carts[i].ownerId);
    assert r.Some?;
  }

  lemma FindItemAt(items: seq<LineItem>, j: nat)
    requires ItemsUnique(items) && j < |items|
    ensures FindItem(items, items[j].cartId, items[j].productId) == Some(j)
  {
    var r := FindItem(items, items[j].cartId, items[j].productId);
    assert r.Some?;
  }

  /** In a table of unique line items, no later item repeats the first one's pair. */
  lemma HeadPairNotRepeated(items: seq<LineItem>, x: LineItem)
    requires ItemsUnique(items) && |items| > 0 && x in items[1..]
    ensures x.cartId != items[0].cartId || x.productId != items[0].productId
  {
    var m :| 0 <= m < |items[1..]| && items[1..][m] == x;
    assert items[m + 1] == x;
  }

  lemma TailItemsUnique(items: seq<LineItem>)
    requires ItemsUnique(items) && |items| > 0
    ensures ItemsUnique(items[1..])
  {
    var rest := items[1..];
    forall a, b | 0 <= a < b < |rest|
      ensures rest[a].cartId != rest[b].cartId || rest[a].productId != rest[b].productId
    {
      assert rest[a] == items[a + 1] && rest[b] == items[b + 1];
    }
  }

  /** A filtered table of line items keeps them unique. */
  lemma {:induction false} FilterKeepsItemsUnique(items: seq<LineItem>, p: LineItem -> bool)
    requires ItemsUnique(items)
    ensures ItemsUnique(Filter(items, p))
    decreases |items|
  {
    if |items| > 0 {
      var rest := items[1..];
      TailItemsUnique(items);
      FilterKeepsItemsUnique(rest, p);
      if p(items[0]) {
        var tail := Filter(rest, p);
        var r := [items[0]] + tail;
        assert Filter(items, p) == r;
        forall a, b | 0 <= a < b < |r|
          ensures r[a].cartId != r[b].cartId || r[a].productId != r[b].productId
        {
          assert r[b] == tail[b - 1];
          if a == 0 {
            HeadPairNotRepeated(items, tail[b - 1]);
          } else {
            assert r[a] == tail[a - 1];
          }
        }
      }
    }
  }

  // ---------------------------------------------------------------------
  // The invariants are kept by every operation
  // ---------------------------------------------------------------------

  /** Appending a line item whose pair is not yet present keeps the items unique. */
  lemma AppendItemKeepsUnique(items: seq<LineItem>, item: LineItem)
    requires ItemsUnique(items)
    requires FindItem(items, item.cartId, item.productId).None?
    ensures ItemsUnique(items + [item])
  {
    var items' := items + [item];
    forall a, b | 0 <= a < b < |items'|
      ensures items'[a].cartId != items'[b].cartId || items'[a].productId != items'[b].productId
    {
      assert items'[a] == items[a];
      if b < |items| {
        assert items'[b] == items[b];
      }
    }
  }

  /** Writing back an open cart under its own id, with one more line item for it, keeps the invariants. */
  lemma ReplaceCartKeepsValid(t: Tables, i: nat, saved: Cart, item: LineItem)
    requires Valid(t) && i < |t.carts|
    requires saved.id == t.carts[i].id && saved.ownerId == t.carts[i].ownerId && saved.ordered == t.carts[i].ordered
    requires item.cartId == saved.id && FindItem(t.items, item.cartId, item.productId).None?
    ensures Valid(Tables(t.carts[i := saved], t.items + [item], t.nextCartId))
  {
    var t' := Tables(t.carts[i := saved], t.items + [item], t.nextCartId);
    AppendItemKeepsUnique(t.items, item);
    forall j | 0 <= j < |t'.items| ensures HasCart(t'.carts, t'.items[j].cartId) {
      if j == |t.items| {
        assert t'.carts[i].id == item.cartId;
      } else {
        assert t'.items[j] == t.items[j];
        var m :| 0 <= m < |t.carts| && t.carts[m].id == t.items[j].cartId;
        assert t'.carts[m].id == t.carts[m].id;
      }
    }
  }

  /** Storing a cart under the next id, for a user without an open cart, with its first line item keeps the invariants. */
  lemma InsertCartKeepsValid(t: Tables, saved: Cart, item: LineItem)
    requires Valid(t)
    requires saved.id == t.nextCartId
    requires forall i :: 0 <= i < |t.carts| ==> t.carts[i].ownerId != saved.ownerId || t.carts[i].ordered
    requires item.cartId == saved.id && FindItem(t.items, item.cartId, item.productId).None?
    ensures Valid(Tables(t.carts + [saved], t.items + [item], t.nextCartId + 1))
  {
    var t' := Tables(t.carts + [saved], t.items + [item], t.nextCartId + 1);
    AppendItemKeepsUnique(t.items, item);
    forall a, b | 0 <= a < b < |t'.carts| && !t'.carts[a].ordered && !t'.carts[b].ordered
      ensures t'.carts[a].ownerId != t'.carts[b].ownerId
    {
      assert t'.carts[a] == t.carts[a];
      if b < |t.carts| {
        assert t'.carts[b] == t.carts[b];
      }
    }
    forall j | 0 <= j < |t'.items| ensures HasCart(t'.carts, t'.items[j].cartId) {
      if j == |t.items| {
        assert t'.carts[|t.carts|].id == item.cartId;
      } else {
        assert t'.items[j] == t.items[j];
        var m :| 0 <= m < |t.carts| && t.carts[m].id == t.items[j].cartId;
        assert t'.carts[m].id == t.carts[m].id;
      }
    }
  }

  /** createCart keeps one open cart per user and one line item per (cart, product). */
  lemma CreateCartKeepsValid(t: Tables, cat: Catalog, req: CartRequest, user: User)
    requires Valid(t)
    ensures CreateCart(t, cat, req, user).Ok? ==> Valid(CreateCart(t, cat, req, user).value)
  {
    if CreateCart(t, cat, req, user).Ok? {
      var cart := CartFor(t, cat, req, user.id).value;
      var item := LineItem(cart.id, req.productId, req.quantity);
      var saved := cart.(totalPrice := cart.totalPrice + cat.products[req.productId].price * req.quantity);
      match FindOpenCart(t.carts, user.id)
      case Some(i) =>
        CreateCartReusesOpenCart(t, cat, req, user, i);
        ReplaceCartKeepsValid(t, i, saved, item);
      case None =>
        CreateCartStartsNewCart(t, cat, req, user);
        InsertCartKeepsValid(t, saved, item);
    }
  }

  /** Changing one line item's quantity keeps the invariants. */
  lemma UpdateQuantityKeepsValid(t: Tables, j: nat, q: int)
    requires Valid(t) && j < |t.items|
    ensures Valid(t.(items := t.items[j := t.items[j].(quantity := q)]))
  {
    var t' := t.(items := t.items[j := t.items[j].(quantity := q)]);
    assert forall k :: 0 <= k < |t.items| ==>
      t'.items[k].cartId == t.items[k].cartId && t'.items[k].productId == t.items[k].productId;
  }

  /** Removing one line item keeps the invariants. */
  lemma RemoveItemKeepsValid(t: Tables, j: nat)
    requires Valid(t) && j < |t.items|
    ensures Valid(t.(items := RemoveAt(t.items, j)))
  {
    var t' := t.(items := RemoveAt(t.items, j));
    assert ItemsUnique(t'.items) by {
      forall a, b | 0 <= a < b < |t'.items|
        ensures t'.items[a].cartId != t'.items[b].cartId || t'.items[a].productId != t'.items[b].productId
      {
        var a' := if a < j then a else a + 1;
        var b' := if b < j then b else b + 1;
        assert t'.items[a] == t.items[a'] && t'.items[b] == t.items[b'];
      }
    }
    assert ItemsReferenceCarts(t') by {
      forall k | 0 <= k < |t'.items| ensures HasCart(t'.carts, t'.items[k].cartId) {
        var k' := if k < j then k else k + 1;
        assert t'.items[k] == t.items[k'];
      }
    }
  }

  lemma AddCartProductKeepsValid(t: Tables, cat: Catalog, cartId: int, productId: int, user: User)
    requires Valid(t)
    ensures AddCartProduct(t, cat, cartId, productId, user).Ok? ==>
      Valid(AddCartProduct(t, cat, cartId, productId, user).value.0)
  {
    if AddCartProduct(t, cat, cartId, productId, user).Ok? {
      var j := GuardItem(t, cat, cartId, productId, user).value;
      UpdateQuantityKeepsValid(t, j, t.items[j].quantity + 1);
    }
  }

  lemma DeleteCartProductKeepsValid(t: Tables, cat: Catalog, cartId: int, productId: int, user: User)
    requires Valid(t)
    ensures DeleteCartProduct(t, cat, cartId, productId, user).Ok? ==>
      Valid(DeleteCartProduct(t, cat, cartId, productId, user).value)
  {
    if DeleteCartProduct(t, cat, cartId, productId, user).Ok? {
      RemoveItemKeepsValid(t, GuardItem(t, cat, cartId, productId, user).value);
    }
  }

  lemma SubtractCartProductKeepsValid(t: Tables, cat: Catalog, cartId: int, productId: int, user: User)
    requires Valid(t)
    ensures SubtractCartProduct(t, cat, cartId, productId, user).Ok? ==>
      Valid(SubtractCartProduct(t, cat, cartId, productId, user).value.0)
  {
    if SubtractCartProduct(t, cat, cartId, productId, user).Ok? {
      var j := GuardItem(t, cat, cartId, productId, user).value;
      var decremented := t.(items := t.items[j := t.items[j].(quantity := t.items[j].quantity - 1)]);
      UpdateQuantityKeepsValid(t, j, t.items[j].quantity - 1);
      DeleteCartProductKeepsValid(decremented, cat, cartId, productId, user);
    }
  }

  /** Removing one cart row keeps the cart-table invariants. */
  lemma RemoveCartKeepsCartInvariants(carts: seq<Cart>, i: nat, next: int)
    requires CartIdsUnique(carts) && CartIdsBelow(carts, next) && AtMostOneOpenCartPerUser(carts)
    requires i < |carts|
    ensures var rest := RemoveAt(carts, i);
      CartIdsUnique(rest) && CartIdsBelow(rest, next) && AtMostOneOpenCartPerUser(rest)
  {
    var rest := RemoveAt(carts, i);
    assert forall a :: 0 <= a < |rest| ==> rest[a] == carts[if a < i then a else a + 1];
  }

  /** After removing cart `i` and its line items, every remaining line item still has its cart. */
  lemma CascadeKeepsReferences(t: Tables, i: nat)
    requires ItemsReferenceCarts(t) && i < |t.carts|
    ensures ItemsReferenceCarts(Tables(RemoveAt(t.carts, i), Filter(t.items, (it: LineItem) => it.cartId != t.carts[i].id), t.nextCartId))
  {
    var cartId := t.carts[i].id;
    var t' := Tables(RemoveAt(t.carts, i), Filter(t.items, (it: LineItem) => it.cartId != cartId), t.nextCartId);
    forall k | 0 <= k < |t'.items| ensures HasCart(t'.carts, t'.items[k].cartId) {
      var it := t'.items[k];
      assert it in t.items && it.cartId != cartId;
      var j :| 0 <= j < |t.items| && t.items[j] == it;
      var m :| 0 <= m < |t.carts| && t.carts[m].id == it.cartId;
      var m' := if m < i then m else m - 1;
      assert t'.carts[m'] == t.carts[m];
    }
  }

  lemma DeleteCartKeepsValid(t: Tables, cartId: int, user: User)
    requires Valid(t)
    ensures DeleteCart(t, cartId, user).Ok? ==> Valid(DeleteCart(t, cartId, user).value)
  {
    if DeleteCart(t, cartId, user).Ok? {
      var i := GuardCart(t.carts, cartId, user).value;
      RemoveCartKeepsCartInvariants(t.carts, i, t.nextCartId);
      FilterKeepsItemsUnique(t.items, (it: LineItem) => it.cartId != cartId);
      CascadeKeepsReferences(t, i);
    }
  }

  lemma OrderCartKeepsValid(t: Tables, cartId: int, user: User)
    requires Valid(t)
    ensures OrderCart(t, cartId, user).Ok? ==> Valid(OrderCart(t, cartId, user).value)
  {
    if OrderCart(t, cartId, user).Ok? {
      var i := GuardCart(t.carts, cartId, user).value;
      var t' := OrderCart(t, cartId, user).value;
      assert forall a :: 0 <= a < |t.carts| ==> t'.carts[a].id == t.carts[a].id;
      assert ItemsReferenceCarts(t') by {
        forall k | 0 <= k < |t'.items| ensures HasCart(t'.carts, t'.items[k].cartId) {
          var m :| 0 <= m < |t.carts| && t.carts[m].id == t.items[k].cartId;
          assert t'.carts[m].id == t.carts[m].id;
        }
      }
    }
  }

  // ---------------------------------------------------------------------
  // createCart
  // ---------------------------------------------------------------------

  /** An open cart for another store makes createCart fail; nothing is written. */
  lemma CreateCartRejectsOtherStore(t: Tables, cat: Catalog, req: CartRequest, user: User, i: nat)
    requires AtMostOneOpenCartPerUser(t.carts)
    requires user.id in cat.users
    requires i < |t.carts| && t.carts[i].ownerId == user.id && !t.carts[i].ordered
    requires t.carts[i].storeId != req.storeId
    ensures CreateCart(t, cat, req, user) == Err(IllegalArgument)
  {
    FindOpenCartAt(t.carts, i);
  }

  /** A product already in the user's open cart is not added a second time. */
  lemma CreateCartRejectsDuplicate(t: Tables, cat: Catalog, req: CartRequest, user: User, i: nat, j: nat)
    requires AtMostOneOpenCartPerUser(t.carts)
    requires user.id in cat.users && req.productId in cat.products
    requires i < |t.carts| && t.carts[i].ownerId == user.id && !t.carts[i].ordered
    requires t.carts[i].storeId == req.storeId
    requires j < |t.items| && t.items[j].cartId == t.carts[i].id && t.items[j].productId == req.productId
    ensures CreateCart(t, cat, req, user) == Err(IllegalArgument)
  {
    FindOpenCartAt(t.carts, i);
  }

  /**
   * With an open cart for the requested store that does not yet hold the
   * product, createCart succeeds and reuses that cart: no cart is created, the
   * total of that cart grows by price * quantity, one line item is appended,
   * and every other cart is as it was.
   */
  lemma CreateCartReusesOpenCart(t: Tables, cat: Catalog, req: CartRequest, user: User, i: nat)
    requires Valid(t)
    requires user.id in cat.users && req.productId in cat.products
    requires i < |t.carts| && t.carts[i].ownerId == user.id && !t.carts[i].ordered
    requires t.carts[i].storeId == req.storeId
    requires forall j :: 0 <= j < |t.items| ==> t.items[j].cartId != t.carts[i].id || t.items[j].productId != req.productId
    ensures CreateCart(t, cat, req, user).Ok?
    ensures var t' := CreateCart(t, cat, req, user).value;
      && t'.nextCartId == t.nextCartId
      && |t'.carts| == |t.carts|
      && t'.carts[i] == t.carts[i].(totalPrice := t.carts[i].totalPrice + cat.products[req.productId].price * req.quantity)
      && (forall k :: 0 <= k < |t.carts| && k != i ==> t'.carts[k] == t.carts[k])
      && t'.items == t.items + [LineItem(t.carts[i].id, req.productId, req.quantity)]
  {
    FindOpenCartAt(t.carts, i);
    FindCartAt(t.carts, i);
  }

  /**
   * Without an open cart, for a known user, store and product, createCart
   * succeeds and stores one new open cart for the user and the requested
   * store, whose total is price * quantity.
   */
  lemma CreateCartStartsNewCart(t: Tables, cat: Catalog, req: CartRequest, user: User)
    requires Valid(t)
    requires user.id in cat.users && req.productId in cat.products && req.storeId in cat.stores
    requires forall i :: 0 <= i < |t.carts| ==> t.carts[i].ownerId != user.id || t.carts[i].ordered
    ensures CreateCart(t, cat, req, user).Ok?
    ensures var t' := CreateCart(t, cat, req, user).value;
      && t'.nextCartId == t.nextCartId + 1
      && t'.carts == t.carts + [Cart(t.nextCartId, user.id, req.storeId, false, cat.products[req.productId].price * req.quantity)]
      && t'.items == t.items + [LineItem(t.nextCartId, req.productId, req.quantity)]
  {
    NewCartHasNoItems(t, req.productId);
    assert !HasCart(t.carts, t.nextCartId);
  }

  /** No stored line item refers to the id the next cart will get. */
  lemma NewCartHasNoItems(t: Tables, productId: int)
    requires Valid(t)
    ensures FindItem(t.items, t.nextCartId, productId).None?
  {
    forall j | 0 <= j < |t.items| ensures t.items[j].cartId != t.nextCartId {
      var m :| 0 <= m < |t.carts| && t.carts[m].id == t.items[j].cartId;
    }
  }

  /**
   * createCart succeeds exactly for a known user and product when the user's
   * open cart is for the requested store and lacks the product, or when the
   * user has no open cart and the store is known.
   */
  lemma CreateCartSucceedsExactly(t: Tables, cat: Catalog, req: CartRequest, user: User)
    requires Valid(t)
    ensures CreateCart(t, cat, req, user).Ok? <==>
      && user.id in cat.users && req.productId in cat.products
      && ((exists i :: 0 <= i < |t.carts| && t.carts[i].ownerId == user.id && !t.carts[i].ordered &&
             t.carts[i].storeId == req.storeId && FindItem(t.items, t.carts[i].id, req.productId).None?)
          || (FindOpenCart(t.carts, user.id).None? && req.storeId in cat.stores))
  {
    if CreateCart(t, cat, req, user).Ok? {
      match FindOpenCart(t.carts, user.id)
      case Some(i) =>
        assert FindItem(t.items, t.carts[i].id, req.productId).None?;
      case None =>
    } else if user.id in cat.users && req.productId in cat.products {
      forall i | 0 <= i < |t.carts| && t.carts[i].ownerId == user.id && !t.carts[i].ordered &&
          t.carts[i].storeId == req.storeId
        ensures FindItem(t.items, t.carts[i].id, req.productId).Some?
      {
        if FindItem(t.items, t.carts[i].id, req.productId).None? {
          CreateCartReusesOpenCart(t, cat, req, user, i);
        }
      }
      if FindOpenCart(t.carts, user.id).None? && req.storeId in cat.stores {
        CreateCartStartsNewCart(t, cat, req, user);
      }
    }
  }

  /**
   * When createCart succeeds, the user's open cart afterwards carries the old
   * total (zero for a new cart) plus price * quantity, and the request's line item.
   */
  lemma CreateCartRaisesTotal(t: Tables, cat: Catalog, req: CartRequest, user: User)
    requires Valid(t)
    requires CreateCart(t, cat, req, user).Ok?
    ensures var t' := CreateCart(t, cat, req, user).value;
      var before := match FindOpenCart(t.carts, user.id) case Some(i) => t.carts[i].totalPrice case None => 0;
      && FindOpenCart(t'.carts, user.id).Some?
      && var c := t'.carts[FindOpenCart(t'.carts, user.id).value];
      && c.storeId == req.storeId
      && c.totalPrice == before + cat.products[req.productId].price * req.quantity
      && LineItem(c.id, req.productId, req.quantity) in t'.items
  {
    CreateCartKeepsValid(t, cat, req, user);
    var t' := CreateCart(t, cat, req, user).value;
    match FindOpenCart(t.carts, user.id)
    case Some(i) =>
      CreateCartReusesOpenCart(t, cat, req, user, i);
      FindOpenCartAt(t'.carts, i);
      assert t'.items[|t.items|] == LineItem(t.carts[i].id, req.productId, req.quantity);
    case None =>
      CreateCartStartsNewCart(t, cat, req, user);
      FindOpenCartAt(t'.carts, |t.carts|);
      assert t'.items[|t.items|] == LineItem(t.nextCartId, req.productId, req.quantity);
  }

  // ---------------------------------------------------------------------
  // The ownership guard
  // ---------------------------------------------------------------------

  /** Every cart-addressed operation fails with NotFound when the cart id is absent. */
  lemma MissingCartIsNotFound(t: Tables, cat: Catalog, cartId: int, productId: int, user: User)
    requires forall i :: 0 <= i < |t.carts| ==> t.carts[i].id != cartId
    ensures AddCartProduct(t, cat, cartId, productId, user) == Err(NotFound)
    ensures SubtractCartProduct(t, cat, cartId, productId, user) == Err(NotFound)
    ensures DeleteCartProduct(t, cat, cartId, productId, user) == Err(NotFound)
    ensures DeleteCart(t, cartId, user) == Err(NotFound)
    ensures OrderCart(t, cartId, user) == Err(NotFound)
  {
    assert !HasCart(t.carts, cartId);
  }

  /**
   * Every cart-addressed operation fails with Unauthorized when the cart
   * belongs to someone else, whatever the caller's role.
   */
  lemma ForeignCartIsUnauthorized(t: Tables, cat: Catalog, cartId: int, productId: int, user: User, i: nat)
    requires CartIdsUnique(t.carts)
    requires i < |t.carts| && t.carts[i].id == cartId && t.carts[i].ownerId != user.id
    ensures AddCartProduct(t, cat, cartId, productId, user) == Err(Unauthorized)
    ensures SubtractCartProduct(t, cat, cartId, productId, user) == Err(Unauthorized)
    ensures DeleteCartProduct(t, cat, cartId, productId, user) == Err(Unauthorized)
    ensures DeleteCart(t, cartId, user) == Err(Unauthorized)
    ensures OrderCart(t, cartId, user) == Err(Unauthorized)
  {
    FindCartAt(t.carts, i);
  }

  // ---------------------------------------------------------------------
  // Line-item operations
  // ---------------------------------------------------------------------

  /** subtractCartProduct at quantity one deletes exactly that line item; otherwise it lowers it by one. */
  lemma SubtractCartProductEffect(t: Tables, cat: Catalog, cartId: int, productId: int, user: User, i: nat, j: nat)
    requires ItemsUnique(t.items)
    requires CartIdsUnique(t.carts)
    requires i < |t.carts| && t.carts[i].id == cartId && t.carts[i].ownerId == user.id
    requires productId in cat.products
    requires j < |t.items| && t.items[j].cartId == cartId && t.items[j].productId == productId
    ensures var r := SubtractCartProduct(t, cat, cartId, productId, user);
      && r.Ok?
      && r.value.1 == t.items[j].(quantity := t.items[j].quantity - 1)
      && r.value.0.carts == t.carts && r.value.0.nextCartId == t.nextCartId
      && (t.items[j].quantity == 1 ==> r.value.0.items == RemoveAt(t.items, j))
      && (t.items[j].quantity != 1 ==> r.value.0.items == t.items[j := r.value.1])
  {
    FindCartAt(t.carts, i);
    FindItemAt(t.items, j);
    var item := t.items[j].(quantity := t.items[j].quantity - 1);
    var decremented := t.(items := t.items[j := item]);
    if item.quantity == 0 {
      assert ItemsUnique(decremented.items) by {
        UpdateQuantityUnique(t.items, j, item.quantity);
      }
      FindItemAt(decremented.items, j);
      assert RemoveAt(decremented.items, j) == RemoveAt(t.items, j);
    }
  }

  lemma UpdateQuantityUnique(items: seq<LineItem>, j: nat, q: int)
    requires ItemsUnique(items) && j < |items|
    ensures ItemsUnique(items[j := items[j].(quantity := q)])
  {
    var items' := items[j := items[j].(quantity := q)];
    assert forall k :: 0 <= k < |items| ==>
      items'[k].cartId == items[k].cartId && items'[k].productId == items[k].productId;
  }

  /** addCartProduct raises that line item's quantity by one and changes nothing else, not even the cart's total. */
  lemma AddCartProductEffect(t: Tables, cat: Catalog, cartId: int, productId: int, user: User, i: nat, j: nat)
    requires ItemsUnique(t.items)
    requires CartIdsUnique(t.carts)
    requires i < |t.carts| && t.carts[i].id == cartId && t.carts[i].ownerId == user.id
    requires productId in cat.products
    requires j < |t.items| && t.items[j].cartId == cartId && t.items[j].productId == productId
    ensures var r := AddCartProduct(t, cat, cartId, productId, user);
      && r.Ok?
      && r.value.1 == t.items[j].(quantity := t.items[j].quantity + 1)
      && r.value.0 == t.(items := t.items[j := r.value.1])
  {
    FindCartAt(t.carts, i);
    FindItemAt(t.items, j);
  }

  /** deleteCartProduct removes exactly the line item for the pair. */
  lemma DeleteCartProductEffect(t: Tables, cat: Catalog, cartId: int, productId: int, user: User, i: nat, j: nat)
    requires ItemsUnique(t.items)
    requires CartIdsUnique(t.carts)
    requires i < |t.carts| && t.carts[i].id == cartId && t.carts[i].ownerId == user.id
    requires productId in cat.products
    requires j < |t.items| && t.items[j].cartId == cartId && t.items[j].productId == productId
    ensures DeleteCartProduct(t, cat, cartId, productId, user) == Ok(t.(items := RemoveAt(t.items, j)))
  {
    FindCartAt(t.carts, i);
    FindItemAt(t.items, j);
  }

  /** With no line item for the pair, or no such product, the line-item operations fail with NotFound. */
  lemma MissingItemIsNotFound(t: Tables, cat: Catalog, cartId: int, productId: int, user: User, i: nat)
    requires CartIdsUnique(t.carts)
    requires i < |t.carts| && t.carts[i].id == cartId && t.carts[i].ownerId == user.id
    requires productId !in cat.products ||
      forall j :: 0 <= j < |t.items| ==> t.items[j].cartId != cartId || t.items[j].productId != productId
    ensures AddCartProduct(t, cat, cartId, productId, user) == Err(NotFound)
    ensures SubtractCartProduct(t, cat, cartId, productId, user) == Err(NotFound)
    ensures DeleteCartProduct(t, cat, cartId, productId, user) == Err(NotFound)
  {
    FindCartAt(t.carts, i);
  }

  // ---------------------------------------------------------------------
  // Cart operations
  // ---------------------------------------------------------------------

  /** deleteCart removes exactly the addressed cart and its line items. */
  lemma DeleteCartEffect(t: Tables, cartId: int, user: User, i: nat)
    requires CartIdsUnique(t.carts)
    requires i < |t.carts| && t.carts[i].id == cartId && t.carts[i].ownerId == user.id
    ensures DeleteCart(t, cartId, user).Ok?
    ensures var t' := DeleteCart(t, cartId, user).value;
      && t'.carts == RemoveAt(t.carts, i)
      && (forall c :: c in t'.carts <==> c in t.carts && c.id != cartId)
      && (forall it :: it in t'.items <==> it in t.items && it.cartId != cartId)
      && t'.nextCartId == t.nextCartId
  {
    FindCartAt(t.carts, i);
    var t' := DeleteCart(t, cartId, user).value;
    forall c ensures c in t'.carts <==> c in t.carts && c.id != cartId {
      if c in t'.carts {
        var a :| 0 <= a < |t'.carts| && t'.carts[a] == c;
        var a' := if a < i then a else a + 1;
        assert t.carts[a'] == c;
      }
      if c in t.carts && c.id != cartId {
        var a :| 0 <= a < |t.carts| && t.carts[a] == c;
        assert a != i;
        assert t'.carts[if a < i then a else a - 1] == c;
      }
    }
    forall it ensures it in t'.items <==> it in t.items && it.cartId != cartId {
      if it in t.items && it.cartId != cartId {
        var k :| 0 <= k < |t.items| && t.items[k] == it;
      }
    }
  }

  /** orderCart marks exactly the addressed cart as ordered. */
  lemma OrderCartEffect(t: Tables, cartId: int, user: User, i: nat)
    requires CartIdsUnique(t.carts)
    requires i < |t.carts| && t.carts[i].id == cartId && t.carts[i].ownerId == user.id
    ensures OrderCart(t, cartId, user) == Ok(t.(carts := t.carts[i := t.carts[i].(ordered := true)]))
  {
    FindCartAt(t.carts, i);
  }

  // ---------------------------------------------------------------------
  // Ordering is one-way
  // ---------------------------------------------------------------------

  /** Every cart that was ordered in `t` and is still present in `t'` is still ordered. */
  ghost predicate OrderedStaysOrdered(t: Tables, t': Tables) {
    forall a, b ::
      0 <= a < |t.carts| && 0 <= b < |t'.carts| && t.carts[a].ordered && t'.carts[b].id == t.carts[a].id ==>
        t'.carts[b].ordered
  }

  /** Writing one cart back under its own id keeps ordered carts ordered when it was open or stays ordered. */
  lemma ReplaceCartKeepsOrdered(t: Tables, t': Tables, i: nat, saved: Cart)
    requires CartIdsUnique(t.carts) && i < |t.carts|
    requires saved.id == t.carts[i].id && (t.carts[i].ordered ==> saved.ordered)
    requires t'.carts == t.carts[i := saved]
    ensures OrderedStaysOrdered(t, t')
  {
    forall a, b | 0 <= a < |t.carts| && 0 <= b < |t'.carts| && t.carts[a].ordered && t'.carts[b].id == t.carts[a].id
      ensures t'.carts[b].ordered
    {
      assert t.carts[b].id == t'.carts[b].id;
      assert a == b;
    }
  }

  lemma CreateCartKeepsOrdered(t: Tables, cat: Catalog, req: CartRequest, user: User)
    requires Valid(t)
    ensures CreateCart(t, cat, req, user).Ok? ==> OrderedStaysOrdered(t, CreateCart(t, cat, req, user).value)
  {
    if CreateCart(t, cat, req, user).Ok? {
      var t' := CreateCart(t, cat, req, user).value;
      match FindOpenCart(t.carts, user.id)
      case Some(i) =>
        CreateCartReusesOpenCart(t, cat, req, user, i);
        ReplaceCartKeepsOrdered(t, t', i, t'.carts[i]);
      case None =>
        CreateCartStartsNewCart(t, cat, req, user);
        forall a, b | 0 <= a < |t.carts| && 0 <= b < |t'.carts| && t.carts[a].ordered && t'.carts[b].id == t.carts[a].id
          ensures t'.carts[b].ordered
        {
          assert b < |t.carts| && t'.carts[b] == t.carts[b];
        }
    }
  }

  lemma DeleteCartKeepsOrdered(t: Tables, cartId: int, user: User)
    requires CartIdsUnique(t.carts)
    ensures DeleteCart(t, cartId, user).Ok? ==> OrderedStaysOrdered(t, DeleteCart(t, cartId, user).value)
  {
    if DeleteCart(t, cartId, user).Ok? {
      var i := GuardCart(t.carts, cartId, user).value;
      var t' := DeleteCart(t, cartId, user).value;
      forall a, b | 0 <= a < |t.carts| && 0 <= b < |t'.carts| && t.carts[a].ordered && t'.carts[b].id == t.carts[a].id
        ensures t'.carts[b].ordered
      {
        var b' := if b < i then b else b + 1;
        assert t'.carts[b] == t.carts[b'];
      }
    }
  }

  lemma OrderCartKeepsOrdered(t: Tables, cartId: int, user: User)
    requires CartIdsUnique(t.carts)
    ensures OrderCart(t, cartId, user).Ok? ==> OrderedStaysOrdered(t, OrderCart(t, cartId, user).value)
  {
    if OrderCart(t, cartId, user).Ok? {
      var i := GuardCart(t.carts, cartId, user).value;
      ReplaceCartKeepsOrdered(t, OrderCart(t, cartId, user).value, i, t.carts[i].(ordered := true));
    }
  }

  /** No operation of the cart service turns an ordered cart back into an open one. */
  lemma OrderIsOneWay(t: Tables, cat: Catalog, req: CartRequest, cartId: int, productId: int, user: User)
    requires Valid(t)
    ensures CreateCart(t, cat, req, user).Ok? ==> OrderedStaysOrdered(t, CreateCart(t, cat, req, user).value)
    ensures AddCartProduct(t, cat, cartId, productId, user).Ok? ==>
      OrderedStaysOrdered(t, AddCartProduct(t, cat, cartId, productId, user).value.0)
    ensures SubtractCartProduct(t, cat, cartId, productId, user).Ok? ==>
      OrderedStaysOrdered(t, SubtractCartProduct(t, cat, cartId, productId, user).value.0)
    ensures DeleteCartProduct(t, cat, cartId, productId, user).Ok? ==>
      OrderedStaysOrdered(t, DeleteCartProduct(t, cat, cartId, productId, user).value)
    ensures DeleteCart(t, cartId, user).Ok? ==> OrderedStaysOrdered(t, DeleteCart(t, cartId, user).value)
    ensures OrderCart(t, cartId, user).Ok? ==> OrderedStaysOrdered(t, OrderCart(t, cartId, user).value)
  {
    CreateCartKeepsOrdered(t, cat, req, user);
    if SubtractCartProduct(t, cat, cartId, productId, user).Ok? {
      var j := GuardItem(t, cat, cartId, productId, user).value;
      var decremented := t.(items := t.items[j := t.items[j].(quantity := t.items[j].quantity - 1)]);
      assert SubtractCartProduct(t, cat, cartId, productId, user).value.0.carts == t.carts by {
        if t.items[j].quantity - 1 == 0 {
          assert DeleteCartProduct(decremented, cat, cartId, productId, user).value.carts == t.carts;
        }
      }
    }
    DeleteCartKeepsOrdered(t, cartId, user);
    OrderCartKeepsOrdered(t, cartId, user);
  }

  // ---------------------------------------------------------------------
  // A worked case
  // ---------------------------------------------------------------------

  /**
   * A user with no cart adds two of a product priced 500 from store 10: the new
   * cart totals 1000. Adding a product of store 20 afterwards is refused and
   * the total stays 1000. The product's own store is never compared with the
   * request's store, so a product of store 20 requested under store 10 is accepted.
   */
  lemma CartScenario()
    ensures var cat := Catalog({1}, {10, 20}, map[5 := Product(10, 500), 6 := Product(20, 300)]);
      var user := User(1, "CONSUMER");
      var t0 := Tables([], [], 1);
      var t1 := CreateCart(t0, cat, CartRequest(5, 10, 2), user);
      && t1 == Ok(Tables([Cart(1, 1, 10, false, 1000)], [LineItem(1, 5, 2)], 2))
      && SelectCart(t1.value, cat, user) == Ok(Some(CartView(Cart(1, 1, 10, false, 1000), [LineItem(1, 5, 2)])))
      && CreateCart(t1.value, cat, CartRequest(6, 20, 1), user) == Err(IllegalArgument)
      && CreateCart(t1.value, cat, CartRequest(6, 10, 1), user).Ok?
  {
    var cat := Catalog({1}, {10, 20}, map[5 := Product(10, 500), 6 := Product(20, 300)]);
    var user := User(1, "CONSUMER");
    var t0 := Tables([], [], 1);
    assert FindOpenCart(t0.carts, 1).None?;
    assert CartFor(t0, cat, CartRequest(5, 10, 2), 1) == Ok(Cart(1, 1, 10, false, 0));
    assert FindItem(t0.items, 1, 5).None?;
    assert FindCart(t0.carts, 1).None?;
    var t1 := Tables([Cart(1, 1, 10, false, 1000)], [LineItem(1, 5, 2)], 2);
    var withItem := t0.(items := [LineItem(1, 5, 2)]);
    assert cat.products[5].price * 2 == 1000;
    assert SaveCart(withItem, Cart(1, 1, 10, false, 1000)) == t1;
    assert t0.(items := t0.items + [LineItem(1, 5, 2)]) == withItem;
    assert user.id in cat.users && 5 in cat.products;
    assert CreateCart(t0, cat, CartRequest(5, 10, 2), user) == Ok(SaveCart(withItem, Cart(1, 1, 10, false, 0).(totalPrice := 0 + cat.products[5].price * 2)));
    assert CreateCart(t0, cat, CartRequest(5, 10, 2), user) == Ok(t1);
    assert FindOpenCart(t1.carts, 1) == Some(0) by { FindOpenCartAt(t1.carts, 0); }
    assert FindItem(t1.items, 1, 6).None?;
    assert ItemsOf(t1.items, 1) == [LineItem(1, 5, 2)] by {
      assert Filter(t1.items[1..], (it: LineItem) => it.cartId == 1) == [];
    }
  }
}
