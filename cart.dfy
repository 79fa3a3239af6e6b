/** The shopping-cart state machine: a list of items keyed by product id and
    the sidebar's open flag, changed only by the reducer's five actions, and
    the restore step that replays a saved cart as `ADD_ITEM` actions. */
module Cart {
  import opened Wrappers
  import Catalog

  datatype CartItem = CartItem(product: Catalog.Product, quantity: int)

  datatype CartState = CartState(items: seq<CartItem>, isOpen: bool)

  datatype CartAction =
    | AddItem(product: Catalog.Product, quantity: int)
    | RemoveItem(productId: int)
    | UpdateQuantity(productId: int, newQuantity: int)
    | ClearCart
    | ToggleCart(open: Option<bool>)

  const InitialCart: CartState := CartState([], false)

  predicate HasId(items: seq<CartItem>, id: int) {
    exists i :: 0 <= i < |items| && items[i].product.id == id
  }

  /** No product appears in two items. */
  predicate DistinctIds(items: seq<CartItem>) {
    forall i, j :: 0 <= i < j < |items| ==> items[i].product.id != items[j].product.id
  }

  /** The `map` of `ADD_ITEM`: the item(s) with this id get `q` more. */
  function AddToId(items: seq<CartItem>, id: int, q: int): (r: seq<CartItem>)
    ensures |r| == |items|
    ensures forall i :: 0 <= i < |items| ==> r[i].product == items[i].product
  {
    if |items| == 0 then []
    else
      var head := if items[0].product.id == id then items[0].(quantity := items[0].quantity + q) else items[0];
      [head] + AddToId(items[1..], id, q)
  }

  /** The `map` of `UPDATE_QUANTITY`: the item(s) with this id get quantity `q`. */
  function SetQuantity(items: seq<CartItem>, id: int, q: int): (r: seq<CartItem>)
    ensures |r| == |items|
    ensures forall i :: 0 <= i < |items| ==> r[i].product == items[i].product
  {
    if |items| == 0 then []
    else
      var head := if items[0].product.id == id then items[0].(quantity := q) else items[0];
      [head] + SetQuantity(items[1..], id, q)
  }

  /** The `filter` of `REMOVE_ITEM`. */
  function RemoveId(items: seq<CartItem>, id: int): (r: seq<CartItem>)
    ensures forall it :: it in r <==> it in items && it.product.id != id
    ensures |r| <= |items|
  {
    if |items| == 0 then []
    else if items[0].product.id == id then RemoveId(items[1..], id)
    else [items[0]] + RemoveId(items[1..], id)
  }

  /** `cartReducer`. */
  function CartReducer(state: CartState, action: CartAction): (r: CartState)
    ensures !action.ToggleCart? ==> r.isOpen == state.isOpen
    ensures action.ToggleCart? ==> r.items == state.items
  {
    match action
    case AddItem(product, quantity) =>
      if HasId(state.items, product.id)
      then state.(items := AddToId(state.items, product.id, quantity))
      else state.(items := state.items + [CartItem(product, quantity)])
    case RemoveItem(id) =>
      state.(items := RemoveId(state.items, id))
    case UpdateQuantity(id, quantity) =>
      if quantity <= 0 then state.(items := RemoveId(state.items, id))
      else state.(items := SetQuantity(state.items, id, quantity))
    case ClearCart =>
      state.(items := [])
    case ToggleCart(open) =>
      state.(isOpen := if open.Some? then open.value else !state.isOpen)
  }

  /** `getCartItemsCount`: the sum of the quantities. */
  function ItemsCount(items: seq<CartItem>): int {
    if |items| == 0 then 0 else items[0].quantity + ItemsCount(items[1..])
  }

  // ---------------------------------------------------------------------
  // The actions, one by one

  /** `ADD_ITEM` for a product already in the cart: no new entry; that
      item's quantity grows by `q` and every other item is as it was. */
  lemma {:induction false} AddExisting(state: CartState, p: Catalog.Product, q: int)
    requires DistinctIds(state.items) && HasId(state.items, p.id)
    ensures var items := state.items;
            var r := CartReducer(state, AddItem(p, q)).items;
            && |r| == |items|
            && forall i :: 0 <= i < |items| ==>
                 r[i] == if items[i].product.id == p.id then items[i].(quantity := items[i].quantity + q) else items[i]
  {
    AddToIdAt(state.items, p.id, q);
  }

  lemma {:induction false} AddToIdAt(items: seq<CartItem>, id: int, q: int)
    ensures forall i :: 0 <= i < |items| ==>
              AddToId(items, id, q)[i]
              == if items[i].product.id == id then items[i].(quantity := items[i].quantity + q) else items[i]
    decreases |items|
  {
    if |items| > 0 {
      AddToIdAt(items[1..], id, q);
      assert forall i :: 1 <= i < |items| ==> items[i] == items[1..][i - 1];
    }
  }

  lemma {:induction false} SetQuantityAt(items: seq<CartItem>, id: int, q: int)
    ensures forall i :: 0 <= i < |items| ==>
              SetQuantity(items, id, q)[i]
              == if items[i].product.id == id then items[i].(quantity := q) else items[i]
    decreases |items|
  {
    if |items| > 0 {
      SetQuantityAt(items[1..], id, q);
      assert forall i :: 1 <= i < |items| ==> items[i] == items[1..][i - 1];
    }
  }

  /** `ADD_ITEM` for a new product appends it at the end. */
  lemma AddNew(state: CartState, p: Catalog.Product, q: int)
    requires !HasId(state.items, p.id)
    ensures CartReducer(state, AddItem(p, q)).items == state.items + [CartItem(p, q)]
  {
  }

  /** `UPDATE_QUANTITY`: a quantity of zero or less removes the item;
      otherwise only that item's quantity changes, to exactly `q`. */
  lemma UpdateQuantityEffect(state: CartState, id: int, q: int)
    ensures q <= 0 ==> CartReducer(state, UpdateQuantity(id, q)).items == RemoveId(state.items, id)
    ensures q > 0 ==>
              var r := CartReducer(state, UpdateQuantity(id, q)).items;
              && |r| == |state.items|
              && forall i :: 0 <= i < |r| ==>
                   r[i] == if state.items[i].product.id == id then state.items[i].(quantity := q) else state.items[i]
  {
    SetQuantityAt(state.items, id, q);
  }

  /** `REMOVE_ITEM` leaves no item with that id and keeps the others in
      their order: removal distributes over concatenation. */
  lemma {:induction false} RemoveKeepsOrder(a: seq<CartItem>, b: seq<CartItem>, id: int)
    ensures RemoveId(a + b, id) == RemoveId(a, id) + RemoveId(b, id)
    ensures !HasId(RemoveId(a, id), id)
    decreases |a|
  {
    if |a| > 0 {
      assert (a + b)[1..] == a[1..] + b;
      RemoveKeepsOrder(a[1..], b, id);
    } else {
      assert a + b == b;
    }
    var r := RemoveId(a, id);
    assert forall i :: 0 <= i < |r| ==> r[i] in r;
  }

  /** Removing an id that is not in the cart changes nothing. */
  lemma {:induction false} RemoveAbsent(items: seq<CartItem>, id: int)
    requires !HasId(items, id)
    ensures RemoveId(items, id) == items
    decreases |items|
  {
    if |items| > 0 {
      assert forall i :: 0 <= i < |items| - 1 ==> items[1..][i] == items[i + 1];
      RemoveAbsent(items[1..], id);
    }
  }

  /** `CLEAR_CART` empties the items and leaves the open flag; `TOGGLE_CART`
      sets the flag to its payload, or flips it, and leaves the items. */
  lemma ClearAndToggle(state: CartState, open: Option<bool>)
    ensures CartReducer(state, ClearCart) == CartState([], state.isOpen)
    ensures CartReducer(state, ToggleCart(open)).items == state.items
    ensures CartReducer(state, ToggleCart(open)).isOpen == if open.Some? then open.value else !state.isOpen
    ensures CartReducer(CartReducer(state, ToggleCart(None)), ToggleCart(None)) == state
  {
  }

  // ---------------------------------------------------------------------
  // The distinct-ids invariant and the count

  lemma {:induction false} RemoveIdDistinct(items: seq<CartItem>, id: int)
    requires DistinctIds(items)
    ensures DistinctIds(RemoveId(items, id))
    decreases |items|
  {
    if |items| > 0 {
      assert DistinctIds(items[1..]) by {
        forall i, j | 0 <= i < j < |items[1..]|
          ensures items[1..][i].product.id != items[1..][j].product.id
        {
          assert items[1..][i] == items[i + 1] && items[1..][j] == items[j + 1];
        }
      }
      RemoveIdDistinct(items[1..], id);
      if items[0].product.id != id {
        var rest := RemoveId(items[1..], id);
        forall it | it in rest ensures it.product.id != items[0].product.id {
          var k :| 1 <= k < |items| && items[k] == it;
        }
        var r := [items[0]] + rest;
        forall i, j | 0 <= i < j < |r| ensures r[i].product.id != r[j].product.id {
          if i == 0 {
            assert r[j] == rest[j - 1] && r[j] in rest;
          } else {
            assert r[i] == rest[i - 1] && r[j] == rest[j - 1];
          }
        }
      }
    }
  }

  /** Every action keeps product ids pairwise distinct. */
  lemma ReducerKeepsDistinct(state: CartState, action: CartAction)
    requires DistinctIds(state.items)
    ensures DistinctIds(CartReducer(state, action).items)
  {
    match action
    case AddItem(p, q) =>
      if !HasId(state.items, p.id) {
        var r := state.items + [CartItem(p, q)];
        forall i, j | 0 <= i < j < |r| ensures r[i].product.id != r[j].product.id {
          if j == |state.items| {
            assert r[i] == state.items[i];
          }
        }
      }
    case RemoveItem(id) =>
      RemoveIdDistinct(state.items, id);
    case UpdateQuantity(id, q) =>
      if q <= 0 {
        RemoveIdDistinct(state.items, id);
      }
    case ClearCart =>
    case ToggleCart(_) =>
  }

  lemma {:induction false} CountAppend(items: seq<CartItem>, it: CartItem)
    ensures ItemsCount(items + [it]) == ItemsCount(items) + it.quantity
    decreases |items|
  {
    if |items| > 0 {
      assert (items + [it])[1..] == items[1..] + [it];
      CountAppend(items[1..], it);
    } else {
      assert (items + [it])[1..] == [];
    }
  }

  lemma {:induction false} CountAddToId(items: seq<CartItem>, id: int, q: int)
    requires DistinctIds(items) && HasId(items, id)
    ensures ItemsCount(AddToId(items, id, q)) == ItemsCount(items) + q
    decreases |items|
  {
    var rest := items[1..];
    assert DistinctIds(rest) by {
      forall i, j | 0 <= i < j < |rest| ensures rest[i].product.id != rest[j].product.id {
        assert rest[i] == items[i + 1] && rest[j] == items[j + 1];
      }
    }
    if items[0].product.id == id {
      assert forall k :: 0 <= k < |rest| ==> rest[k] == items[k + 1];
      AddToIdAbsent(rest, id, q);
    } else {
      assert HasId(rest, id) by {
        var k :| 0 <= k < |items| && items[k].product.id == id;
        assert rest[k - 1] == items[k];
      }
      CountAddToId(rest, id, q);
    }
  }

  lemma {:induction false} AddToIdAbsent(items: seq<CartItem>, id: int, q: int)
    requires !HasId(items, id)
    ensures AddToId(items, id, q) == items
    decreases |items|
  {
    if |items| > 0 {
      assert forall k :: 0 <= k < |items| - 1 ==> items[1..][k] == items[k + 1];
      AddToIdAbsent(items[1..], id, q);
    }
  }

  /** `ADD_ITEM` raises the item count by exactly the added quantity. */
  lemma AddRaisesCount(state: CartState, p: Catalog.Product, q: int)
    requires DistinctIds(state.items)
    ensures ItemsCount(CartReducer(state, AddItem(p, q)).items) == ItemsCount(state.items) + q
  {
    if HasId(state.items, p.id) {
      CountAddToId(state.items, p.id, q);
    } else {
      CountAppend(state.items, CartItem(p, q));
    }
  }

  // ---------------------------------------------------------------------
  // Restoring the saved cart

  /** Dispatching `ADD_ITEM` for each saved item, in order, from `start`. */
  function Replay(start: CartState, saved: seq<CartItem>): CartState
  {
    if |saved| == 0 then start
    else
      var last := saved[|saved| - 1];
      CartReducer(Replay(start, saved[..|saved| - 1]), AddItem(last.product, last.quantity))
  }

  /** The cart entry in local storage: absent, unreadable, or a saved list. */
  datatype StoredCart = Missing | Unreadable | Saved(items: seq<CartItem>)

  /** The mount effect: replays a saved cart into the fresh state; an
      unreadable one is dropped (`dropStored`) and the cart stays empty. */
  method RestoreCart(stored: StoredCart) returns (state: CartState, dropStored: bool)
    ensures dropStored <==> stored.Unreadable?
    ensures stored.Saved? ==> state == Replay(InitialCart, stored.items)
    ensures !stored.Saved? ==> state == InitialCart
  {
    state := InitialCart;
    dropStored := false;
    match stored
    case Missing =>
    case Unreadable =>
      dropStored := true;
    case Saved(items) =>
      for i := 0 to |items|
        invariant state == Replay(InitialCart, items[..i])
      {
        assert items[..i + 1][..i] == items[..i];
        state := CartReducer(state, AddItem(items[i].product, items[i].quantity));
      }
      assert items[..|items|] == items;
  }

  /** A saved cart with distinct ids is restored exactly, closed. */
  lemma {:induction false} ReplayDistinct(saved: seq<CartItem>)
    requires DistinctIds(saved)
    ensures Replay(InitialCart, saved) == CartState(saved, false)
    decreases |saved|
  {
    if |saved| > 0 {
      var init := saved[..|saved| - 1];
      var last := saved[|saved| - 1];
      assert DistinctIds(init);
      ReplayDistinct(init);
      assert !HasId(init, last.product.id);
      assert init + [last] == saved;
    }
  }

  /** Whatever was saved, the restored cart has distinct ids and the same
      item count: repeated products are merged, their quantities summed. */
  lemma {:induction false} ReplayCount(saved: seq<CartItem>)
    ensures DistinctIds(Replay(InitialCart, saved).items)
    ensures ItemsCount(Replay(InitialCart, saved).items) == ItemsCount(saved)
    decreases |saved|
  {
    if |saved| > 0 {
      var init := saved[..|saved| - 1];
      var last := saved[|saved| - 1];
      ReplayCount(init);
      var before := Replay(InitialCart, init);
      ReducerKeepsDistinct(before, AddItem(last.product, last.quantity));
      AddRaisesCount(before, last.product, last.quantity);
      CountAppend(init, last);
      assert init + [last] == saved;
    }
  }
}
