/*
 * The cart store: it holds the current snapshot and replaces it with the
 * reducer's result on every dispatched action. Components read the snapshot
 * and call AddItem / RemoveItem.
 */
module CartStore {
  import opened CartReducer

  class Store {
    /** The held snapshot, exposed to readers as items and totalAmount. */
    var state: CartState

    /**
     * What the store keeps after every operation, whatever is dispatched:
     * no two entries share an id. Positive amounts and a total equal to the
     * sum are kept only under conditions on what ADD brings (see below).
     */
    ghost predicate Valid()
      reads this
    {
      Unique(state.items)
    }

    /** The store starts in the default state. */
    constructor ()
      ensures state == DefaultCartState
      ensures state.items == [] && state.totalAmount == 0
      ensures Valid() && Wellformed(state)
    {
      state := DefaultCartState;
      DefaultIsWellformed();
    }

    /**
     * Apply the reducer to the held state. When the reducer fails (REMOVE of
     * a missing id) nothing changes and `ok` is false.
     */
    method Dispatch(action: Action) returns (ok: bool)
      modifies this
      ensures ok == Reduce(old(state), action).Ok?
      ensures ok ==> state == Reduce(old(state), action).value
      ensures !ok ==> state == old(state)
      ensures old(Valid()) ==> Valid()
      ensures old(AllPositive(state.items)) && (action.Add? ==> action.item.amount >= 1)
              ==> AllPositive(state.items)
      ensures old(Wellformed(state)) && (action.Add? ==> action.item.amount >= 1 && PriceAgrees(old(state).items, action.item))
              ==> Wellformed(state)
    {
      if Valid() {
        ReducePreservesUnique(state, action);
      }
      if AllPositive(state.items) && (action.Add? ==> action.item.amount >= 1) {
        ReducePreservesPositive(state, action);
      }
      if Wellformed(state) && (action.Add? ==> action.item.amount >= 1 && PriceAgrees(state.items, action.item)) {
        ReducePreservesWellformed(state, action);
      }
      var r := Reduce(state, action);
      ok := r.Ok?;
      if ok {
        state := r.value;
      }
    }

    /** addItem: dispatch ADD. Ids stay unique even at a stale price. */
    method AddItem(item: Item)
      modifies this
      ensures state == AddToCart(old(state), item)
      ensures old(Valid()) ==> Valid()
      ensures old(AllPositive(state.items)) && item.amount >= 1 ==> AllPositive(state.items)
      ensures old(Wellformed(state)) && item.amount >= 1 && PriceAgrees(old(state).items, item) ==> Wellformed(state)
    {
      var ok := Dispatch(Add(item));
    }

    /** removeItem: dispatch REMOVE; it fails, leaving the cart as it was, when `id` is absent. */
    method RemoveItem(id: Id) returns (ok: bool)
      modifies this
      ensures ok == HasId(old(state).items, id)
      ensures ok ==> state == RemoveFromCart(old(state), id).value
      ensures !ok ==> state == old(state)
      ensures old(Valid()) ==> Valid()
      ensures old(AllPositive(state.items)) ==> AllPositive(state.items)
      ensures old(Wellformed(state)) ==> Wellformed(state)
    {
      ok := Dispatch(Remove(id));
    }
  }

  /**
   * A client: from an empty store, adding two units of an item and then
   * removing one leaves one unit, at the item's price.
   */
  method AddTwoRemoveOne(item: Item) returns (items: seq<Item>, total: int)
    requires item.amount == 2
    ensures items == [item.(amount := 1)] && total == item.price
  {
    var store := new Store();
    store.AddItem(item);
    assert store.state.items == [item];
    var ok := store.RemoveItem(item.id);
    assert FindIndex([item], item.id) == 0;
    items, total := store.state.items, store.state.totalAmount;
  }
}
