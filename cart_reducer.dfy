/*
 * The cart state machine of the meal-ordering page: a pure function from
 * (state, action) to the next state over { items, totalAmount }.
 *
 * Prices are whole cents, so the running total can be compared exactly with
 * the sum of price * amount over the items. Amounts are plain integers: the
 * reducer itself never checks them, and positivity is an invariant that the
 * callers keep (see Wellformed and AddPreservesWellformed).
 */
module CartReducer {

  type Id = string

  /** One line of the cart: a product and how many units of it are selected. */
  datatype Item = Item(id: Id, name: string, price: nat, amount: int)

  /** A snapshot of the cart. */
  datatype CartState = CartState(items: seq<Item>, totalAmount: int)

  /**
   * A dispatched action. `Unrecognized` stands for any action object whose
   * `type` is neither "ADD" nor "REMOVE"; the reducer reads nothing else of it.
   */
  datatype Action = Add(item: Item) | Remove(id: Id) | Unrecognized

  /** REMOVE of an id that is not in the cart reads fields of `undefined` and throws. */
  datatype CartError = MissingItem(id: Id)

  datatype Result<T> = Ok(value: T) | Err(error: CartError)

  /** The state the cart starts in. */
  const DefaultCartState := CartState([], 0)

  // ---------------------------------------------------------------------------
  // Vocabulary
  // ---------------------------------------------------------------------------

  predicate HasId(items: seq<Item>, id: Id) {
    exists j :: 0 <= j < |items| && items[j].id == id
  }

  /** `k` is the index of the first entry carrying `id`. */
  predicate FirstWith(items: seq<Item>, id: Id, k: int) {
    0 <= k < |items| && items[k].id == id &&
    forall j :: 0 <= j < k ==> items[j].id != id
  }

  /** No two entries share an id. */
  predicate Unique(items: seq<Item>) {
    forall i, j :: 0 <= i < j < |items| ==> items[i].id != items[j].id
  }

  predicate AllPositive(items: seq<Item>) {
    forall j :: 0 <= j < |items| ==> items[j].amount >= 1
  }

  /** Every entry already holding `item.id` is stored at `item`'s price. */
  predicate PriceAgrees(items: seq<Item>, item: Item) {
    forall j :: 0 <= j < |items| && items[j].id == item.id ==> items[j].price == item.price
  }

  /** Sum of a weight over the items, in order. */
  function Sum(items: seq<Item>, w: Item -> int): int {
    if items == [] then 0 else w(items[0]) + Sum(items[1..], w)
  }

  function LineTotal(it: Item): int { it.price * it.amount }

  /** What the total should be: the sum of price * amount over the items. */
  function CartTotal(items: seq<Item>): int { Sum(items, LineTotal) }

  /** The invariant every reachable snapshot keeps. */
  predicate Wellformed(s: CartState) {
    Unique(s.items) && AllPositive(s.items) && s.totalAmount == CartTotal(s.items)
  }

  // ---------------------------------------------------------------------------
  // The operations
  // ---------------------------------------------------------------------------

  /** Array.prototype.findIndex on the id: the first matching index, or -1. */
  function FindIndex(items: seq<Item>, id: Id): (r: int)
    ensures -1 <= r < |items|
    ensures r == -1 <==> !HasId(items, id)
    ensures r != -1 ==> FirstWith(items, id, r)
  {
    if items == [] then -1
    else if items[0].id == id then 0
    else
      var k := FindIndex(items[1..], id);
      if k == -1 then
        assert forall j :: 1 <= j < |items| ==> items[j] == items[1..][j - 1];
        -1
      else k + 1
  }

  /** Array.prototype.filter keeping the entries whose id differs from `id`. */
  function Without(items: seq<Item>, id: Id): (r: seq<Item>)
    ensures |r| <= |items|
    ensures forall j :: 0 <= j < |r| ==> r[j].id != id
  {
    if items == [] then []
    else if items[0].id == id then Without(items[1..], id)
    else [items[0]] + Without(items[1..], id)
  }

  /** The ADD branch. */
  function AddToCart(state: CartState, item: Item): (r: CartState)
    ensures r.totalAmount - state.totalAmount == item.price * item.amount
    ensures |r.items| == |state.items| + (if HasId(state.items, item.id) then 0 else 1)
    ensures HasId(r.items, item.id)
  {
    var updatedTotalAmount := state.totalAmount + item.price * item.amount;
    var k := FindIndex(state.items, item.id);
    if k != -1 then
      var existing := state.items[k];
      var updatedItems := state.items[k := existing.(amount := existing.amount + item.amount)];
      assert updatedItems[k].id == item.id;
      CartState(updatedItems, updatedTotalAmount)
    else
      assert (state.items + [item])[|state.items|] == item;
      CartState(state.items + [item], updatedTotalAmount)
  }

  /** The REMOVE branch; a missing id is an error. */
  function RemoveFromCart(state: CartState, id: Id): (r: Result<CartState>)
    ensures r.Err? <==> !HasId(state.items, id)
    ensures r.Err? ==> r.error == MissingItem(id)
    ensures r.Ok? ==> |r.value.items| <= |state.items|
  {
    var k := FindIndex(state.items, id);
    if k == -1 then Err(MissingItem(id))
    else
      var existing := state.items[k];
      var updatedTotalAmount := state.totalAmount - existing.price;
      if existing.amount == 1 then
        Ok(CartState(Without(state.items, id), updatedTotalAmount))
      else
        Ok(CartState(state.items[k := existing.(amount := existing.amount - 1)], updatedTotalAmount))
  }

  /** cartReducer: ADD, REMOVE, and the reset for any other action type. */
  function Reduce(state: CartState, action: Action): (r: Result<CartState>)
    ensures action.Unrecognized? ==> r == Ok(DefaultCartState)
    ensures r.Err? <==> action.Remove? && !HasId(state.items, action.id)
  {
    match action
    case Add(item) => Ok(AddToCart(state, item))
    case Remove(id) => RemoveFromCart(state, id)
    case Unrecognized => Ok(DefaultCartState)
  }

  // ---------------------------------------------------------------------------
  // Sums
  // ---------------------------------------------------------------------------

  lemma {:induction false} SumConcat(a: seq<Item>, b: seq<Item>, w: Item -> int)
    ensures Sum(a + b, w) == Sum(a, w) + Sum(b, w)
  {
    if a == [] {
      assert a + b == b;
    } else {
      assert (a + b)[1..] == a[1..] + b;
      SumConcat(a[1..], b, w);
    }
  }

  lemma SumSingle(x: Item, w: Item -> int)
    ensures Sum([x], w) == w(x)
  {
    assert [x][1..] == [];
  }

  lemma SumAppend(s: seq<Item>, x: Item, w: Item -> int)
    ensures Sum(s + [x], w) == Sum(s, w) + w(x)
  {
    SumConcat(s, [x], w);
    SumSingle(x, w);
  }

  /** Replacing one entry changes a sum by the difference of the two weights. */
  lemma SumUpdate(s: seq<Item>, k: int, x: Item, w: Item -> int)
    requires 0 <= k < |s|
    ensures Sum(s[k := x], w) == Sum(s, w) - w(s[k]) + w(x)
  {
    assert s == s[..k] + [s[k]] + s[k + 1..];
    assert s[k := x] == s[..k] + [x] + s[k + 1..];
    SumConcat(s[..k] + [s[k]], s[k + 1..], w);
    SumConcat(s[..k] + [x], s[k + 1..], w);
    SumAppend(s[..k], s[k], w);
    SumAppend(s[..k], x, w);
  }

  /** Deleting one entry lowers a sum by that entry's weight. */
  lemma SumDelete(s: seq<Item>, k: int, w: Item -> int)
    requires 0 <= k < |s|
    ensures Sum(s[..k] + s[k + 1..], w) == Sum(s, w) - w(s[k])
  {
    assert s == s[..k] + [s[k]] + s[k + 1..];
    SumConcat(s[..k] + [s[k]], s[k + 1..], w);
    SumConcat(s[..k], s[k + 1..], w);
    SumAppend(s[..k], s[k], w);
  }

  lemma MulPrev(p: int, n: int)
    ensures p * n == p * (n - 1) + p
  {
  }

  lemma MulAdd(p: int, a: int, b: int)
    ensures p * (a + b) == p * a + p * b
  {
  }

  lemma {:induction false} SumNonNegative(s: seq<Item>, w: Item -> int)
    requires forall j :: 0 <= j < |s| ==> w(s[j]) >= 0
    ensures Sum(s, w) >= 0
  {
    if s != [] {
      assert forall j :: 0 <= j < |s[1..]| ==> s[1..][j] == s[j + 1];
      SumNonNegative(s[1..], w);
    }
  }

  // ---------------------------------------------------------------------------
  // The filter used by REMOVE
  // ---------------------------------------------------------------------------

  /**
   * When entry k is the only one carrying its id, filtering that id out
   * deletes exactly slot k.
   */
  lemma {:induction false} WithoutSingle(items: seq<Item>, k: int)
    requires 0 <= k < |items|
    requires forall j :: 0 <= j < |items| && j != k ==> items[j].id != items[k].id
    ensures Without(items, items[k].id) == items[..k] + items[k + 1..]
  {
    var id := items[k].id;
    var tail := items[1..];
    assert forall j :: 0 <= j < |tail| ==> tail[j] == items[j + 1];
    if k == 0 {
      WithoutNone(tail, id);
      assert items[..0] + items[1..] == tail;
    } else {
      assert tail[k - 1] == items[k];
      WithoutSingle(tail, k - 1);
      assert items[..k] + items[k + 1..] == [items[0]] + (tail[..k - 1] + tail[k..]);
    }
  }

  /** Filtering out an id that does not occur changes nothing. */
  lemma {:induction false} WithoutNone(items: seq<Item>, id: Id)
    requires forall j :: 0 <= j < |items| ==> items[j].id != id
    ensures Without(items, id) == items
  {
    if items != [] {
      assert forall j :: 0 <= j < |items[1..]| ==> items[1..][j] == items[j + 1];
      WithoutNone(items[1..], id);
      assert items == [items[0]] + items[1..];
    }
  }

  /** The filter keeps exactly the entries whose id differs. */
  lemma {:induction false} WithoutMembers(items: seq<Item>, id: Id, x: Item)
    ensures x in Without(items, id) <==> x in items && x.id != id
  {
    if items != [] {
      WithoutMembers(items[1..], id, x);
      assert x in items <==> x == items[0] || x in items[1..] by {
        assert items == [items[0]] + items[1..];
      }
    }
  }

  /**
   * Filtering distributes over concatenation, so the surviving entries keep
   * their original relative order.
   */
  lemma {:induction false} WithoutConcat(a: seq<Item>, b: seq<Item>, id: Id)
    ensures Without(a + b, id) == Without(a, id) + Without(b, id)
  {
    if a == [] {
      assert a + b == b;
    } else {
      assert (a + b)[0] == a[0];
      assert (a + b)[1..] == a[1..] + b;
      WithoutConcat(a[1..], b, id);
    }
  }

  lemma FindIndexOfUnique(items: seq<Item>, k: int)
    requires Unique(items) && 0 <= k < |items|
    ensures FindIndex(items, items[k].id) == k
  {
  }

  // ---------------------------------------------------------------------------
  // ADD
  // ---------------------------------------------------------------------------

  /** ADD of a new id appends the incoming item; earlier entries stay where they were. */
  lemma AddAppendsNew(state: CartState, item: Item)
    requires !HasId(state.items, item.id)
    ensures var r := AddToCart(state, item);
      |r.items| == |state.items| + 1 && r.items[..|state.items|] == state.items &&
      r.items[|state.items|] == item &&
      r.totalAmount == state.totalAmount + item.price * item.amount
  {
    assert (state.items + [item])[..|state.items|] == state.items;
  }

  /**
   * ADD of an id already present bumps the amount of the first entry with that
   * id. Its id, name, price and position stay; no other entry changes.
   */
  lemma AddMergesExisting(state: CartState, item: Item, k: int)
    requires FirstWith(state.items, item.id, k)
    ensures var r := AddToCart(state, item);
      var old_ := state.items[k];
      |r.items| == |state.items| &&
      r.items[k] == Item(old_.id, old_.name, old_.price, old_.amount + item.amount) &&
      (forall j :: 0 <= j < |state.items| && j != k ==> r.items[j] == state.items[j]) &&
      r.totalAmount == state.totalAmount + item.price * item.amount
  {
    assert HasId(state.items, item.id);
    assert FindIndex(state.items, item.id) == k;
  }

  /** ADD keeps ids unique. */
  lemma AddPreservesUnique(state: CartState, item: Item)
    requires Unique(state.items)
    ensures Unique(AddToCart(state, item).items)
  {
    var r := AddToCart(state, item);
    if HasId(state.items, item.id) {
      var k := FindIndex(state.items, item.id);
      AddMergesExisting(state, item, k);
      forall i, j | 0 <= i < j < |r.items| ensures r.items[i].id != r.items[j].id {
        assert r.items[i].id == state.items[i].id && r.items[j].id == state.items[j].id;
      }
    } else {
      AddAppendsNew(state, item);
      forall i, j | 0 <= i < j < |r.items| ensures r.items[i].id != r.items[j].id {
        if j < |state.items| {
          assert r.items[i] == state.items[i] && r.items[j] == state.items[j];
        } else {
          assert r.items[i] == state.items[i];
        }
      }
    }
  }

  /** A merging ADD at the entry's own price keeps the total equal to the sum. */
  lemma AddMergePreservesTotal(state: CartState, item: Item, k: int)
    requires FirstWith(state.items, item.id, k) && state.items[k].price == item.price
    requires state.totalAmount == CartTotal(state.items)
    ensures var r := AddToCart(state, item); r.totalAmount == CartTotal(r.items)
  {
    var e := state.items[k];
    var x := Item(e.id, e.name, e.price, e.amount + item.amount);
    assert AddToCart(state, item).items == state.items[k := x] by {
      AddMergesExisting(state, item, k);
    }
    SumUpdate(state.items, k, x, LineTotal);
    MulAdd(e.price, e.amount, item.amount);
  }

  /** An appending ADD keeps the total equal to the sum. */
  lemma AddAppendPreservesTotal(state: CartState, item: Item)
    requires !HasId(state.items, item.id)
    requires state.totalAmount == CartTotal(state.items)
    ensures var r := AddToCart(state, item); r.totalAmount == CartTotal(r.items)
  {
    assert AddToCart(state, item).items == state.items + [item];
    SumAppend(state.items, item, LineTotal);
  }

  /** ADD of a positive amount keeps every amount positive. */
  lemma AddPreservesPositive(state: CartState, item: Item)
    requires AllPositive(state.items) && item.amount >= 1
    ensures AllPositive(AddToCart(state, item).items)
  {
    var r := AddToCart(state, item);
    if HasId(state.items, item.id) {
      AddMergesExisting(state, item, FindIndex(state.items, item.id));
    } else {
      AddAppendsNew(state, item);
      assert forall j :: 0 <= j < |state.items| ==> r.items[j] == state.items[j];
    }
  }

  /**
   * ADD keeps the total equal to the sum of price * amount, provided the
   * incoming price is the one already stored for that id, and keeps amounts
   * positive when the incoming amount is positive.
   */
  lemma AddPreservesWellformed(state: CartState, item: Item)
    requires Wellformed(state)
    requires item.amount >= 1 && PriceAgrees(state.items, item)
    ensures Wellformed(AddToCart(state, item))
  {
    AddPreservesUnique(state, item);
    AddPreservesPositive(state, item);
    if HasId(state.items, item.id) {
      AddMergePreservesTotal(state, item, FindIndex(state.items, item.id));
    } else {
      AddAppendPreservesTotal(state, item);
    }
  }

  /**
   * Without price agreement the running total drifts: a second ADD of the same
   * id at a different price raises the total by the new price while the stored
   * entry keeps the old one.
   */
  lemma AddAtStalePriceBreaksTotal()
    ensures var s := AddToCart(CartState([Item("a", "A", 5, 1)], 5), Item("a", "A", 7, 1));
      s.items == [Item("a", "A", 5, 2)] && s.totalAmount == 12 && CartTotal(s.items) == 10
  {
    var s := AddToCart(CartState([Item("a", "A", 5, 1)], 5), Item("a", "A", 7, 1));
    assert FindIndex([Item("a", "A", 5, 1)], "a") == 0;
    SumSingle(Item("a", "A", 5, 2), LineTotal);
  }

  // ---------------------------------------------------------------------------
  // REMOVE
  // ---------------------------------------------------------------------------

  /** REMOVE of an entry with amount other than 1 decrements it in place; nothing else changes. */
  lemma RemoveOneUnit(state: CartState, k: int)
    requires 0 <= k < |state.items| && FirstWith(state.items, state.items[k].id, k)
    requires state.items[k].amount != 1
    ensures var r := RemoveFromCart(state, state.items[k].id);
      var e := state.items[k];
      r.Ok? && |r.value.items| == |state.items| &&
      r.value.items[k] == Item(e.id, e.name, e.price, e.amount - 1) &&
      (forall j :: 0 <= j < |state.items| && j != k ==> r.value.items[j] == state.items[j]) &&
      r.value.totalAmount == state.totalAmount - e.price
  {
    var id := state.items[k].id;
    assert FindIndex(state.items, id) == k;
  }

  /**
   * REMOVE of an entry with amount 1 filters its id out and lowers the total by
   * its price; with unique ids exactly that slot disappears.
   */
  lemma RemoveLastUnit(state: CartState, k: int)
    requires 0 <= k < |state.items| && FirstWith(state.items, state.items[k].id, k)
    requires state.items[k].amount == 1
    ensures var r := RemoveFromCart(state, state.items[k].id);
      r.Ok? && r.value.items == Without(state.items, state.items[k].id) &&
      r.value.totalAmount == state.totalAmount - state.items[k].price &&
      (Unique(state.items) ==>
        r.value.items == state.items[..k] + state.items[k + 1..] &&
        |r.value.items| == |state.items| - 1)
  {
    var id := state.items[k].id;
    assert FindIndex(state.items, id) == k;
    if Unique(state.items) {
      WithoutSingle(state.items, k);
    }
  }

  /** Deleting one slot keeps ids unique. */
  lemma DeleteKeepsUnique(items: seq<Item>, k: int)
    requires Unique(items) && 0 <= k < |items|
    ensures Unique(items[..k] + items[k + 1..])
  {
    var rest := items[..k] + items[k + 1..];
    forall j | 0 <= j < |rest| ensures rest[j] == items[if j < k then j else j + 1] {
    }
  }

  /** Deleting one slot keeps amounts positive. */
  lemma DeleteKeepsPositive(items: seq<Item>, k: int)
    requires AllPositive(items) && 0 <= k < |items|
    ensures AllPositive(items[..k] + items[k + 1..])
  {
    var rest := items[..k] + items[k + 1..];
    forall j | 0 <= j < |rest| ensures rest[j] == items[if j < k then j else j + 1] {
    }
  }

  /** The slot-deleting REMOVE keeps the invariant. */
  lemma RemoveLastUnitPreservesWellformed(state: CartState, k: int)
    requires Wellformed(state) && 0 <= k < |state.items| && state.items[k].amount == 1
    ensures var r := RemoveFromCart(state, state.items[k].id); r.Ok? && Wellformed(r.value)
  {
    var e := state.items[k];
    var rest := state.items[..k] + state.items[k + 1..];
    assert RemoveFromCart(state, e.id) == Ok(CartState(rest, state.totalAmount - e.price)) by {
      FindIndexOfUnique(state.items, k);
      RemoveLastUnit(state, k);
    }
    DeleteKeepsUnique(state.items, k);
    DeleteKeepsPositive(state.items, k);
    SumDelete(state.items, k, LineTotal);
  }

  /** The decrementing REMOVE keeps the invariant. */
  lemma RemoveOneUnitPreservesWellformed(state: CartState, k: int)
    requires Wellformed(state) && 0 <= k < |state.items| && state.items[k].amount != 1
    ensures var r := RemoveFromCart(state, state.items[k].id); r.Ok? && Wellformed(r.value)
  {
    var e := state.items[k];
    var x := e.(amount := e.amount - 1);
    assert RemoveFromCart(state, e.id) == Ok(CartState(state.items[k := x], state.totalAmount - e.price)) by {
      FindIndexOfUnique(state.items, k);
      RemoveOneUnit(state, k);
    }
    SumUpdate(state.items, k, x, LineTotal);
    MulPrev(e.price, e.amount);
    UpdateKeepsUnique(state.items, k, x);
  }

  /** REMOVE keeps ids unique, amounts positive and the total equal to the sum. */
  lemma RemovePreservesWellformed(state: CartState, id: Id)
    requires Wellformed(state)
    ensures var r := RemoveFromCart(state, id); r.Ok? ==> Wellformed(r.value)
  {
    var k := FindIndex(state.items, id);
    if k != -1 {
      if state.items[k].amount == 1 {
        RemoveLastUnitPreservesWellformed(state, k);
      } else {
        RemoveOneUnitPreservesWellformed(state, k);
      }
    }
  }

  /**
   * Every successful REMOVE lowers the total by the stored price of the first
   * entry with the id, whatever that entry's amount: one unit goes, not the line.
   */
  lemma RemoveLowersTotalByPrice(state: CartState, id: Id)
    requires HasId(state.items, id)
    ensures var r := RemoveFromCart(state, id);
      r.Ok? && r.value.totalAmount == state.totalAmount - state.items[FindIndex(state.items, id)].price
  {
    var k := FindIndex(state.items, id);
    if state.items[k].amount == 1 {
      RemoveLastUnit(state, k);
    } else {
      RemoveOneUnit(state, k);
    }
  }

  /** REMOVE keeps ids unique, whatever the prices and the total. */
  lemma RemovePreservesUnique(state: CartState, id: Id)
    requires Unique(state.items)
    ensures var r := RemoveFromCart(state, id); r.Ok? ==> Unique(r.value.items)
  {
    var k := FindIndex(state.items, id);
    if k != -1 {
      var e := state.items[k];
      if e.amount == 1 {
        RemoveLastUnit(state, k);
        DeleteKeepsUnique(state.items, k);
      } else {
        var x := e.(amount := e.amount - 1);
        assert RemoveFromCart(state, id).value.items == state.items[k := x] by {
          RemoveOneUnit(state, k);
        }
        UpdateKeepsUnique(state.items, k, x);
      }
    }
  }

  /** REMOVE keeps every amount positive, even when ids repeat. */
  lemma RemovePreservesPositive(state: CartState, id: Id)
    requires AllPositive(state.items)
    ensures var r := RemoveFromCart(state, id); r.Ok? ==> AllPositive(r.value.items)
  {
    var k := FindIndex(state.items, id);
    if k != -1 {
      var e := state.items[k];
      if e.amount == 1 {
        RemoveLastUnit(state, k);
        var rest := Without(state.items, id);
        forall j | 0 <= j < |rest| ensures rest[j].amount >= 1 {
          WithoutMembers(state.items, id, rest[j]);
        }
      } else {
        RemoveOneUnit(state, k);
      }
    }
  }

  /** Every action keeps ids unique, with no condition on prices or amounts. */
  lemma ReducePreservesUnique(state: CartState, action: Action)
    requires Unique(state.items)
    ensures var r := Reduce(state, action); r.Ok? ==> Unique(r.value.items)
  {
    match action
    case Add(item) => AddPreservesUnique(state, item);
    case Remove(id) => RemovePreservesUnique(state, id);
    case Unrecognized =>
  }

  /** Every action keeps amounts positive, provided an ADD brings a positive amount. */
  lemma ReducePreservesPositive(state: CartState, action: Action)
    requires AllPositive(state.items)
    requires action.Add? ==> action.item.amount >= 1
    ensures var r := Reduce(state, action); r.Ok? ==> AllPositive(r.value.items)
  {
    match action
    case Add(item) => AddPreservesPositive(state, item);
    case Remove(id) => RemovePreservesPositive(state, id);
    case Unrecognized =>
  }

  /** The whole reducer keeps the invariant (ADD under price agreement and a positive amount). */
  lemma ReducePreservesWellformed(state: CartState, action: Action)
    requires Wellformed(state)
    requires action.Add? ==> action.item.amount >= 1 && PriceAgrees(state.items, action.item)
    ensures var r := Reduce(state, action); r.Ok? ==> Wellformed(r.value)
  {
    match action
    case Add(item) => AddPreservesWellformed(state, item);
    case Remove(id) => RemovePreservesWellformed(state, id);
    case Unrecognized =>
  }

  /** The default state satisfies the invariant and is empty. */
  lemma DefaultIsWellformed()
    ensures Wellformed(DefaultCartState) && DefaultCartState.items == [] && DefaultCartState.totalAmount == 0
  {
  }

  /** In a well-formed cart the total is never negative. */
  lemma WellformedTotalNonNegative(s: CartState)
    requires Wellformed(s)
    ensures s.totalAmount >= 0
  {
    forall j | 0 <= j < |s.items| ensures LineTotal(s.items[j]) >= 0 {
      assert s.items[j].amount >= 1;
    }
    SumNonNegative(s.items, LineTotal);
  }

  // ---------------------------------------------------------------------------
  // Repeated REMOVE
  // ---------------------------------------------------------------------------

  /** Dispatching REMOVE of `id` n times in a row. */
  function RemoveTimes(state: CartState, id: Id, n: nat): Result<CartState> {
    if n == 0 then Ok(state)
    else
      match RemoveTimes(state, id, n - 1)
      case Err(e) => Err(e)
      case Ok(s) => RemoveFromCart(s, id)
  }

  /** Replacing an entry by one with the same id keeps ids unique. */
  lemma UpdateKeepsUnique(items: seq<Item>, k: int, x: Item)
    requires Unique(items) && 0 <= k < |items| && x.id == items[k].id
    ensures Unique(items[k := x])
  {
    var u := items[k := x];
    forall i, j | 0 <= i < j < |u| ensures u[i].id != u[j].id {
      assert u[i].id == items[i].id && u[j].id == items[j].id;
    }
  }

  /**
   * REMOVE on an entry x, stored at slot k where its id first occurs, that
   * holds other than one unit leaves y, the entry one unit down, and the
   * total one price down.
   */
  lemma DecrementStep(items: seq<Item>, k: int, x: Item, y: Item, total: int, total': int)
    requires 0 <= k < |items| && FirstWith(items, x.id, k) && x.amount != 1
    requires y == x.(amount := x.amount - 1) && total' == total - x.price
    ensures RemoveFromCart(CartState(items[k := x], total), x.id) == Ok(CartState(items[k := y], total'))
  {
    assert FirstWith(items[k := x], x.id, k);
    assert FindIndex(items[k := x], x.id) == k;
    assert items[k := x][k := y] == items[k := y];
  }

  /**
   * Fewer REMOVEs than the entry's amount, where slot k is the first with
   * its id, decrement that slot in place and lower the total by one price
   * each.
   */
  lemma RemoveTimesBelowAmount(state: CartState, k: int, m: nat)
    requires 0 <= k < |state.items| && FirstWith(state.items, state.items[k].id, k)
    requires m < state.items[k].amount
    ensures var e := state.items[k];
      RemoveTimes(state, e.id, m) ==
        Ok(CartState(state.items[k := e.(amount := e.amount - m)], state.totalAmount - e.price * m))
  {
    RemoveTimesDecrements(state, k, m, state.totalAmount - state.items[k].price * m);
  }

  /** The induction behind RemoveTimesBelowAmount, with the expected total passed in. */
  lemma {:induction false} RemoveTimesDecrements(state: CartState, k: int, m: nat, total: int)
    requires 0 <= k < |state.items| && FirstWith(state.items, state.items[k].id, k)
    requires m < state.items[k].amount && total == state.totalAmount - state.items[k].price * m
    ensures var e := state.items[k];
      RemoveTimes(state, e.id, m) == Ok(CartState(state.items[k := e.(amount := e.amount - m)], total))
  {
    var e := state.items[k];
    if m > 0 {
      var before := state.totalAmount - e.price * (m - 1);
      var x := e.(amount := e.amount - (m - 1));
      var s := CartState(state.items[k := x], before);
      assert RemoveTimes(state, e.id, m - 1) == Ok(s) by {
        RemoveTimesDecrements(state, k, m - 1, before);
      }
      var y := e.(amount := e.amount - m);
      var t := CartState(state.items[k := y], total);
      assert RemoveFromCart(s, e.id) == Ok(t) by {
        MulPrev(e.price, m);
        DecrementStep(state.items, k, x, y, before, total);
      }
      RemoveTimesNext(state, e.id, m, s, Ok(t));
    } else {
      assert e.(amount := e.amount - m) == e;
      assert state.items[k := e] == state.items;
    }
  }

  /** One more REMOVE after n of them. */
  lemma RemoveTimesNext(state: CartState, id: Id, n: nat, s: CartState, t: Result<CartState>)
    requires n >= 1 && RemoveTimes(state, id, n - 1) == Ok(s) && RemoveFromCart(s, id) == t
    ensures RemoveTimes(state, id, n) == t
  {
  }

  /** Deleting the only entry with an id leaves no entry with it. */
  lemma DeleteUniqueRemovesId(items: seq<Item>, k: int)
    requires Unique(items) && 0 <= k < |items|
    ensures !HasId(items[..k] + items[k + 1..], items[k].id)
  {
    var rest := items[..k] + items[k + 1..];
    forall j | 0 <= j < |rest| ensures rest[j].id != items[k].id {
      assert rest[j] == items[if j < k then j else j + 1];
    }
  }

  /** REMOVE of an entry down to one unit deletes exactly its slot and one price from the total. */
  lemma RemoveFinalUnit(state: CartState, k: int, total: int, total': int)
    requires Unique(state.items) && 0 <= k < |state.items| && total' == total - state.items[k].price
    ensures var e := state.items[k];
      RemoveFromCart(CartState(state.items[k := e.(amount := 1)], total), e.id) ==
        Ok(CartState(state.items[..k] + state.items[k + 1..], total'))
  {
    var e := state.items[k];
    var x := e.(amount := 1);
    var s := CartState(state.items[k := x], total);
    UpdateKeepsUnique(state.items, k, x);
    RemoveLastUnit(s, k);
    assert s.items[..k] + s.items[k + 1..] == state.items[..k] + state.items[k + 1..];
  }

  /** After n - 1 REMOVEs an entry holding n units has one left. */
  lemma DrainToLastUnit(state: CartState, k: int, n: nat)
    requires 0 <= k < |state.items| && FirstWith(state.items, state.items[k].id, k)
    requires state.items[k].amount == n >= 1
    ensures var e := state.items[k];
      RemoveTimes(state, e.id, n - 1) ==
        Ok(CartState(state.items[k := e.(amount := 1)], state.totalAmount - e.price * n + e.price))
  {
    var e := state.items[k];
    RemoveTimesBelowAmount(state, k, n - 1);
    assert e.(amount := e.amount - (n - 1)) == e.(amount := 1);
    MulPrev(e.price, n);
  }

  /** The last unit of an entry holding n units goes on the n-th REMOVE. */
  lemma DrainEntryDeletes(state: CartState, k: int, n: nat)
    requires Unique(state.items) && 0 <= k < |state.items| && state.items[k].amount == n >= 1
    ensures var e := state.items[k];
      RemoveTimes(state, e.id, n) ==
        Ok(CartState(state.items[..k] + state.items[k + 1..], state.totalAmount - e.price * n))
  {
    var e := state.items[k];
    var total := state.totalAmount - e.price * n + e.price;
    var last := CartState(state.items[k := e.(amount := 1)], total);
    var drained := CartState(state.items[..k] + state.items[k + 1..], state.totalAmount - e.price * n);
    DrainToLastUnit(state, k, n);
    RemoveFinalUnit(state, k, total, drained.totalAmount);
    RemoveTimesNext(state, e.id, n, last, Ok(drained));
  }

  /**
   * Decrement-to-delete: REMOVE dispatched exactly as many times as the entry
   * has units deletes it and lowers the total by price * amount; one more
   * REMOVE fails.
   */
  lemma DrainEntry(state: CartState, k: int, n: nat)
    requires Unique(state.items) && 0 <= k < |state.items| && state.items[k].amount == n >= 1
    ensures var e := state.items[k];
      RemoveTimes(state, e.id, n) ==
        Ok(CartState(state.items[..k] + state.items[k + 1..], state.totalAmount - e.price * n)) &&
      RemoveTimes(state, e.id, n + 1) == Err(MissingItem(e.id))
  {
    var e := state.items[k];
    var drained := CartState(state.items[..k] + state.items[k + 1..], state.totalAmount - e.price * n);
    DrainEntryDeletes(state, k, n);
    DeleteUniqueRemovesId(state.items, k);
    RemoveTimesNext(state, e.id, n + 1, drained, Err(MissingItem(e.id)));
  }

  // ---------------------------------------------------------------------------
  // Worked scenarios
  // ---------------------------------------------------------------------------

  /** ADD, ADD again (merge), then three REMOVEs empty the cart; a fourth fails. */
  lemma ScenarioAddMergeRemove()
    ensures var x2 := Item("x", "X", 5, 2);
      var s1 := AddToCart(DefaultCartState, x2);
      var s2 := AddToCart(s1, Item("x", "X", 5, 1));
      s1 == CartState([x2], 10) &&
      s2 == CartState([Item("x", "X", 5, 3)], 15) &&
      RemoveTimes(s2, "x", 1) == Ok(CartState([x2], 10)) &&
      RemoveTimes(s2, "x", 3) == Ok(CartState([], 0)) &&
      RemoveTimes(s2, "x", 4) == Err(MissingItem("x"))
  {
    var s2 := CartState([Item("x", "X", 5, 3)], 15);
    assert FindIndex([Item("x", "X", 5, 2)], "x") == 0;
    DrainEntry(s2, 0, 3);
    RemoveTimesBelowAmount(s2, 0, 1);
    assert [Item("x", "X", 5, 3)][0 := Item("x", "X", 5, 2)] == [Item("x", "X", 5, 2)];
  }

  /** ADD "a", ADD "b", ADD "a" keeps the order a, b. */
  lemma ScenarioOrderPreserved()
    ensures var a := Item("a", "A", 3, 1);
      var b := Item("b", "B", 4, 1);
      var s := AddToCart(AddToCart(AddToCart(DefaultCartState, a), b), a);
      s.items == [Item("a", "A", 3, 2), b] && s.totalAmount == 10
  {
    var a := Item("a", "A", 3, 1);
    var b := Item("b", "B", 4, 1);
    assert FindIndex([a], "b") == -1;
    assert FindIndex([a, b], "a") == 0;
  }
}
