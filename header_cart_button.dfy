/*
 * The cart button in the page header: a badge showing how many units are in
 * the cart, and a short "bump" highlight each time the items change.
 *
 * The highlight is driven by explicit events instead of a render loop and a
 * real clock: Change(items) is one run of the effect for a new items list,
 * TimerFires is the scheduled callback running, Unmount is the component
 * going away. The button owns a single slot for its pending timer.
 */
module HeaderCartButton {
  import opened CartReducer

  /** How long the highlight stays on, in milliseconds. */
  const BumpDuration: nat := 300

  // ---------------------------------------------------------------------------
  // Badge count
  // ---------------------------------------------------------------------------

  function Units(it: Item): int { it.amount }

  /** items.reduce((n, item) => n + item.amount, acc), a left fold. */
  function ReduceAmounts(acc: int, items: seq<Item>): int
    decreases |items|
  {
    if items == [] then acc else ReduceAmounts(acc + items[0].amount, items[1..])
  }

  lemma {:induction false} ReduceAmountsIsSum(acc: int, items: seq<Item>)
    ensures ReduceAmounts(acc, items) == acc + Sum(items, Units)
    decreases |items|
  {
    if items != [] {
      ReduceAmountsIsSum(acc + items[0].amount, items[1..]);
    }
  }

  /** The badge number: the sum of the amounts of all items, 0 for an empty cart. */
  function NumberOfCartItems(items: seq<Item>): (n: int)
    ensures n == Sum(items, Units)
    ensures items == [] ==> n == 0
  {
    ReduceAmountsIsSum(0, items);
    ReduceAmounts(0, items)
  }

  /** In a well-formed cart the badge is at least the number of distinct items. */
  lemma {:induction false} BadgeAtLeastLines(items: seq<Item>)
    requires AllPositive(items)
    ensures NumberOfCartItems(items) >= |items|
  {
    if items != [] {
      assert AllPositive(items[1..]) by {
        forall j | 0 <= j < |items[1..]| ensures items[1..][j].amount >= 1 {
          assert items[1..][j] == items[j + 1];
        }
      }
      BadgeAtLeastLines(items[1..]);
    }
  }

  /** Through the reducer, ADD raises the badge by the incoming amount. */
  lemma AddRaisesBadge(state: CartState, item: Item)
    ensures NumberOfCartItems(AddToCart(state, item).items) == NumberOfCartItems(state.items) + item.amount
  {
    var r := AddToCart(state, item);
    if HasId(state.items, item.id) {
      var k := FindIndex(state.items, item.id);
      AddMergesExisting(state, item, k);
      assert r.items == state.items[k := r.items[k]];
      SumUpdate(state.items, k, r.items[k], Units);
    } else {
      AddAppendsNew(state, item);
      assert r.items == state.items + [item];
      SumAppend(state.items, item, Units);
    }
  }

  /** Through the reducer, a successful REMOVE lowers the badge by exactly one (ids unique). */
  lemma RemoveLowersBadgeByOne(state: CartState, id: Id)
    requires Unique(state.items) && HasId(state.items, id)
    ensures var r := RemoveFromCart(state, id);
      r.Ok? && NumberOfCartItems(r.value.items) == NumberOfCartItems(state.items) - 1
  {
    var k := FindIndex(state.items, id);
    var e := state.items[k];
    if e.amount == 1 {
      RemoveLastUnit(state, k);
      SumDelete(state.items, k, Units);
    } else {
      RemoveOneUnit(state, k);
      var r := RemoveFromCart(state, id);
      assert r.value.items == state.items[k := r.value.items[k]];
      SumUpdate(state.items, k, r.value.items[k], Units);
    }
  }

  // ---------------------------------------------------------------------------
  // Highlight
  // ---------------------------------------------------------------------------

  /** The button's one timer slot. */
  datatype Timer = NoTimer | Scheduled(delay: nat)

  class Button {
    var highlighted: bool
    var timer: Timer

    /** A pending timer always belongs to a highlight that is on. */
    ghost predicate Valid()
      reads this
    {
      timer.Scheduled? ==> highlighted && timer.delay == BumpDuration
    }

    /** The highlight starts off, with no timer. */
    constructor ()
      ensures !highlighted && timer == NoTimer && Valid()
    {
      highlighted := false;
      timer := NoTimer;
    }

    /**
     * The effect runs for a new items list: first the previous run's cleanup
     * cancels its timer, then, for a non-empty list, the highlight goes on and
     * one timer is scheduled. An empty list leaves the highlight as it was.
     */
    method Change(items: seq<Item>)
      modifies this
      ensures |items| > 0 ==> highlighted && timer == Scheduled(BumpDuration)
      ensures |items| == 0 ==> highlighted == old(highlighted) && timer == NoTimer
      ensures Valid()
    {
      timer := NoTimer;
      if |items| == 0 {
        return;
      }
      highlighted := true;
      timer := Scheduled(BumpDuration);
    }

    /** The pending timer's callback runs: the highlight goes off. A cancelled timer never fires. */
    method TimerFires()
      modifies this
      ensures old(timer).Scheduled? ==> !highlighted && timer == NoTimer
      ensures old(timer) == NoTimer ==> highlighted == old(highlighted) && timer == NoTimer
      ensures old(Valid()) && old(timer).Scheduled? ==> old(highlighted)
      ensures Valid()
    {
      if timer.Scheduled? {
        highlighted := false;
        timer := NoTimer;
      }
    }

    /** The component goes away: the last cleanup cancels any pending timer. */
    method Unmount()
      modifies this
      ensures timer == NoTimer && highlighted == old(highlighted)
      ensures Valid()
    {
      timer := NoTimer;
    }
  }

  /**
   * Emptying the cart before the timer fires cancels the timer, so the
   * highlight stays on with nothing left to turn it off.
   */
  method EmptiedBeforeTimer(items: seq<Item>) returns (highlighted: bool, pending: bool)
    requires |items| > 0
    ensures highlighted && !pending
  {
    var button := new Button();
    button.Change(items);
    button.Change([]);
    highlighted, pending := button.highlighted, button.timer.Scheduled?;
  }

  /** A non-empty change bumps the highlight on, and the timer turns it off again. */
  method BumpThenSettle(items: seq<Item>) returns (during: bool, after: bool, pending: bool)
    requires |items| > 0
    ensures during && !after && !pending
  {
    var button := new Button();
    button.Change(items);
    during := button.highlighted;
    button.TimerFires();
    after, pending := button.highlighted, button.timer.Scheduled?;
  }
}
