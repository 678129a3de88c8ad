/**
 The cart store itself: the in-memory cart and its persisted copy as fields
 that the three operations reassign. The remote stock and catalog lookups
 are parameters (None when the request failed), and each operation returns
 the outcome it would announce to the user.
 */
module CartStore {
  import opened CartRules

  class Store {
    /** The cart as the user interface sees it, in insertion order. */
    var cart: seq<Line>
    /** The persisted slot; None while nothing has been written to it. */
    var stored: Option<seq<Line>>

    ghost function Snapshot(): State
      reads this
    {
      State(cart, stored)
    }

    /** Seeds the cart from the persisted slot, empty when nothing is stored. */
    constructor (slot: Option<seq<Line>>)
      ensures Snapshot() == Initial(slot)
      ensures slot.None? ==> cart == [] && WellFormed(cart)
    {
      match slot {
        case Some(saved) => cart := saved;
        case None => cart := [];
      }
      stored := slot;
    }

    /** Sets the amount of every line of the product, if the stock allows it. */
    method UpdateProductAmount(id: int, amount: int, stock: Option<int>) returns (outcome: Outcome)
      modifies this
      ensures (outcome, Snapshot()) == Update(old(Snapshot()), id, amount, stock)
      ensures old(WellFormed(cart)) ==> WellFormed(cart)
    {
      if WellFormed(cart) {
        UpdatePreserves(Snapshot(), id, amount, stock);
      }
      if stock.None? {
        return Failed;
      }
      if stock.value >= amount && amount > 0 {
        var updated := WithAmount(cart, id, amount);
        cart := updated;
        stored := Some(updated);
        outcome := Updated;
      } else {
        outcome := OutOfStock;
      }
    }

    /** Adds one unit of the product: a new line of amount 1, or, when the
        product is already in the cart, an update to its amount plus one. */
    method AddProduct(id: int, stock: Option<int>, product: Option<Product>, restock: Option<int>)
      returns (outcome: Outcome)
      modifies this
      ensures (outcome, Snapshot()) == Add(old(Snapshot()), id, stock, product, restock)
      ensures old(WellFormed(cart)) ==> PositiveAmounts(cart)
      ensures old(WellFormed(cart)) && (product.Some? ==> product.value.id == id) ==> WellFormed(cart)
    {
      if WellFormed(cart) {
        AddPreserves(Snapshot(), id, stock, product, restock);
      }
      if stock.None? {
        return Failed;
      }
      if stock.value <= 1 {
        return OutOfStock;
      }
      if product.None? {
        return Failed;
      }
      var found := Find(cart, id);
      if found.Some? {
        outcome := UpdateProductAmount(found.value.id, found.value.amount + 1, restock);
        return;
      }
      var newCart := cart + [Line(product.value.id, 1, product.value.details)];
      cart := newCart;
      stored := Some(newCart);
      outcome := Added;
    }

    /** Removes the first line of the product; an absent product is an error. */
    method RemoveProduct(id: int) returns (outcome: Outcome)
      modifies this
      ensures (outcome, Snapshot()) == Remove(old(Snapshot()), id)
      ensures old(WellFormed(cart)) ==> WellFormed(cart)
    {
      if WellFormed(cart) {
        RemovePreserves(Snapshot(), id);
      }
      var index := FindIndex(cart, id);
      if index != -1 {
        cart := Spliced(cart, index);
        stored := Some(cart);
        outcome := Removed;
      } else {
        outcome := RemoveError;
      }
    }
  }
}
