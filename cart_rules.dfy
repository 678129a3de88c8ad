/**
 The rules of the shopping-cart store: cart lines, the pure computation of
 the next cart for each operation, and what each operation does to the pair
 (in-memory cart, persisted copy) as a function of the old pair and of what
 the stock and catalog gateways answered.
 */
module CartRules {

  datatype Option<T> = None | Some(value: T)

  /** The catalog fields of a product other than its id and amount (title,
      price, image, ...), carried along without being interpreted. */
  type Details = map<string, string>

  /** One line of the cart: a catalog product with the quantity chosen. */
  datatype Line = Line(id: int, amount: int, details: Details)

  /** A catalog record as the product gateway returns it. */
  datatype Product = Product(id: int, details: Details)

  /** What an operation reports to the user (in place of a notification). */
  datatype Outcome = Added | Removed | Updated | OutOfStock | RemoveError | Failed

  /** The in-memory cart and the persisted slot (None: nothing stored). */
  datatype State = State(cart: seq<Line>, stored: Option<seq<Line>>)

  ghost predicate Has(cart: seq<Line>, id: int)
  {
    exists i :: 0 <= i < |cart| && cart[i].id == id
  }

  /** Index of the first line with the given id, or -1 if there is none. */
  function FindIndex(cart: seq<Line>, id: int): (r: int)
    ensures -1 <= r < |cart|
    ensures r == -1 <==> !Has(cart, id)
    ensures r != -1 ==> cart[r].id == id
    ensures forall i :: 0 <= i < r ==> cart[i].id != id
  {
    if |cart| == 0 then -1
    else if cart[0].id == id then 0
    else
      var k := FindIndex(cart[1..], id);
      if k == -1 then -1 else k + 1
  }

  /** The first line with the given id, if any. */
  function Find(cart: seq<Line>, id: int): (r: Option<Line>)
    ensures r.None? <==> !Has(cart, id)
    ensures r.Some? ==> r.value.id == id && r.value in cart
    ensures r.Some? ==> exists k ::
      && 0 <= k < |cart| && r.value == cart[k]
      && forall i :: 0 <= i < k ==> cart[i].id != id
  {
    var k := FindIndex(cart, id);
    if k == -1 then None else Some(cart[k])
  }

  /** The cart with every line of the given id set to the given amount. */
  function WithAmount(cart: seq<Line>, id: int, amount: int): (r: seq<Line>)
  {
    if |cart| == 0 then []
    else
      var head := if cart[0].id == id then cart[0].(amount := amount) else cart[0];
      [head] + WithAmount(cart[1..], id, amount)
  }

  /** The cart with the line at the given index cut out. */
  function Spliced(cart: seq<Line>, index: nat): (r: seq<Line>)
    requires index < |cart|
  {
    cart[..index] + cart[index + 1..]
  }

  ghost predicate DistinctIds(cart: seq<Line>)
  {
    forall i, j :: 0 <= i < j < |cart| ==> cart[i].id != cart[j].id
  }

  ghost predicate PositiveAmounts(cart: seq<Line>)
  {
    forall i :: 0 <= i < |cart| ==> cart[i].amount > 0
  }

  /** At most one line per product, and every quantity positive. */
  ghost predicate WellFormed(cart: seq<Line>)
  {
    DistinctIds(cart) && PositiveAmounts(cart)
  }

  /** The persisted slot holds exactly the in-memory cart. */
  ghost predicate Synced(s: State)
  {
    s.stored == Some(s.cart)
  }

  /** A new cart committed to memory and to storage together. */
  function Commit(cart: seq<Line>): (s: State)
  {
    State(cart, Some(cart))
  }

  /** Startup: the persisted cart when there is one, otherwise empty. */
  function Initial(slot: Option<seq<Line>>): (s: State)
  {
    match slot
    case Some(saved) => State(saved, slot)
    case None => State([], None)
  }

  /** updateProductAmount, given the stock gateway's answer (None: the call failed). */
  function Update(s: State, id: int, amount: int, stock: Option<int>): (r: (Outcome, State))
  {
    match stock
    case None => (Failed, s)
    case Some(available) =>
      if available >= amount && amount > 0 then (Updated, Commit(WithAmount(s.cart, id, amount)))
      else (OutOfStock, s)
  }

  /** addProduct, given the stock answer, the catalog answer and, for a
      product already in the cart, the stock answer seen by the update it
      hands off to. */
  function Add(s: State, id: int, stock: Option<int>, product: Option<Product>, restock: Option<int>): (r: (Outcome, State))
  {
    match stock
    case None => (Failed, s)
    case Some(available) =>
      if available <= 1 then (OutOfStock, s)
      else
        match product
        case None => (Failed, s)
        case Some(p) =>
          match Find(s.cart, id)
          case Some(line) => Update(s, line.id, line.amount + 1, restock)
          case None => (Added, Commit(s.cart + [Line(p.id, 1, p.details)]))
  }

  /** removeProduct. */
  function Remove(s: State, id: int): (r: (Outcome, State))
  {
    var index := FindIndex(s.cart, id);
    if index != -1 then (Removed, Commit(Spliced(s.cart, index)))
    else (RemoveError, s)
  }

  // ---------------------------------------------------------------------
  // The list rules

  /** Setting an amount keeps length, order, ids and details; matching lines
      get the new amount and all other lines are untouched. */
  lemma {:induction false} WithAmountAt(cart: seq<Line>, id: int, amount: int)
    ensures |WithAmount(cart, id, amount)| == |cart|
    ensures forall i :: 0 <= i < |cart| ==>
      WithAmount(cart, id, amount)[i] ==
        if cart[i].id == id then cart[i].(amount := amount) else cart[i]
  {
    if |cart| > 0 {
      WithAmountAt(cart[1..], id, amount);
      var r := WithAmount(cart, id, amount);
      forall i | 0 <= i < |cart|
        ensures r[i] == if cart[i].id == id then cart[i].(amount := amount) else cart[i]
      {
        if i > 0 {
          assert r[i] == WithAmount(cart[1..], id, amount)[i - 1];
          assert cart[1..][i - 1] == cart[i];
        }
      }
    }
  }

  /** Setting the amount of a product that is not in the cart changes nothing. */
  lemma {:induction false} WithAmountAbsent(cart: seq<Line>, id: int, amount: int)
    requires !Has(cart, id)
    ensures WithAmount(cart, id, amount) == cart
  {
    WithAmountAt(cart, id, amount);
  }

  /** Splicing drops exactly the line at the index: the lines before it stay
      where they were, the lines after it move down by one. */
  lemma SplicedAt(cart: seq<Line>, index: nat)
    requires index < |cart|
    ensures |Spliced(cart, index)| == |cart| - 1
    ensures forall i :: 0 <= i < index ==> Spliced(cart, index)[i] == cart[i]
    ensures forall i :: index <= i < |cart| - 1 ==> Spliced(cart, index)[i] == cart[i + 1]
    ensures multiset(Spliced(cart, index)) + multiset{cart[index]} == multiset(cart)
  {
    assert cart == cart[..index] + [cart[index]] + cart[index + 1..];
  }

  // ---------------------------------------------------------------------
  // updateProductAmount

  /** The stock check: a new amount is committed only when 0 < amount <= stock;
      otherwise nothing changes and the user is told the stock is short. A
      failed stock lookup changes nothing either. */
  lemma UpdateGuard(s: State, id: int, amount: int, stock: Option<int>)
    ensures Update(s, id, amount, stock).0 == Updated <==>
      stock.Some? && 0 < amount <= stock.value
    ensures Update(s, id, amount, stock).0 != Updated ==> Update(s, id, amount, stock).1 == s
    ensures stock.Some? && !(0 < amount <= stock.value) ==> Update(s, id, amount, stock).0 == OutOfStock
    ensures stock.None? ==> Update(s, id, amount, stock).0 == Failed
  {
  }

  /** A committed update keeps length, order, every id and every line's
      details; lines of the product get the new amount, the others stay as
      they were; the stored copy is the new cart. */
  lemma UpdateCommits(s: State, id: int, amount: int, available: int)
    requires 0 < amount <= available
    ensures var (o, t) := Update(s, id, amount, Some(available));
      && o == Updated
      && Synced(t)
      && |t.cart| == |s.cart|
      && (forall i :: 0 <= i < |s.cart| ==>
            t.cart[i].id == s.cart[i].id && t.cart[i].details == s.cart[i].details)
      && (forall i :: 0 <= i < |s.cart| && s.cart[i].id == id ==> t.cart[i].amount == amount)
      && (forall i :: 0 <= i < |s.cart| && s.cart[i].id != id ==> t.cart[i] == s.cart[i])
  {
    WithAmountAt(s.cart, id, amount);
  }

  /** Updating a product that is not in the cart leaves the cart as it was,
      still writes it to storage and reports no error. */
  lemma UpdateAbsent(s: State, id: int, amount: int, available: int)
    requires 0 < amount <= available
    requires !Has(s.cart, id)
    ensures Update(s, id, amount, Some(available)) == (Updated, Commit(s.cart))
  {
    WithAmountAbsent(s.cart, id, amount);
  }

  // ---------------------------------------------------------------------
  // addProduct

  /** A reported stock of at most one refuses the add, even when exactly one
      unit is available, and changes nothing. */
  lemma AddLowStock(s: State, id: int, available: int, product: Option<Product>, restock: Option<int>)
    requires available <= 1
    ensures Add(s, id, Some(available), product, restock) == (OutOfStock, s)
  {
  }

  /** A failed stock request, or a failed catalog request after the stock
      check passed, reports a failure and changes nothing, whether or not
      the product is already in the cart. */
  lemma AddFailed(s: State, id: int, stock: Option<int>, product: Option<Product>, restock: Option<int>)
    requires stock.None? || (stock.value > 1 && product.None?)
    ensures Add(s, id, stock, product, restock) == (Failed, s)
  {
  }

  /** A product not yet in the cart (stock above one, catalog answer
      received) is appended as exactly one line of amount 1, under the id
      of the catalog record, after the unchanged earlier lines; the stored
      copy is the new cart. */
  lemma AddNew(s: State, id: int, available: int, p: Product, restock: Option<int>)
    requires available > 1
    requires !Has(s.cart, id)
    ensures var (o, t) := Add(s, id, Some(available), Some(p), restock);
      && o == Added
      && Synced(t)
      && |t.cart| == |s.cart| + 1
      && t.cart[..|s.cart|] == s.cart
      && t.cart[|s.cart|] == Line(p.id, 1, p.details)
  {
  }

  /** Adding a product already in the cart (stock above one, catalog answer
      received) is the update of its first line's amount plus one, checked
      against the stock the update itself looks up. */
  lemma AddExisting(s: State, id: int, available: int, p: Product, restock: Option<int>, line: Line)
    requires available > 1
    requires line in s.cart && line.id == id
    ensures exists k ::
      && 0 <= k < |s.cart| && s.cart[k].id == id
      && (forall i :: 0 <= i < k ==> s.cart[i].id != id)
      && Add(s, id, Some(available), Some(p), restock) == Update(s, id, s.cart[k].amount + 1, restock)
    ensures WellFormed(s.cart) ==>
      Add(s, id, Some(available), Some(p), restock) == Update(s, id, line.amount + 1, restock)
  {
    assert Has(s.cart, id) by {
      var j :| 0 <= j < |s.cart| && s.cart[j] == line;
    }
    var k := FindIndex(s.cart, id);
    assert Find(s.cart, id) == Some(s.cart[k]);
    assert Add(s, id, Some(available), Some(p), restock) == Update(s, id, s.cart[k].amount + 1, restock);
    if WellFormed(s.cart) {
      var j :| 0 <= j < |s.cart| && s.cart[j] == line;
      assert j == k;
    }
  }

  /** The threshold of the add is stricter than the one of the update: with
      one unit in stock the add is refused, whether or not the product is
      in the cart, while an update to one unit against the same stock is
      accepted. */
  lemma AddStricterThanUpdate(s: State, id: int, p: Product, restock: Option<int>)
    ensures Add(s, id, Some(1), Some(p), restock).0 == OutOfStock
    ensures Update(s, id, 1, Some(1)).0 == Updated
  {
  }

  // ---------------------------------------------------------------------
  // removeProduct

  /** Removing a present product takes out exactly the first line with its
      id: the length drops by one, the other lines keep their order, and
      the stored copy is the new cart. */
  lemma RemovePresent(s: State, id: int)
    requires Has(s.cart, id)
    ensures var (o, t) := Remove(s, id);
      && o == Removed
      && Synced(t)
      && |t.cart| == |s.cart| - 1
      && exists k :: 0 <= k < |s.cart| && s.cart[k].id == id
           && (forall i :: 0 <= i < k ==> s.cart[i].id != id)
           && t.cart == s.cart[..k] + s.cart[k + 1..]
           && multiset(t.cart) + multiset{s.cart[k]} == multiset(s.cart)
  {
    var k := FindIndex(s.cart, id);
    SplicedAt(s.cart, k);
  }

  /** Removing an absent product is an error and changes nothing. */
  lemma RemoveAbsent(s: State, id: int)
    requires !Has(s.cart, id)
    ensures Remove(s, id) == (RemoveError, s)
  {
  }

  // ---------------------------------------------------------------------
  // Invariants

  /** With nothing stored the store starts with an empty, well-formed cart. */
  lemma InitialEmpty()
    ensures Initial(None).cart == [] && WellFormed(Initial(None).cart)
  {
  }

  lemma {:induction false} UpdatePreserves(s: State, id: int, amount: int, stock: Option<int>)
    requires WellFormed(s.cart)
    ensures WellFormed(Update(s, id, amount, stock).1.cart)
  {
    if stock.Some? && stock.value >= amount && amount > 0 {
      WithAmountAt(s.cart, id, amount);
    }
  }

  /** Amounts stay positive for any catalog answer; ids stay distinct when
      the catalog answers with the record of the requested id. */
  lemma AddPreserves(s: State, id: int, stock: Option<int>, product: Option<Product>, restock: Option<int>)
    requires WellFormed(s.cart)
    ensures PositiveAmounts(Add(s, id, stock, product, restock).1.cart)
    ensures (product.Some? ==> product.value.id == id) ==> WellFormed(Add(s, id, stock, product, restock).1.cart)
  {
    if stock.Some? && stock.value > 1 && product.Some? {
      match Find(s.cart, id)
      case Some(line) =>
        UpdatePreserves(s, line.id, line.amount + 1, restock);
      case None =>
        var c := s.cart + [Line(product.value.id, 1, product.value.details)];
        assert forall i :: 0 <= i < |s.cart| ==> c[i] == s.cart[i];
        assert product.value.id == id ==> forall i :: 0 <= i < |s.cart| ==> c[i].id != id;
    }
  }

  lemma RemovePreserves(s: State, id: int)
    requires WellFormed(s.cart)
    ensures WellFormed(Remove(s, id).1.cart)
  {
  }

  /** Every operation either commits (memory and storage together) or
      leaves the whole state untouched, so a synced store stays synced. */
  lemma OperationsCommitOrKeep(s: State, id: int, amount: int, stock: Option<int>, product: Option<Product>, restock: Option<int>)
    ensures var (o, t) := Update(s, id, amount, stock); if o == Updated then Synced(t) else t == s
    ensures var (o, t) := Add(s, id, stock, product, restock);
      if o == Added || o == Updated then Synced(t) else t == s
    ensures var (o, t) := Remove(s, id); if o == Removed then Synced(t) else t == s
  {
  }

  /** Worked examples: the first add of a product, the refused add at a
      stock of one, the removal of the only line, and an update up to the
      stock. */
  lemma WorkedExamples(shoe: Details)
    ensures Add(State([], None), 1, Some(10), Some(Product(1, shoe)), None)
      == (Added, Commit([Line(1, 1, shoe)]))
    ensures var s := Commit([Line(1, 1, shoe)]); Add(s, 1, Some(1), Some(Product(1, shoe)), Some(1)) == (OutOfStock, s)
    ensures Remove(Commit([Line(5, 2, shoe)]), 5) == (Removed, Commit([]))
    ensures Update(Commit([Line(2, 3, shoe)]), 2, 5, Some(5)) == (Updated, Commit([Line(2, 5, shoe)]))
  {
    assert Find([], 1) == None;
    assert [] + [Line(1, 1, shoe)] == [Line(1, 1, shoe)];
    assert Spliced([Line(5, 2, shoe)], 0) == [];
    assert [Line(2, 3, shoe)][1..] == [];
    assert WithAmount([Line(2, 3, shoe)], 2, 5) == [Line(2, 5, shoe)];
  }
}
