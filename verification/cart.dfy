/**
 * The shopping cart: the item list with add / update-quantity / remove, discount codes,
 * the checkout reset and the item-count badge.
 */
module Cart {
  import opened Base
  import opened Text

  datatype Product = Product(id: string, name: string, price: real, image: string, category: string)

  datatype CartItem = CartItem(id: string, name: string, price: real, quantity: int, image: string)

  const InvalidDiscountCode: string := "Invalid discount code"

  /** `{ ...product, quantity: 1 }`. */
  function NewItem(p: Product): CartItem {
    CartItem(p.id, p.name, p.price, 1, p.image)
  }

  /** `items.find(item => item.id === id)` found something. */
  predicate HasItem(items: seq<CartItem>, id: string) {
    exists i :: 0 <= i < |items| && items[i].id == id
  }

  /** The cart invariant: ids are pairwise distinct and every quantity is at least 1. */
  predicate WellFormed(items: seq<CartItem>) {
    && (forall i, j :: 0 <= i < j < |items| ==> items[i].id != items[j].id)
    && (forall i :: 0 <= i < |items| ==> items[i].quantity >= 1)
  }

  // ---------------------------------------------------------------------------
  // The item-list transforms

  /** `addToCart`: one more of an item already in the cart, else the product appended with quantity 1. */
  function WithProductAdded(items: seq<CartItem>, p: Product): (r: seq<CartItem>)
    ensures HasItem(items, p.id) ==> |r| == |items| && forall i :: 0 <= i < |items| ==>
      r[i] == if items[i].id == p.id then items[i].(quantity := items[i].quantity + 1) else items[i]
    ensures !HasItem(items, p.id) ==> r == items + [NewItem(p)]
  {
    if HasItem(items, p.id) then
      seq(|items|, i requires 0 <= i < |items| =>
          if items[i].id == p.id then items[i].(quantity := items[i].quantity + 1) else items[i])
    else items + [NewItem(p)]
  }

  /** The `map` branch of `updateQuantity`: the matching item gets the new quantity. */
  function WithQuantity(items: seq<CartItem>, id: string, quantity: int): (r: seq<CartItem>)
    ensures |r| == |items|
    ensures forall i :: 0 <= i < |items| ==> r[i] == if items[i].id == id then items[i].(quantity := quantity) else items[i]
  {
    seq(|items|, i requires 0 <= i < |items| => if items[i].id == id then items[i].(quantity := quantity) else items[i])
  }

  /** `removeItem`: `items.filter(item => item.id !== id)`. */
  function WithoutItem(items: seq<CartItem>, id: string): (r: seq<CartItem>)
    ensures |r| <= |items|
    ensures forall i :: 0 <= i < |r| ==> r[i].id != id && r[i] in items
    ensures forall i :: 0 <= i < |items| && items[i].id != id ==> items[i] in r
  {
    Filter(items, (it: CartItem) => it.id != id)
  }

  /** `updateQuantity`: a quantity of zero or less removes the item. */
  function AfterQuantityUpdate(items: seq<CartItem>, id: string, quantity: int): (r: seq<CartItem>)
    ensures quantity <= 0 ==> r == WithoutItem(items, id)
    ensures quantity > 0 ==> r == WithQuantity(items, id, quantity)
  {
    if quantity <= 0 then WithoutItem(items, id) else WithQuantity(items, id, quantity)
  }

  /** Removing keeps the order of what remains: it commutes with splitting the list. */
  lemma WithoutItemKeepsOrder(a: seq<CartItem>, b: seq<CartItem>, id: string)
    ensures WithoutItem(a + b, id) == WithoutItem(a, id) + WithoutItem(b, id)
  {
    FilterConcat(a, b, (it: CartItem) => it.id != id);
  }

  /** Removing an id that is not in the cart changes nothing. */
  lemma WithoutAbsentItem(items: seq<CartItem>, id: string)
    requires !HasItem(items, id)
    ensures WithoutItem(items, id) == items
  {
    FilterKeepsAll(items, (it: CartItem) => it.id != id);
  }

  lemma AddPreservesWellFormed(items: seq<CartItem>, p: Product)
    requires WellFormed(items)
    ensures WellFormed(WithProductAdded(items, p))
  {
  }

  lemma UpdatePreservesWellFormed(items: seq<CartItem>, id: string, quantity: int)
    requires WellFormed(items)
    ensures WellFormed(AfterQuantityUpdate(items, id, quantity))
  {
    if quantity <= 0 {
      RemovePreservesWellFormed(items, id);
    }
  }

  lemma RemovePreservesWellFormed(items: seq<CartItem>, id: string)
    requires WellFormed(items)
    ensures WellFormed(WithoutItem(items, id))
  {
    var keep := (it: CartItem) => it.id != id;
    var distinct := (x: CartItem, y: CartItem) => x.id != y.id;
    FilterPreservesPairwise(items, keep, distinct);
  }

  // ---------------------------------------------------------------------------
  // The badge

  /** The badge count: `items.reduce((sum, item) => sum + item.quantity, 0)`. */
  function ItemCount(items: seq<CartItem>): (n: int)
    ensures (forall i :: 0 <= i < |items| ==> items[i].quantity >= 0) ==>
      n >= 0 && forall i :: 0 <= i < |items| ==> items[i].quantity <= n
  {
    if items == [] then 0 else items[0].quantity + ItemCount(items[1..])
  }

  lemma {:induction false} ItemCountConcat(a: seq<CartItem>, b: seq<CartItem>)
    ensures ItemCount(a + b) == ItemCount(a) + ItemCount(b)
  {
    if a == [] {
      assert a + b == b;
    } else {
      assert (a + b)[0] == a[0];
      assert (a + b)[1..] == a[1..] + b;
      ItemCountConcat(a[1..], b);
    }
  }

  /** Changing the quantity of the item at `k` changes the count by the difference. */
  lemma {:induction false} ItemCountPointUpdate(items: seq<CartItem>, k: nat, quantity: int)
    requires k < |items|
    ensures ItemCount(items[k := items[k].(quantity := quantity)]) == ItemCount(items) - items[k].quantity + quantity
  {
    var updated := items[k := items[k].(quantity := quantity)];
    if k > 0 {
      assert updated[1..] == items[1..][k - 1 := items[k].(quantity := quantity)];
      ItemCountPointUpdate(items[1..], k - 1, quantity);
    } else {
      assert updated[1..] == items[1..];
    }
  }

  /** In a well-formed cart, adding a product raises the badge by exactly one. */
  lemma AddRaisesCountByOne(items: seq<CartItem>, p: Product)
    requires WellFormed(items)
    ensures ItemCount(WithProductAdded(items, p)) == ItemCount(items) + 1
  {
    if HasItem(items, p.id) {
      var k :| 0 <= k < |items| && items[k].id == p.id;
      assert WithProductAdded(items, p) == items[k := items[k].(quantity := items[k].quantity + 1)];
      ItemCountPointUpdate(items, k, items[k].quantity + 1);
    } else {
      ItemCountConcat(items, [NewItem(p)]);
      assert [NewItem(p)][1..] == [];
    }
  }

  /** In a well-formed cart, setting a positive quantity on the item at `k` moves the badge by the difference. */
  lemma UpdateMovesCountByDifference(items: seq<CartItem>, k: nat, quantity: int)
    requires WellFormed(items) && k < |items| && quantity > 0
    ensures ItemCount(AfterQuantityUpdate(items, items[k].id, quantity)) == ItemCount(items) - items[k].quantity + quantity
  {
    assert WithQuantity(items, items[k].id, quantity) == items[k := items[k].(quantity := quantity)];
    ItemCountPointUpdate(items, k, quantity);
  }

  /** In a well-formed cart, removing the item at `k` lowers the badge by its quantity. */
  lemma {:induction false} RemoveLowersCountByQuantity(items: seq<CartItem>, k: nat)
    requires WellFormed(items) && k < |items|
    ensures ItemCount(WithoutItem(items, items[k].id)) == ItemCount(items) - items[k].quantity
  {
    var id := items[k].id;
    var keep := (it: CartItem) => it.id != id;
    var tail := items[1..];
    assert WellFormed(tail);
    assert items == [items[0]] + tail;
    FilterConcat([items[0]], tail, keep);
    assert Filter([items[0]], keep) == (if keep(items[0]) then [items[0]] else []) + Filter([], keep);
    if k == 0 {
      assert !HasItem(tail, id);
      WithoutAbsentItem(tail, id);
      assert WithoutItem(items, id) == tail;
    } else {
      RemoveLowersCountByQuantity(tail, k - 1);
      assert tail[k - 1] == items[k];
      assert WithoutItem(items, id) == [items[0]] + WithoutItem(tail, id);
      ItemCountConcat([items[0]], WithoutItem(tail, id));
      assert [items[0]][1..] == [];
    }
  }

  // ---------------------------------------------------------------------------
  // Discount codes

  /** The `discountCodes` table: the rate of a known code. */
  function DiscountRate(code: string): (r: Option<real>)
    ensures r.Some? <==> code in {"SAVE10", "WELCOME20", "STUDENT15"}
    ensures code == "SAVE10" ==> r == Some(0.1)
    ensures code == "WELCOME20" ==> r == Some(0.2)
    ensures code == "STUDENT15" ==> r == Some(0.15)
  {
    if code == "SAVE10" then Some(0.1)
    else if code == "WELCOME20" then Some(0.2)
    else if code == "STUDENT15" then Some(0.15)
    else None
  }

  /** The code is matched after upper-casing, so any letter case of a known code is accepted. */
  lemma DiscountCodeIgnoresCase()
    ensures DiscountRate(ToUpper("save10")) == Some(0.1)
    ensures DiscountRate(ToUpper("Welcome20")) == Some(0.2)
  {
    assert ToUpper("save10") == "SAVE10";
    assert ToUpper("Welcome20") == "WELCOME20";
  }

  // ---------------------------------------------------------------------------
  // The cart state

  class CartState {
    var items: seq<CartItem>
    var discountCode: string
    /** The discount rate (`discountAmount` in the source, e.g. 0.1 for 10%). */
    var discountAmount: real
    var isLoading: bool
    var errors: seq<string>
    /** The text of the discount input box. */
    var discountInput: string
    var cartOpen: bool

    /** The items keep the cart invariant and a stored code is a known code with its rate. */
    ghost predicate Valid()
      reads this
    {
      && WellFormed(items)
      && ((discountCode == "" && discountAmount == 0.0) || DiscountRate(discountCode) == Some(discountAmount))
    }

    constructor()
      ensures Valid()
      ensures items == [] && discountCode == "" && discountAmount == 0.0 && !isLoading && errors == []
      ensures discountInput == "" && !cartOpen
    {
      items := [];
      discountCode := "";
      discountAmount := 0.0;
      isLoading := false;
      errors := [];
      discountInput := "";
      cartOpen := false;
    }

    /** `addToCart`: the product is merged or appended, and errors are cleared. */
    method AddToCart(p: Product)
      requires Valid()
      modifies this`items, this`errors
      ensures Valid()
      ensures items == WithProductAdded(old(items), p) && errors == []
    {
      AddPreservesWellFormed(items, p);
      items, errors := WithProductAdded(items, p), [];
    }

    /** `updateQuantity(id, quantity)`. */
    method UpdateQuantity(id: string, quantity: int)
      requires Valid()
      modifies this`items
      ensures Valid()
      ensures items == AfterQuantityUpdate(old(items), id, quantity)
    {
      UpdatePreservesWellFormed(items, id, quantity);
      if quantity <= 0 {
        RemoveItem(id);
        return;
      }
      items := WithQuantity(items, id, quantity);
    }

    /** `removeItem(id)`. */
    method RemoveItem(id: string)
      requires Valid()
      modifies this`items
      ensures Valid()
      ensures items == WithoutItem(old(items), id)
    {
      RemovePreservesWellFormed(items, id);
      items := WithoutItem(items, id);
    }

    /** The discount input's `onChange`. */
    method EditDiscountInput(text: string)
      modifies this`discountInput
      ensures discountInput == text
    {
      discountInput := text;
    }

    /** `applyDiscount`: a known code (any case) is stored with its rate; anything else only sets the error. */
    method ApplyDiscount()
      requires Valid()
      modifies this`discountCode, this`discountAmount, this`errors, this`discountInput
      ensures Valid()
      ensures var code := ToUpper(old(discountInput));
        match DiscountRate(code)
        case Some(rate) =>
          discountCode == code && discountAmount == rate && errors == [] && discountInput == ""
        case None =>
          && errors == [InvalidDiscountCode]
          && discountCode == old(discountCode) && discountAmount == old(discountAmount)
          && discountInput == old(discountInput)
    {
      var code := ToUpper(discountInput);
      match DiscountRate(code)
      case Some(rate) =>
        discountCode, discountAmount, errors := code, rate, [];
        discountInput := "";
      case None =>
        errors := [InvalidDiscountCode];
    }

    /** `handleCheckout`, first step: the checkout button enters the loading state. */
    method BeginCheckout()
      modifies this`isLoading
      ensures isLoading && !CheckoutEnabled()
    {
      isLoading := true;
    }

    /** `handleCheckout`, when its timer fires: the cart is emptied, the discount dropped and the sidebar closed. */
    method CompleteCheckout()
      requires Valid()
      modifies this`items, this`discountCode, this`discountAmount, this`isLoading, this`cartOpen
      ensures Valid()
      ensures items == [] && discountCode == "" && discountAmount == 0.0 && !isLoading && !cartOpen
      ensures CheckoutEnabled()
      ensures errors == old(errors)
    {
      isLoading, items, discountCode, discountAmount := false, [], "", 0.0;
      cartOpen := false;
    }

    /** The cart button opens the sidebar. */
    method OpenCart()
      modifies this`cartOpen
      ensures cartOpen
    {
      cartOpen := true;
    }

    /** The backdrop and the close button close the sidebar. */
    method CloseCart()
      modifies this`cartOpen
      ensures !cartOpen
    {
      cartOpen := false;
    }

    /** The checkout button is disabled while a checkout is in progress. */
    predicate CheckoutEnabled()
      reads this
    {
      !isLoading
    }

    /** The badge on the cart button. */
    function Badge(): (n: int)
      reads this
      requires Valid()
      ensures n >= |items|
    {
      BadgeAtLeastLength(items);
      ItemCount(items)
    }
  }

  /** The "-" button on an item of quantity 1 takes that item out and leaves every other item in the cart. */
  lemma DecrementAtOneRemoves(items: seq<CartItem>, k: nat)
    requires WellFormed(items) && k < |items| && items[k].quantity == 1
    ensures var r := AfterQuantityUpdate(items, items[k].id, items[k].quantity - 1);
      !HasItem(r, items[k].id) && forall j :: 0 <= j < |items| && j != k ==> items[j] in r
  {
  }

  /** With every quantity at least 1 the badge is at least the number of distinct items. */
  lemma {:induction false} BadgeAtLeastLength(items: seq<CartItem>)
    requires WellFormed(items)
    ensures ItemCount(items) >= |items|
  {
    if items != [] {
      assert WellFormed(items[1..]);
      BadgeAtLeastLength(items[1..]);
    }
  }
}
